/** Optional values, the error kinds the engine raises, and a failure-compatible result. */
module Outcomes {

  datatype Option<T> = None | Some(value: T)

  /** Every exception the engine throws, by cause. */
  datatype Error =
    | InvalidIp(ip: string)              // ipToNum: not four parts in 0..255
    | TemplateNotFound(anchor: string)   // no <ppp>, <wan> or <rule> template
    | MissingSourceAddress               // the rule template has no <source>..<address>
    | MissingUsername                    // buildPfSenseXML: first <ppps><ppp> has no username
    | MissingClosingTag(tag: string)     // insertBeforeClose: no </tag>
    | MissingOpeningTag(tag: string)     // insertAfterOpen: no <tag...>

  datatype Result<T> = Ok(value: T) | Err(error: Error) {

    predicate IsFailure() {
      Err?
    }

    function PropagateFailure<U>(): Result<U>
      requires Err?
    {
      Err(error)
    }

    function Extract(): T
      requires Ok?
    {
      value
    }
  }
}

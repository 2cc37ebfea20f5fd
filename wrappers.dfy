/** Option and Result types shared by the scraper model. */
module Wrappers {

  /** `None` stands for PHP's `null` (an out-of-range DOMNodeList index, a strpos miss). */
  datatype Option<+T> = None | Some(value: T)

  /** The element that a positional lookup expected and did not find:
      the `index`-th element named `tag`. Dereferencing that `null` is fatal in the client. */
  datatype Missing = Missing(tag: string, index: nat)

  /** Outcome of an extraction: a value, or the fatal missing-structure error. */
  datatype Result<+T> = Ok(value: T) | Err(error: Missing)
}

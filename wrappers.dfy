/** Option and Result, the failure-carrying values every other module returns. */
module Wrappers {

  datatype Option<+T> = None | Some(value: T) {
    function GetOr(default: T): T {
      match this
      case Some(v) => v
      case None => default
    }
  }

  datatype Result<+T, +E> = Ok(value: T) | Err(error: E)
}

/** How a run of the downloader can end other than with a list of rows. */
module Errors {

  datatype Error =
    /** The ValueError the scraper factory raises for a host it does not know. */
    | UnknownScraper(url: string)
    /** The AttributeError of calling `.lower()` on the hostname of a URL that has none. */
    | NoHostname(url: string)
    /** Any other exception a scraper lets escape (KeyError, IndexError, AttributeError on a missing
        element, TypeError, ...); `reason` names the step that raised it. */
    | Crash(reason: string)
}

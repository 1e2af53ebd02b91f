/** Shared vocabulary of the scraper model: optional values, results that carry
    the Python exception a step raised, and the abstract page document. */
module Base {

  /** Python's `None` versus a present value. */
  datatype Option<+T> = None | Some(value: T) {
    function GetOr(default: T): T {
      match this
      case Some(v) => v
      case None => default
    }
  }

  /** The exceptions the scraper code raises (or lets escape). */
  datatype PyError =
    | KeyError(key: string)
    | IndexError
    | AttributeError
    | TypeError
    | ValueError
      /** exceptions.HtmlContentError: the selector that matched nothing and its message. */
    | HtmlContentError(xpath: string, message: string)

  /** The default message of HtmlContentError. */
  const HTML_CONTENT_MESSAGE := "The desired xpath was not found within html"

  /** A value, or the exception that was raised instead of returning one. */
  datatype Result<+T> = Ok(value: T) | Err(error: PyError) {
    predicate IsFailure() { Err? }

    function PropagateFailure<U>(): Result<U>
      requires Err?
    {
      Err(error)
    }

    function Extract(): T
      requires Ok?
    {
      value
    }
  }

  /** A parsed article page: the ordered text fragments an XPath query matches.
      Parsing and XPath evaluation themselves are outside the model. */
  type Document = string -> seq<string>

  /** Downloading and parsing the page at a URL. */
  type Fetch = string -> Document

  /** One value of the loaded identifier JSON: field name to string or null. */
  type Record = map<string, Option<string>>
}

/**
 * The exceptions the scraper raises, as one datatype. Each variant names the
 * Python exception class it stands for.
 */
module Errors {

  /** Why a `ValidationError` was raised. */
  datatype ValidationReason =
    | BadScheme              // the URL does not start with http:// or https://
    | BadDomain              // 'volby.cz' does not occur in the URL
    | MissingYear(year: string)  // the required election token does not occur
    | TimedOut               // a GET timed out (raised by the retry policy)

  datatype Error =
    | ValidationError(reason: ValidationReason)
    | RequestError(detail: string)     // requests.RequestException, re-raised unchanged
    | MissingResponse                  // AttributeError: `.text` read on the None a retry loop returned
    | DataParsingError(field: string)  // a required element is absent from the page
    | ValueError(text: string)         // the stripped text of a cell whose number `int()` rejected
    | MissingCode(href: string)        // IndexError: the link has no 'xobec=' parameter
    | FileSavingError                  // nothing to save
    | UnsupportedFormatError(extension: string)
}

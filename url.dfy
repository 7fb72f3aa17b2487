/**
 * The static checks of `validuj_url`: the scheme, the domain fragment and the
 * optional election token, tried in that order. The liveness probe that
 * follows them is network I/O and is not part of this model.
 */
module UrlCheck {
  import opened Wrappers
  import opened Text
  import opened Errors

  const Domain := "volby.cz"

  predicate HasWebScheme(url: string) {
    StartsWith(Lower(url), "http://") || StartsWith(Lower(url), "https://")
  }

  predicate HasDomain(url: string) {
    Contains(Lower(url), Domain)
  }

  /** A token is required only when one is given and it is not empty (Python truthiness). */
  predicate HasYear(url: string, year: Option<string>) {
    year.None? || year.value == "" || Contains(url, year.value)
  }

  /**
   * `validuj_url(url, rok_voleb)` up to the probe: `Ok(())` means the URL
   * goes on to the probe, `Err` is the `ValidationError` raised.
   */
  function ValidateStatic(url: string, year: Option<string>): (r: Result<(), Error>)
    ensures r.Ok? <==> HasWebScheme(url) && HasDomain(url) && HasYear(url, year)
    ensures !HasWebScheme(url) ==> r == Err(ValidationError(BadScheme))
    ensures HasWebScheme(url) && !HasDomain(url) ==> r == Err(ValidationError(BadDomain))
    ensures HasWebScheme(url) && HasDomain(url) && !HasYear(url, year) ==>
              r == Err(ValidationError(MissingYear(year.value)))
  {
    if !HasWebScheme(url) then Err(ValidationError(BadScheme))
    else if !HasDomain(url) then Err(ValidationError(BadDomain))
    else if !HasYear(url, year) then Err(ValidationError(MissingYear(year.value)))
    else Ok(())
  }

  /** The scheme and domain checks ignore ASCII case; the token check does not. */
  lemma {:induction false} CaseInsensitiveHost(a: string, b: string, year: Option<string>)
    requires Lower(a) == Lower(b)
    requires year.None? || (Contains(a, year.value) <==> Contains(b, year.value))
    ensures ValidateStatic(a, year) == ValidateStatic(b, year)
  {
  }
}

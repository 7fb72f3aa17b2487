/**
 * `ziskej_linky_okrsku`: the list of municipalities on a district page.
 * The HTML is abstracted to its table rows; each row gives the `href` of the
 * anchor the selector finds in its first cell and the raw text of its
 * `td.overflow_name` cell, each when present.
 */
module Listing {
  import opened Wrappers
  import opened Text
  import opened Errors
  import opened Fetching
  import opened Dedup

  const BaseUrl := "https://www.volby.cz/pls/ps2017nss/"
  /** The fragment that marks a link to a municipality's results page. */
  const LinkPattern := "ps311"
  /** The query parameter that carries the municipality code. */
  const CodeKey := "xobec="

  /** One `<tr>` of the district page. */
  datatype IndexRow = IndexRow(firstCellHref: Option<string>, nameCell: Option<string>)

  type IndexPage = seq<IndexRow>

  /** `Okrsek`: the page URL, the municipality code and the name (`None` when the cell is missing). */
  datatype MunicipalityRef = MunicipalityRef(url: string, code: string, name: Option<string>)

  /** The row has a first-cell link whose href contains `ps311`. */
  predicate Qualifies(row: IndexRow) {
    row.firstCellHref.Some? && Contains(row.firstCellHref.value, LinkPattern)
  }

  /** `href.split('xobec=')[1].split('&')[0]`; `None` is the `IndexError`. */
  function CodeOf(href: string): (r: Option<string>)
    ensures r.Some? <==> Contains(href, CodeKey)
    ensures r.Some? ==> !Contains(r.value, "&")
  {
    match SecondField(href, CodeKey)
    case None => None
    case Some(field) => Some(BeforeFirst(field, "&"))
  }

  /** `cell.text.strip() if cell else None`. */
  function NameOf(cell: Option<string>): (r: Option<string>)
    ensures r.Some? <==> cell.Some?
    ensures r.Some? ==> r.value == Strip(cell.value)
  {
    match cell
    case None => None
    case Some(text) => Some(Strip(text))
  }

  function Urls(refs: seq<MunicipalityRef>): (us: seq<string>)
    ensures |us| == |refs| && forall k | 0 <= k < |refs| :: us[k] == refs[k].url
  {
    seq(|refs|, k requires 0 <= k < |refs| => refs[k].url)
  }

  /** The reference record a qualifying row with a code gives. */
  function RefOf(row: IndexRow): (r: MunicipalityRef)
    requires Qualifies(row) && Contains(row.firstCellHref.value, CodeKey)
  {
    var href := row.firstCellHref.value;
    MunicipalityRef(BaseUrl + href, CodeOf(href).value, NameOf(row.nameCell))
  }

  /** The loop of `ziskej_linky_okrsku` over `rows`, as a left fold: the reference definition. */
  function Links(rows: seq<IndexRow>): (r: Result<seq<MunicipalityRef>, Error>)
  {
    if rows == [] then Ok([])
    else
      match Links(rows[..|rows| - 1])
      case Err(e) => Err(e)
      case Ok(refs) => Visit(refs, rows[|rows| - 1])
  }

  /** One iteration of the loop: skip, keep the earlier entry, or append (or fail on a missing code). */
  function Visit(refs: seq<MunicipalityRef>, row: IndexRow): (r: Result<seq<MunicipalityRef>, Error>) {
    if !Qualifies(row) then Ok(refs)
    else
      var href := row.firstCellHref.value;
      if BaseUrl + href in Urls(refs) then Ok(refs)
      else match CodeOf(href)
        case None => Err(MissingCode(href))
        case Some(code) => Ok(refs + [MunicipalityRef(BaseUrl + href, code, NameOf(row.nameCell))])
  }

  /** The full URLs of the qualifying rows, in page order, duplicates included. */
  function QualifyingUrls(rows: seq<IndexRow>): (r: seq<string>) {
    if rows == [] then []
    else
      var row := rows[|rows| - 1];
      QualifyingUrls(rows[..|rows| - 1])
        + (if Qualifies(row) then [BaseUrl + row.firstCellHref.value] else [])
  }

  /** Every qualifying row's link has a code. */
  predicate AllCoded(rows: seq<IndexRow>) {
    forall i | 0 <= i < |rows| && Qualifies(rows[i]) :: Contains(rows[i].firstCellHref.value, CodeKey)
  }

  lemma BaseUrlInjective(a: string, b: string)
    requires BaseUrl + a == BaseUrl + b
    ensures a == b
  {
    assert (BaseUrl + a)[|BaseUrl|..] == a;
    assert (BaseUrl + b)[|BaseUrl|..] == b;
  }

  /** An error aborts the loop: once a prefix fails, the whole listing fails the same way. */
  lemma {:induction false} LinksErrorPersists(rows: seq<IndexRow>, n: nat)
    requires n <= |rows| && Links(rows[..n]).Err?
    ensures Links(rows) == Links(rows[..n])
    decreases |rows| - n
  {
    if n < |rows| {
      assert rows[..n + 1][..n] == rows[..n];
      LinksErrorPersists(rows, n + 1);
    } else {
      assert rows[..n] == rows;
    }
  }

  /** The listing fails exactly when some qualifying link lacks `xobec=`. */
  lemma {:induction false} LinksOkIffCoded(rows: seq<IndexRow>)
    ensures Links(rows).Ok? <==> AllCoded(rows)
  {
    if rows != [] {
      var init := rows[..|rows| - 1];
      var row := rows[|rows| - 1];
      LinksOkIffCoded(init);
      LinksRefsFromRows(init);
      assert forall i | 0 <= i < |init| :: init[i] == rows[i];
      if Links(init).Ok? && Qualifies(row) {
        var refs := Links(init).value;
        var href := row.firstCellHref.value;
        if BaseUrl + href in Urls(refs) {
          // The earlier row with the same URL had the same href, and that one had a code.
          var k :| 0 <= k < |refs| && Urls(refs)[k] == BaseUrl + href;
          assert MadeFrom(refs[k], init);
          var i :| 0 <= i < |init| && Qualifies(init[i]) && Contains(init[i].firstCellHref.value, CodeKey)
                   && refs[k] == RefOf(init[i]);
          BaseUrlInjective(init[i].firstCellHref.value, href);
        }
      }
    }
  }

  /** On failure, the error is the `IndexError` of a qualifying link without `xobec=`. */
  lemma {:induction false} LinksErrorIsMissingCode(rows: seq<IndexRow>)
    requires Links(rows).Err?
    ensures exists i | 0 <= i < |rows| && Qualifies(rows[i]) ::
      && !Contains(rows[i].firstCellHref.value, CodeKey)
      && Links(rows).error == MissingCode(rows[i].firstCellHref.value)
  {
    var init := rows[..|rows| - 1];
    assert forall i | 0 <= i < |init| :: init[i] == rows[i];
    if Links(init).Err? {
      LinksErrorIsMissingCode(init);
    } else {
      assert Qualifies(rows[|rows| - 1]);
    }
  }

  /** `ref` is the record of one of the qualifying, coded rows of `rows`. */
  predicate MadeFrom(ref: MunicipalityRef, rows: seq<IndexRow>) {
    exists i | 0 <= i < |rows| && Qualifies(rows[i]) && Contains(rows[i].firstCellHref.value, CodeKey) ::
      ref == RefOf(rows[i])
  }

  /** The k-th entry is the record of some qualifying row. */
  lemma {:induction false} LinkFromRow(rows: seq<IndexRow>, k: nat)
    requires Links(rows).Ok? && k < |Links(rows).value|
    ensures MadeFrom(Links(rows).value[k], rows)
  {
    var init := rows[..|rows| - 1];
    var row := rows[|rows| - 1];
    var refs := Links(init).value;
    assert Links(rows) == Visit(refs, row);
    if k < |refs| {
      LinkFromRow(init, k);
      assert Links(rows).value[k] == refs[k];
      var i :| 0 <= i < |init| && Qualifies(init[i]) && Contains(init[i].firstCellHref.value, CodeKey)
               && refs[k] == RefOf(init[i]);
      assert rows[i] == init[i];
    } else {
      assert Qualifies(row) && Contains(row.firstCellHref.value, CodeKey);
      assert Links(rows).value[k] == RefOf(row);
    }
  }

  /** Every entry is the record of some qualifying row: its full URL, its code, its stripped name. */
  lemma LinksRefsFromRows(rows: seq<IndexRow>)
    ensures Links(rows).Ok? ==> forall k | 0 <= k < |Links(rows).value| :: MadeFrom(Links(rows).value[k], rows)
  {
    if Links(rows).Ok? {
      forall k | 0 <= k < |Links(rows).value| ensures MadeFrom(Links(rows).value[k], rows) {
        LinkFromRow(rows, k);
      }
    }
  }

  /**
   * The URLs are those of the qualifying rows with repeats dropped, in the
   * order of their first occurrence.
   */
  lemma {:induction false} LinksUrlsDeduplicated(rows: seq<IndexRow>)
    requires Links(rows).Ok?
    ensures Urls(Links(rows).value) == AppendNew([], QualifyingUrls(rows))
  {
    if rows != [] {
      var init := rows[..|rows| - 1];
      var row := rows[|rows| - 1];
      LinksUrlsDeduplicated(init);
      var refs := Links(init).value;
      if Qualifies(row) {
        var u := BaseUrl + row.firstCellHref.value;
        AppendNewStep([], QualifyingUrls(init), u);
        if u !in Urls(refs) {
          assert Urls(Links(rows).value) == Urls(refs) + [u];
        }
      } else {
        assert QualifyingUrls(rows) == QualifyingUrls(init);
      }
    }
  }

  /** Corollary: the URLs are pairwise distinct. */
  lemma LinksDistinct(rows: seq<IndexRow>)
    requires Links(rows).Ok?
    ensures Distinct(Urls(Links(rows).value))
  {
    LinksUrlsDeduplicated(rows);
    AppendNewDistinct([], QualifyingUrls(rows));
  }

  /** Corollary: a page with no qualifying row gives the empty list, not an error. */
  lemma {:induction false} NoQualifyingRows(rows: seq<IndexRow>)
    requires forall i | 0 <= i < |rows| :: !Qualifies(rows[i])
    ensures Links(rows) == Ok([])
  {
    if rows != [] {
      NoQualifyingRows(rows[..|rows| - 1]);
    }
  }

  /** A successful listing extends the listing of each of its prefixes. */
  lemma {:induction false} LinksGrow(rows: seq<IndexRow>, n: nat)
    requires n <= |rows| && Links(rows).Ok?
    ensures Links(rows[..n]).Ok? && Links(rows[..n]).value <= Links(rows).value
  {
    if n == |rows| {
      assert rows[..n] == rows;
    } else {
      var init := rows[..|rows| - 1];
      assert Links(init).Ok?;
      LinksGrow(init, n);
      assert init[..n] == rows[..n];
      var refs := Links(init).value;
      assert Links(rows) == Visit(refs, rows[|rows| - 1]);
      assert refs <= Links(rows).value;
    }
  }

  /** A URL already listed stays listed. */
  lemma UrlKept(refs: seq<MunicipalityRef>, refs': seq<MunicipalityRef>, u: string)
    requires refs <= refs' && u in Urls(refs)
    ensures u in Urls(refs')
  {
    var k :| 0 <= k < |refs| && Urls(refs)[k] == u;
    assert Urls(refs')[k] == u;
  }

  /** A row met again later, whatever lies between, changes nothing: its URL is already listed. */
  lemma RepeatedRowIgnored(rows: seq<IndexRow>, row: IndexRow, mid: seq<IndexRow>)
    ensures Links(rows + [row] + mid + [row]) == Links(rows + [row] + mid)
  {
    var first, p := rows + [row], rows + [row] + mid;
    var q := p + [row];
    assert q[..|p|] == p && q[|p|] == row;
    if Links(p).Err? {
      LinksErrorPersists(q, |p|);
    } else {
      LinksGrow(p, |first|);
      assert p[..|first|] == first;
      assert first[..|rows|] == rows && first[|rows|] == row;
      var refs := Links(rows).value;
      var refs' := Links(first).value;
      assert Links(first) == Visit(refs, row);
      assert Links(q) == Visit(Links(p).value, row);
      if Qualifies(row) {
        var u := BaseUrl + row.firstCellHref.value;
        if u !in Urls(refs) {
          assert refs' == refs + [MunicipalityRef(u, CodeOf(row.firstCellHref.value).value, NameOf(row.nameCell))];
          assert Urls(refs')[|refs|] == u;
        }
        UrlKept(refs', Links(p).value, u);
      }
    }
  }

  /** The fold over one more row is one more visit. */
  lemma LinksStep(rows: seq<IndexRow>, i: nat)
    requires i < |rows| && Links(rows[..i]).Ok?
    ensures Links(rows[..i + 1]) == Visit(Links(rows[..i]).value, rows[i])
  {
    assert rows[..i + 1][..i] == rows[..i];
  }

  /** The loop of `ziskej_linky_okrsku`, with its `unique_urls` set and its `obce` list. */
  method ExtractLinks(rows: seq<IndexRow>) returns (r: Result<seq<MunicipalityRef>, Error>)
    ensures r == Links(rows)
  {
    var uniqueUrls: set<string> := {};
    var refs: seq<MunicipalityRef> := [];
    for i := 0 to |rows|
      invariant Links(rows[..i]) == Ok(refs)
      invariant forall u :: u in uniqueUrls <==> u in Urls(refs)
    {
      LinksStep(rows, i);
      var row := rows[i];
      if row.firstCellHref.Some? && Contains(row.firstCellHref.value, LinkPattern) {
        var href := row.firstCellHref.value;
        var fullUrl := BaseUrl + href;
        if fullUrl !in uniqueUrls {
          uniqueUrls := uniqueUrls + {fullUrl};
          var code := CodeOf(href);
          if code.None? {
            LinksErrorPersists(rows, i + 1);
            return Err(MissingCode(href));
          }
          ghost var old' := refs;
          refs := refs + [MunicipalityRef(fullUrl, code.value, NameOf(row.nameCell))];
          assert Urls(refs) == Urls(old') + [fullUrl];
        }
      }
    }
    assert rows[..|rows|] == rows;
    return Ok(refs);
  }

  /** `ziskej_linky_okrsku(url, max_pokusu)`, the fetch included. */
  function ListFromServer(get: nat -> Outcome<IndexPage>, maxAttempts: int): (r: Result<seq<MunicipalityRef>, Error>) {
    match Fetch(get, maxAttempts).result
    case Response(page) => Links(page)
    case Raised(e) => Err(e)
    case NoResponse => Err(MissingResponse)
  }

  method ListMunicipalities(get: nat -> Outcome<IndexPage>, maxAttempts: int)
    returns (r: Result<seq<MunicipalityRef>, Error>)
    ensures r == ListFromServer(get, maxAttempts)
  {
    var response, attempts := Download(get, maxAttempts);
    match response
    case Response(page) => r := ExtractLinks(page);
    case Raised(e) => r := Err(e);
    case NoResponse => r := Err(MissingResponse);
  }
}

# Election results scraper: a verified model of its core logic

The scraper reads a district index page of the Czech election server
(volby.cz). It lists the municipalities linked from the page, downloads each
municipality's results page with a small retry policy, and extracts the
header figures (registered voters, envelopes issued, valid votes) and the
votes of every party. Each municipality becomes one result row, the
statistics are accumulated, and the rows are saved as CSV, JSON or XML,
chosen by the output file's extension.

This project models the deterministic core of that program in Dafny and
proves what it promises. The network and the HTML parser are replaced by
plain inputs:

- a GET is a function `get: nat -> Outcome<D>`, the outcome of the k-th attempt;
- an index page is its table rows, each the `href` of its first-cell link and its name cell, both optional;
- a municipality page is its heading, three header cells (each optional) and each table's rows as lists of cell texts.

Modules, following the program's own layering:

| file | module | models |
|---|---|---|
| `wrappers.dfy` | `Wrappers` | `Option` and `Result` |
| `text.dfy` | `Text` | the `str` methods the program uses: `strip`, `lower`, `in`, `replace`, `split(...)[i]` |
| `numbers.dfy` | `Numbers` | `ocisti_cislo`, `int()`, `je_validni_radek` |
| `errors.dfy` | `Errors` | the exception classes the core raises |
| `url.dfy` | `UrlCheck` | the static checks of `validuj_url` |
| `fetch.dfy` | `Fetching` | `stahni_data` and `zpracuj_vyjimku` |
| `dedup.dfy` | `Dedup` | "append if not already present", used by the listing and the CSV header |
| `listing.dfy` | `Listing` | `ziskej_linky_okrsku` |
| `keep.dfy` | `Keep` | a loop that converts each element and skips those it cannot convert |
| `municipality.dfy` | `Municipality` | `ziskej_data_obce`, `najdi_text_nebo_chybu` |
| `records.dfy` | `Records` | the result row as an insertion-ordered Python `dict` |
| `batch.dfy` | `Batch` | `zpracuj_obce` |
| `saving.dfy` | `Saving` | `uloz_vysledky`, the empty check of `uloz_soubor`, the header of `uloz_do_csv` |

The loops of the program are Dafny methods with loop invariants:

- `Download`, the retry loop;
- `ExtractLinks`, the listing loop with its `unique_urls` set;
- `CollectRows` and `CollectParties`, the party-row loops;
- `ProcessMunicipalities` and `BuildRow`, the batch loop and the row dict;
- `AddColumns` and `CsvColumns`, the CSV header loops.

Each method is proved equal to a reference function. The properties are
proved as lemmas about those functions.

Three behaviours of the code are worth knowing:

- Header figures and votes go through Python's `int()`, which accepts a sign, so a figure or vote count of `-5` passes through (`Numbers.ParseInt`).
- The output extension is checked only in `uloz_vysledky`, after every municipality has been downloaded (main.py:1765-1771, 1407). In the model, `Saving.Save` takes the finished rows.
- A party name that repeats within one municipality is not an error. The later row overwrites the earlier one in the result dict (`Batch.PartyColumn`).

## Model

| member | source | states |
|---|---|---|
| Numbers.ParseInt | main.py:823 | `int(s)` succeeds exactly on an optional sign followed by one or more digits; a `-` sign gives a value `<= 0`, otherwise `>= 0` |
| Numbers.ParseIntOfString | main.py:823 | `int(str(n)) == n` for every integer |
| Numbers.DeleteSeparators | main.py:823 | the cleaned text holds no space and no no-break space, and text without them is unchanged |
| Numbers.CleanNumber | main.py:823 | `ocisti_cislo` succeeds exactly when the text, with separators deleted, is an integer literal |
| Numbers.IgnoresSeparator | main.py:823 | a space or no-break space anywhere in the text does not change the result |
| Numbers.CleanNumberRecovers | main.py:823 | whatever separators are spread through the digits of `str(n)`, the result is `n` |
| Numbers.CleanNumberRejects | main.py:823 | any character other than a digit, a sign or a separator makes it fail (`ValueError`) |
| Numbers.CleanNumberSeparatorExamples | main.py:815-818 | the documented examples `'1 234'` and `'1\xa0234'` give 1234 |
| Numbers.CleanNumberPlainExamples | main.py:819-823 | the documented `'5000'` gives 5000; `''` and `'-'` fail |
| Numbers.IsValidRow | main.py:861 | reference definition of `je_validni_radek`: a row is rejected when the party is `-` or the vote text is `-` or empty; its properties are the rows Numbers.ValidRowExamples and Numbers.ParsedVotesPassFilter |
| Numbers.ValidRowExamples | main.py:851-861 | the four documented cases of `je_validni_radek`: one valid row and the three rejected sentinels |
| Numbers.ParsedVotesPassFilter | main.py:706-715 | a vote text that parses always passes the filter's vote checks, so in the party-row loop only the `-` party-name check rejects anything the parse would accept |
| Text.Strip | main.py:697-698 | `strip()` leaves no whitespace at either end |
| Text.StripIsSlice | main.py:697-698 | `strip()` keeps one contiguous part of the text and drops only whitespace before and after it |
| Text.Lower | main.py:365 | `lower()` keeps the length and maps each character on its own |
| Text.RemoveAll | main.py:671 | `replace(pat, "")` never lengthens the text |
| Text.RemoveAllAbsent | main.py:671 | a text in which `pat` does not occur is left unchanged |
| Text.RemoveAllSkips | main.py:671 | when `pat` first occurs right after `a`, the text `a` is kept, that occurrence is deleted and the scan resumes after it |
| Text.RemoveAllFirst | main.py:671 | the same, with the first occurrence located by `Find` |
| Text.BeforeFirst | main.py:584 | `split(sep)[0]` is a prefix without `sep`, followed in the text by `sep` when `sep` occurs |
| Text.SecondField | main.py:584 | `split(sep)[1]` exists exactly when `sep` occurs, and is the text after its first occurrence up to the next one |
| Text.BeforeFirstEndsAtFirst | main.py:584 | `split(sep)[0]` ends exactly at the first occurrence of `sep`: no occurrence starts inside it, and the first one found starts where it ends |
| Text.SecondFieldAfterFirst | main.py:584 | `split(sep)[1]` is the text after the separator that ends `split(sep)[0]`, cut at the next `sep` |
| Text.AfterLast | main.py:1407 | `split('.')[-1]` is a suffix without the separator, preceded by it when shorter than the text |
| UrlCheck.ValidateStatic | main.py:365-381 | the URL passes exactly when the scheme, domain and year checks all hold; the first failing check, in source order, gives its own `ValidationError` |
| UrlCheck.CaseInsensitiveHost | main.py:365-375 | URLs that differ only in ASCII case get the same verdict, given the same year-token verdict |
| Fetching.HandleRequestError | main.py:509-530 | reference definition of `zpracuj_vyjimku`: a timeout is fatal as a `ValidationError`, another request error is re-raised on the last attempt and retried otherwise; its properties are the rows Fetching.TimeoutIsFatal and Fetching.LastErrorReraised |
| Fetching.RetryFrom | main.py:470-478 | reference definition of the retry loop of `stahni_data` from attempt `k` on; its properties are the rows Fetching.RetryFromFacts to Fetching.LastErrorReraised, and Fetching.Download is proved equal to it |
| Fetching.RetryFromFacts | main.py:470-478 | the loop makes consecutive GETs and never more than `max_pokusu`; every attempt but the last failed with a non-timeout error; the last one decides the result |
| Fetching.NoAttempts | main.py:470 | with `max_pokusu <= 0` no GET is made and `None` is returned |
| Fetching.FirstSuccessReturns | main.py:470-474 | the first successful attempt returns its page at once |
| Fetching.TimeoutIsFatal | main.py:509-515 | a timeout on any attempt raises `ValidationError`, with no further attempt |
| Fetching.LastErrorReraised | main.py:517-524 | when every attempt fails otherwise, all `max_pokusu` GETs are made and the last error is re-raised |
| Fetching.Download | main.py:470-478 | the retry loop returns what the retry policy prescribes after that many GETs, and never makes more than `max_pokusu` |
| Dedup.AppendNewExtends | main.py:1485-1488 | "append if absent" keeps the list it starts from and adds only elements not already in it |
| Dedup.AppendNewMembers | main.py:1485-1488 | the result holds exactly the elements of the start and of the scanned list |
| Dedup.AppendNewDistinct | main.py:1485-1488 | a duplicate-free start stays duplicate-free |
| Dedup.AppendNewConcat | main.py:1485-1488 | scanning one list and then another is scanning their concatenation |
| Dedup.AppendNewOrder | main.py:579-583 | the added elements appear in the order of their first occurrence |
| Listing.CodeOf | main.py:584 | the code exists exactly when the href contains `xobec=`, and it holds no `&` |
| Listing.NameOf | main.py:585-590 | a missing name cell gives `None`, a present one its stripped text |
| Listing.Links | main.py:577-599 | reference definition of the listing loop as a left fold over the rows; its properties are the rows Listing.LinksErrorPersists to Listing.RepeatedRowIgnored, and Listing.ExtractLinks is proved equal to it |
| Listing.Visit | main.py:578-597 | reference definition of one iteration: skip a row without a `ps311` link, keep the list for a URL already seen, otherwise append the new entry or fail on a missing `xobec=` |
| Listing.BaseUrlInjective | main.py:581 | distinct hrefs give distinct full URLs |
| Listing.LinksErrorPersists | main.py:584 | a missing `xobec=` aborts the whole listing |
| Listing.LinksOkIffCoded | main.py:577-599 | the listing succeeds exactly when every qualifying link carries `xobec=` |
| Listing.LinksErrorIsMissingCode | main.py:584 | a failure is the `IndexError` of a qualifying link without `xobec=` |
| Listing.LinkFromRow | main.py:577-597 | the k-th entry is `BASE_URL + href`, its code and its stripped name, for some qualifying row |
| Listing.LinksRefsFromRows | main.py:577-597 | each entry is `BASE_URL + href`, its code and its stripped name, for some qualifying row |
| Listing.LinksUrlsDeduplicated | main.py:579-583 | the URLs are the qualifying rows' URLs with repeats dropped, in order of first appearance |
| Listing.LinksDistinct | main.py:582-583 | the URLs are pairwise distinct |
| Listing.NoQualifyingRows | main.py:577-599 | a page with no qualifying row gives an empty list, not an error |
| Listing.LinksGrow | main.py:577-597 | the loop only appends: the listing of a prefix is a prefix of the listing |
| Listing.RepeatedRowIgnored | main.py:582 | a row met again later, with any rows in between, changes nothing |
| Listing.ExtractLinks | main.py:571-599 | the loop with its set and list computes the listing as specified |
| Listing.ListMunicipalities | main.py:574-575 | `ziskej_linky_okrsku` is the retry policy followed by the listing; a fall-through `None` is an error |
| Municipality.FindText | main.py:783-789 | a missing element raises `DataParsingError` naming the field; otherwise its stripped text is returned |
| Municipality.ReadNumber | main.py:674-689 | a header figure is the cleaned number of its element; a missing element or a bad number is the matching error |
| Municipality.PartyOf | main.py:695-716 | reference definition of what one table row contributes; its properties are the rows Municipality.PartyOfSpec and Municipality.RowSkippedAlone |
| Municipality.PartyOfSpec | main.py:695-716 | a row gives a party exactly when it has at least 3 cells, passes the filter and its votes parse; the party is the stripped second cell with the cleaned third |
| Municipality.CleanName | main.py:671 | reference definition of `obec_text.replace("Obec:", "").strip()`; its property is the row Municipality.CleanNameOfHeading |
| Municipality.CleanNameOfHeading | main.py:671 | a heading `Obec:` followed by a name without `Obec:` gives the stripped name |
| Municipality.ExtractData | main.py:668-738 | reference definition of `ziskej_data_obce` after the fetch; its properties are the rows Municipality.ExtractDataErrors to Municipality.ExtractDataOk, and Municipality.ExtractMunicipality is proved equal to it |
| Municipality.ExtractDataErrors | main.py:668-677 | the heading is read first, its absence is a `DataParsingError("název obce")` whatever else is missing; then a missing voters cell is `DataParsingError("počet voličů")` and an unparsable one a `ValueError` on its stripped text |
| Municipality.ExtractDataEnvelopesErrors | main.py:679-683 | with heading and voters read, a missing envelopes cell is `DataParsingError("počet vydaných obálek")` and an unparsable one a `ValueError` on its stripped text |
| Municipality.ExtractDataValidVotesErrors | main.py:685-689 | with heading, voters and envelopes read, a missing valid-votes cell is `DataParsingError("počet platných hlasů")` and an unparsable one a `ValueError` on its stripped text |
| Municipality.ExtractDataErrorKinds | main.py:668-689 | every failure of the extraction is a `DataParsingError` or a `ValueError` |
| Municipality.ExtractDataOk | main.py:668-738 | a page is read exactly when its heading is present and its three figures parse; the figures are then the cleaned numbers, the name is the heading without `Obec:`, and the parties are those of every table but the first |
| Municipality.RowsPartiesAppend | main.py:694-724 | the parties of consecutive rows are concatenated in row order |
| Municipality.RowSkippedAlone | main.py:706-724 | a short, invalid or unparsable row is skipped without affecting the others |
| Municipality.RowsPartiesFromRows | main.py:694-716 | every output party is the party of some row |
| Municipality.AllRowsKept | main.py:694-716 | when every row is a valid party row, the k-th party comes from the k-th row |
| Municipality.TablesPartiesFlat | main.py:693-694 | the nested loop reads the party rows of all tables but the first, one after another |
| Municipality.CollectRows | main.py:694-724 | the inner loop collects the parties of one table's rows |
| Municipality.CollectParties | main.py:692-724 | the outer loop collects the parties of all the tables |
| Municipality.ExtractMunicipality | main.py:668-738 | the method computes `ExtractData` |
| Municipality.FetchMunicipality | main.py:664-665 | `ziskej_data_obce` is the retry policy followed by the extraction; a fall-through `None` is an error |
| Records.Keys | main.py:1165-1174 | one key per item, in order |
| Records.Lookup | main.py:1165-1174 | a lookup fails exactly for a missing key |
| Records.Put | main.py:1173-1174 | reference definition of `d[k] = v` on the item list; its properties are the rows Records.PutKeys and Records.PutLookup |
| Records.PutKeys | main.py:1173-1174 | `d[k] = v` keeps an existing key's position and appends a new key at the end |
| Records.PutLookup | main.py:1173-1174 | after `d[k] = v`, `k` holds `v` and every other key keeps its value |
| Records.LookupDistinct | main.py:1165-1171 | in a dict built from distinct keys, each key looks up its own value |
| Batch.RowOf | main.py:1165-1174 | reference definition of one municipality's result row: the dict literal, then each party's votes in page order; its properties are the rows Batch.RowColumns to Batch.BaseRowValues, and Batch.BuildRow is proved equal to it |
| Batch.PutPartiesKeys | main.py:1173-1174 | the row's keys are its starting keys followed by the new party names, in first-seen order |
| Batch.PutPartiesLookup | main.py:1173-1174 | a key holds the votes of the last party of that name, or its earlier value when no party has that name |
| Batch.RowColumns | main.py:1165-1174 | a row's keys are the five fixed columns, then the party names in first-seen order, without repeats |
| Batch.PartyColumn | main.py:1173-1174 | a party's column holds its votes; a later party of the same name overwrites an earlier one |
| Batch.FixedColumnValues | main.py:1165-1174 | the fixed columns hold the listing's code and the page's name and figures, unless a party bears the column's name |
| Batch.FixedColumnsDistinct | main.py:1165-1171 | the five fixed column names are pairwise different |
| Batch.BaseRowKeys | main.py:1165-1171 | the fresh row has the five fixed columns, in order |
| Batch.BaseRowValues | main.py:1165-1171 | the fresh row maps each fixed column to its value |
| Batch.Tally | main.py:1142-1223 | reference definition of the statistics after a list of outcomes; its properties are the rows Batch.TallyCounts, Batch.TallyTotals, Batch.TallyAppend, Batch.FailureSkippedStats, Batch.AllSucceed and Batch.AllFail |
| Batch.Rows | main.py:1142-1176 | reference definition of the result rows after a list of outcomes, one per success; its properties are the rows Batch.TallyCounts, Batch.RowsAppend, Batch.FailureSkippedRows, Batch.AllSucceed and Batch.AllFail |
| Batch.TallyCounts | main.py:1142-1223 | each municipality is counted as processed or as an error; there is one row per processed one |
| Batch.TallyTotals | main.py:1179-1181 | the voter and valid-vote totals are sums over the successful municipalities only |
| Batch.TallyAppend | main.py:1142-1223 | the statistics of a list are the sums of those of its parts |
| Batch.RowsAppend | main.py:1142-1176 | the rows of a list are the rows of its parts, in order |
| Batch.FailureSkippedRows | main.py:1189-1223 | a failed municipality, whatever the error, leaves the other rows unchanged |
| Batch.FailureSkippedStats | main.py:1189-1223 | a failed municipality adds one error and nothing else to the statistics |
| Batch.AllSucceed | main.py:1142-1181 | when every municipality succeeds there is one row each, in listing order, and no error |
| Batch.AllFail | main.py:1189-1223 | when every municipality fails there are no rows, zero totals and one error each |
| Batch.BuildRow | main.py:1165-1174 | the dict-building loop produces the specified row |
| Batch.RecordOutcome | main.py:1160-1223 | a success appends its row and adds its figures to the totals; a failure only adds one error |
| Batch.ProcessMunicipalities | main.py:1123-1227 | the loop produces the specified rows and statistics |
| Saving.Extension | main.py:1407 | reference definition of `vystupni_soubor.split('.')[-1].lower()`; its properties are the rows Saving.AfterLastSeparator to Saving.NameWithoutDot |
| Saving.ChooseFormat | main.py:1407-1424 | extensions `csv`, `json` and `xml` select their writers; any other extension raises `UnsupportedFormatError` naming the extension |
| Saving.Save | main.py:1310-1317 | saving succeeds exactly for a supported extension and non-empty results; a bad extension is reported first, and empty results raise `FileSavingError` |
| Saving.AfterLastSeparator | main.py:1407 | the extension is the text after the last dot, whatever the stem holds |
| Saving.ExtensionAfterLastDot | main.py:1407 | the extension of `stem.ext` is `ext` lowercased |
| Saving.UpperCaseExtension | main.py:1407-1411 | `.CSV` and `.Json` select CSV and JSON |
| Saving.NameWithoutDot | main.py:1407 | a name without a dot is its own extension, so a file named just `csv` is written as CSV |
| Saving.KeyInAllKeys | main.py:1485-1486 | every key of every row is scanned |
| Saving.AllKeysFromRow | main.py:1485-1486 | every key scanned is a key of some row |
| Saving.InAllKeys | main.py:1485-1486 | the keys scanned are exactly the keys some row has |
| Saving.Columns | main.py:1478-1488 | reference definition of the CSV header `sloupce`; its properties are the rows Saving.ColumnsFacts and Saving.ColumnsOrder, and Saving.CsvColumns is proved equal to it |
| Saving.ColumnsFacts | main.py:1478-1488 | the header starts with the five fixed columns, has no duplicates, and names exactly the fixed columns and the keys of the rows |
| Saving.ColumnsOrder | main.py:1485-1488 | the columns after the fixed ones follow the order in which the rows first mention them |
| Saving.AddColumns | main.py:1486-1488 | the inner loop appends the row's keys not yet present |
| Saving.CsvColumns | main.py:1478-1488 | the nested loop produces the specified header |

## Left out

- Numbers.ParseInt: Python's `int()` also accepts underscores between digits, surrounding whitespace and non-ASCII decimal digits. Python 3.11 (and 3.10.7 on) also refuses decimal strings longer than 4300 digits, and `str(n)` refuses such numbers too. The model has no such limit, so Numbers.ParseIntOfString holds here for every integer. Vote counts never come near the limit. The model accepts only an optional sign and ASCII digits. Surrounding whitespace does not matter here, because every text is stripped first.
- Text.Lower: only ASCII capitals are lowered. Python's full Unicode case mapping is not modelled. The texts compared are ASCII (`http://`, `volby.cz`, `csv`, `json`, `xml`), and no non-ASCII character lowercases to an ASCII letter except through the Kelvin sign and the dotted capital I. Those two cases are not modelled.
- Fetching.Download: the number of GETs is a ghost output. The two-second `time.sleep` between attempts is not modelled.
- The HTTP requests themselves (`requests.get`, `raise_for_status`, timeouts) are replaced by the `get` function. All non-timeout request errors are one `OtherError` case.
- HTML parsing with BeautifulSoup and its CSS selectors is not modelled. The model receives what the selectors would find: the first-cell `ps311` anchor's `href`, the `td.overflow_name` text, the first `h3` containing `Obec:`, the `sa2`/`sa3`/`sa6` cells, and every table's rows as cell texts.
- The liveness probe at the end of `validuj_url` is network I/O and is not modelled.
- `ziskej_obce`, `zkontroluj_vstupy` and `zpracuj_data` are command-line glue: argument checks, `sys.exit`, and the mapping of exceptions to exit codes. They are not modelled.
- The CSV, JSON and XML writers are library I/O, as is the `OSError` path of `uloz_soubor`. Only the header of the CSV file is modelled.
- `vypis_statistiky` uses the wall clock and a floating-point turnout, so it is not modelled.
- Logging, console output, colours and the progress bar are not modelled.
- The `except DataParsingError` branch in the party-row loop (main.py:726-730) can never run, because only `ocisti_cislo` is called inside its `try`, and that raises only `ValueError`. It is left out.
- The fetch of a page that returns no response (`max_pokusu <= 0`) makes `response.text` fail with `AttributeError`. It is modelled as `MissingResponse`. Callers in the program always pass 3 attempts.
- Batch.ProcessMunicipalities: each municipality's GET outcomes are given by its position in the listing. The program fetches each URL once, and the listing's URLs are distinct (`Listing.LinksDistinct`).

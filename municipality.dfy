/**
 * `ziskej_data_obce`: the figures of one municipality's results page. The
 * HTML is abstracted to what the selectors find: the heading text, the three
 * header cells (each `None` when absent) and every table's rows as lists of
 * cell texts.
 */
module Municipality {
  import opened Wrappers
  import opened Text
  import opened Numbers
  import opened Errors
  import opened Fetching
  import opened Keep

  /** The texts of the `<td>` cells of one `<tr>`. */
  type Row = seq<string>
  /** The `<tr>` rows of one `<table>`, in page order. */
  type Table = seq<Row>

  datatype MunicipalityPage = MunicipalityPage(
    heading: Option<string>,     // the first <h3> whose text contains "Obec:"
    voters: Option<string>,      // td[headers="sa2"]
    envelopes: Option<string>,   // td[headers="sa3"]
    validVotes: Option<string>,  // td[headers="sa6"]
    tables: seq<Table>)          // every <table> of the page

  /** `Strana`. */
  datatype Party = Party(name: string, votes: int)

  /** `ObecData`. */
  datatype MunicipalityData = MunicipalityData(
    name: string, voters: int, envelopes: int, validVotes: int, parties: seq<Party>)

  const NameMarker := "Obec:"

  /** `najdi_text_nebo_chybu`: the element's stripped text, or `DataParsingError` naming the field. */
  function FindText(element: Option<string>, field: string): (r: Result<string, Error>)
    ensures element.None? <==> r == Err(DataParsingError(field))
    ensures element.Some? ==> r.Ok? && r.value == Strip(element.value)
  {
    match element
    case None => Err(DataParsingError(field))
    case Some(text) => Ok(Strip(text))
  }

  /** A header figure: the element's text through `ocisti_cislo`; a bad number is a `ValueError`. */
  function ReadNumber(element: Option<string>, field: string): (r: Result<int, Error>)
    ensures element.None? ==> r == Err(DataParsingError(field))
    ensures element.Some? && CleanNumber(Strip(element.value)).None? ==>
              r == Err(ValueError(Strip(element.value)))
    ensures r.Ok? <==> element.Some? && CleanNumber(Strip(element.value)).Some?
    ensures r.Ok? ==> r.value == CleanNumber(Strip(element.value)).value
    ensures r.Err? ==> r.error.DataParsingError? || r.error.ValueError?
  {
    match FindText(element, field)
    case Err(e) => Err(e)
    case Ok(text) =>
      match CleanNumber(text)
      case None => Err(ValueError(text))
      case Some(n) => Ok(n)
  }

  /** `obec_text.replace("Obec:", "").strip()`. */
  function CleanName(text: string): (r: string) {
    Strip(RemoveAll(text, NameMarker))
  }

  /** A heading of the form `Obec: name` gives the stripped name. */
  lemma CleanNameOfHeading(name: string)
    ensures !Contains(name, NameMarker) ==> CleanName(NameMarker + name) == Strip(name)
  {
    if !Contains(name, NameMarker) {
      assert NameMarker + name == [] + NameMarker + name;
      RemoveAllSkips([], NameMarker, name);
      RemoveAllAbsent(name, NameMarker);
    }
  }

  /** What one party row contributes: nothing if it is short, invalid or its votes do not parse. */
  function PartyOf(cells: Row): (r: Option<Party>) {
    if |cells| < 3 then None
    else
      var party := Strip(cells[1]);
      var votesText := Strip(cells[2]);
      var votes := CleanNumber(votesText);
      if IsValidRow(party, votesText) && votes.Some? then Some(Party(party, votes.value)) else None
  }

  /**
   * A row yields a party exactly when it has at least three cells, passes
   * the row filter and its vote cell is a number; the party is the stripped
   * second cell with the cleaned third.
   */
  lemma PartyOfSpec(cells: Row)
    ensures PartyOf(cells).Some? <==> |cells| >= 3 && IsValidRow(Strip(cells[1]), Strip(cells[2]))
                                      && CleanNumber(Strip(cells[2])).Some?
    ensures PartyOf(cells).Some? ==>
      PartyOf(cells).value == Party(Strip(cells[1]), CleanNumber(Strip(cells[2])).value)
  {
  }

  /** The parties of a run of rows, in row order. */
  function RowsParties(rows: seq<Row>): (r: seq<Party>) {
    KeepSome(PartyOf, rows)
  }

  /** `table.select('tr:nth-child(n+3)')`: the rows from the third on. */
  function PartyRows(table: Table): (r: seq<Row>) {
    if |table| <= 2 then [] else table[2..]
  }

  /** The parties of a run of tables, table by table. */
  function TablesParties(tables: seq<Table>): (r: seq<Party>) {
    if tables == [] then []
    else TablesParties(tables[..|tables| - 1]) + RowsParties(PartyRows(tables[|tables| - 1]))
  }

  /** `soup.select('table')[1:]`: every table but the first (none when there is at most one). */
  function PartyTables(page: MunicipalityPage): (r: seq<Table>) {
    if page.tables == [] then [] else page.tables[1..]
  }

  /** The whole of `ziskej_data_obce` after the fetch: the reference definition. */
  function ExtractData(page: MunicipalityPage): (r: Result<MunicipalityData, Error>) {
    match FindText(page.heading, "název obce")
    case Err(e) => Err(e)
    case Ok(heading) =>
      match ReadNumber(page.voters, "počet voličů")
      case Err(e) => Err(e)
      case Ok(voters) =>
        match ReadNumber(page.envelopes, "počet vydaných obálek")
        case Err(e) => Err(e)
        case Ok(envelopes) =>
          match ReadNumber(page.validVotes, "počet platných hlasů")
          case Err(e) => Err(e)
          case Ok(valid) =>
            Ok(MunicipalityData(CleanName(heading), voters, envelopes, valid,
                                TablesParties(PartyTables(page))))
  }

  /**
   * The header elements are read in order and the first that is missing or
   * not a number aborts the municipality with that element's error: the
   * heading, then the voters.
   */
  lemma ExtractDataErrors(page: MunicipalityPage)
    ensures page.heading.None? ==> ExtractData(page) == Err(DataParsingError("název obce"))
    ensures page.heading.Some? && page.voters.None? ==>
      ExtractData(page) == Err(DataParsingError("počet voličů"))
    ensures page.heading.Some? && page.voters.Some? && CleanNumber(Strip(page.voters.value)).None? ==>
      ExtractData(page) == Err(ValueError(Strip(page.voters.value)))
  {
  }

  /** Then the envelopes, once the heading and the voters have been read ... */
  lemma ExtractDataEnvelopesErrors(page: MunicipalityPage)
    ensures page.heading.Some? && ReadNumber(page.voters, "počet voličů").Ok? && page.envelopes.None? ==>
      ExtractData(page) == Err(DataParsingError("počet vydaných obálek"))
    ensures page.heading.Some? && ReadNumber(page.voters, "počet voličů").Ok? && page.envelopes.Some?
            && CleanNumber(Strip(page.envelopes.value)).None? ==>
      ExtractData(page) == Err(ValueError(Strip(page.envelopes.value)))
  {
  }

  /** ... and the valid votes last. */
  lemma ExtractDataValidVotesErrors(page: MunicipalityPage)
    ensures page.heading.Some? && ReadNumber(page.voters, "počet voličů").Ok?
            && ReadNumber(page.envelopes, "počet vydaných obálek").Ok? && page.validVotes.None? ==>
      ExtractData(page) == Err(DataParsingError("počet platných hlasů"))
    ensures page.heading.Some? && ReadNumber(page.voters, "počet voličů").Ok?
            && ReadNumber(page.envelopes, "počet vydaných obálek").Ok? && page.validVotes.Some?
            && CleanNumber(Strip(page.validVotes.value)).None? ==>
      ExtractData(page) == Err(ValueError(Strip(page.validVotes.value)))
  {
  }

  /** Every failure of the extraction is a `DataParsingError` or a `ValueError`. */
  lemma ExtractDataErrorKinds(page: MunicipalityPage)
    ensures ExtractData(page).Err? ==>
      ExtractData(page).error.DataParsingError? || ExtractData(page).error.ValueError?
  {
    var voters := ReadNumber(page.voters, "počet voličů");
    var envelopes := ReadNumber(page.envelopes, "počet vydaných obálek");
    var valid := ReadNumber(page.validVotes, "počet platných hlasů");
    if page.heading.Some? && voters.Ok? && envelopes.Ok? {
      assert ExtractData(page).Err? ==> ExtractData(page) == Err(valid.error);
    }
  }

  /**
   * A page is read exactly when its heading is present and its three figures
   * are numbers; the figures are then the cleaned numbers, the name is the
   * heading without `Obec:`, and the parties are those of the party rows.
   */
  lemma ExtractDataOk(page: MunicipalityPage)
    ensures ExtractData(page).Ok? <==>
      && page.heading.Some?
      && ReadNumber(page.voters, "počet voličů").Ok?
      && ReadNumber(page.envelopes, "počet vydaných obálek").Ok?
      && ReadNumber(page.validVotes, "počet platných hlasů").Ok?
    ensures ExtractData(page).Ok? ==> ExtractData(page).value == MunicipalityData(
      CleanName(Strip(page.heading.value)),
      CleanNumber(Strip(page.voters.value)).value,
      CleanNumber(Strip(page.envelopes.value)).value,
      CleanNumber(Strip(page.validVotes.value)).value,
      TablesParties(PartyTables(page)))
  {
  }

  /** Rows read one after the other contribute their parties one after the other. */
  lemma RowsPartiesAppend(a: seq<Row>, b: seq<Row>)
    ensures RowsParties(a + b) == RowsParties(a) + RowsParties(b)
  {
    KeepSomeAppend(PartyOf, a, b);
  }

  /** A row that contributes nothing is skipped on its own: the other rows are unaffected. */
  lemma RowSkippedAlone(a: seq<Row>, row: Row, b: seq<Row>)
    requires PartyOf(row).None?
    ensures RowsParties(a + [row] + b) == RowsParties(a + b)
  {
    KeepSomeDropped(PartyOf, a, row, b);
  }

  /** Every party in the output is the party of some row of the page. */
  lemma RowsPartiesFromRows(rows: seq<Row>, k: nat)
    ensures k < |RowsParties(rows)| ==>
      exists i | 0 <= i < |rows| :: PartyOf(rows[i]) == Some(RowsParties(rows)[k])
  {
    KeepSomeFrom(PartyOf, rows, k);
  }

  /** When every row is a valid party row, each contributes exactly one party, in row order. */
  lemma AllRowsKept(rows: seq<Row>)
    requires forall i | 0 <= i < |rows| :: PartyOf(rows[i]).Some?
    ensures |RowsParties(rows)| == |rows|
    ensures forall i | 0 <= i < |rows| :: RowsParties(rows)[i] == PartyOf(rows[i]).value
  {
    KeepSomeAll(PartyOf, rows);
  }

  /** The nested loop reads the same rows as one flat loop over the party rows of the tables. */
  function CandidateRows(tables: seq<Table>): (r: seq<Row>) {
    if tables == [] then []
    else CandidateRows(tables[..|tables| - 1]) + PartyRows(tables[|tables| - 1])
  }

  lemma {:induction false} TablesPartiesFlat(tables: seq<Table>)
    ensures TablesParties(tables) == RowsParties(CandidateRows(tables))
  {
    if tables != [] {
      var init := tables[..|tables| - 1];
      TablesPartiesFlat(init);
      RowsPartiesAppend(CandidateRows(init), PartyRows(tables[|tables| - 1]));
    }
  }

  lemma TablesStep(tables: seq<Table>, t: nat)
    requires t < |tables|
    ensures TablesParties(tables[..t + 1]) == TablesParties(tables[..t]) + RowsParties(PartyRows(tables[t]))
  {
    assert tables[..t + 1][..t] == tables[..t];
  }

  /** The inner loop of `ziskej_data_obce`: one table's party rows. */
  method CollectRows(rows: seq<Row>) returns (parties: seq<Party>)
    ensures parties == RowsParties(rows)
  {
    parties := [];
    for j := 0 to |rows|
      invariant parties == RowsParties(rows[..j])
    {
      KeepSomeStep(PartyOf, rows, j);
      var cells := rows[j];
      if |cells| < 3 {
        continue;
      }
      var party := Strip(cells[1]);
      var votesText := Strip(cells[2]);
      if !IsValidRow(party, votesText) {
        continue;
      }
      var votes := CleanNumber(votesText);
      if votes.None? {
        continue;  // the ValueError is caught and the row skipped
      }
      assert PartyOf(cells) == Some(Party(party, votes.value));
      parties := parties + [Party(party, votes.value)];
    }
    assert rows[..|rows|] == rows;
  }

  /** The outer loop of `ziskej_data_obce` over every table but the first. */
  method CollectParties(tables: seq<Table>) returns (parties: seq<Party>)
    ensures parties == TablesParties(tables)
  {
    parties := [];
    for t := 0 to |tables|
      invariant parties == TablesParties(tables[..t])
    {
      var rowParties := CollectRows(PartyRows(tables[t]));
      TablesStep(tables, t);
      parties := parties + rowParties;
    }
    assert tables[..|tables|] == tables;
  }

  /** `ziskej_data_obce` on a fetched page: the header lookups in order, then the party rows. */
  method ExtractMunicipality(page: MunicipalityPage) returns (r: Result<MunicipalityData, Error>)
    ensures r == ExtractData(page)
  {
    var heading := FindText(page.heading, "název obce");
    if heading.Err? {
      return Err(heading.error);
    }
    var name := CleanName(heading.value);
    var voters := ReadNumber(page.voters, "počet voličů");
    if voters.Err? {
      return Err(voters.error);
    }
    var envelopes := ReadNumber(page.envelopes, "počet vydaných obálek");
    if envelopes.Err? {
      return Err(envelopes.error);
    }
    var valid := ReadNumber(page.validVotes, "počet platných hlasů");
    if valid.Err? {
      return Err(valid.error);
    }
    var parties := CollectParties(PartyTables(page));
    return Ok(MunicipalityData(name, voters.value, envelopes.value, valid.value, parties));
  }

  /** `ziskej_data_obce(url, max_pokusu)`, the fetch included. */
  function Load(get: nat -> Outcome<MunicipalityPage>, maxAttempts: int): (r: Result<MunicipalityData, Error>) {
    match Fetch(get, maxAttempts).result
    case Response(page) => ExtractData(page)
    case Raised(e) => Err(e)
    case NoResponse => Err(MissingResponse)
  }

  method FetchMunicipality(get: nat -> Outcome<MunicipalityPage>, maxAttempts: int)
    returns (r: Result<MunicipalityData, Error>)
    ensures r == Load(get, maxAttempts)
  {
    var response, attempts := Download(get, maxAttempts);
    match response
    case Response(page) => r := ExtractMunicipality(page);
    case Raised(e) => r := Err(e);
    case NoResponse => r := Err(MissingResponse);
  }
}

/**
 * `zpracuj_obce`: every municipality in the listing is downloaded and
 * extracted in turn; a success becomes one result row and updates the
 * totals, a failure of any kind is counted and the loop moves on.
 */
module Batch {
  import opened Wrappers
  import opened Text
  import opened Errors
  import opened Fetching
  import opened Dedup
  import opened Records
  import opened Listing
  import opened Municipality

  const CodeColumn := "Číslo obce"
  const NameColumn := "Název obce"
  const VotersColumn := "Voliči"
  const EnvelopesColumn := "Vydané obálky"
  const ValidVotesColumn := "Platné hlasy"

  /** The five columns every row starts with, in this order. */
  const FixedColumns: seq<string> := [CodeColumn, NameColumn, VotersColumn, EnvelopesColumn, ValidVotesColumn]

  /** `stats`. */
  datatype Stats = Stats(processed: nat, errors: nat, totalVoters: int, totalValidVotes: int)

  const NoStats := Stats(0, 0, 0, 0)

  /** The row before the party columns are added. */
  function BaseRow(code: string, data: MunicipalityData): (r: Record) {
    [(CodeColumn, Text(code)), (NameColumn, Text(data.name)), (VotersColumn, Number(data.voters)),
     (EnvelopesColumn, Number(data.envelopes)), (ValidVotesColumn, Number(data.validVotes))]
  }

  /** `for strana in data['strany']: radek[strana['strana']] = strana['hlasy']`. */
  function PutParties(d: Record, parties: seq<Party>): (r: Record) {
    if parties == [] then d
    else
      var p := parties[|parties| - 1];
      Put(PutParties(d, parties[..|parties| - 1]), p.name, Number(p.votes))
  }

  /** The result row of one municipality. */
  function RowOf(code: string, data: MunicipalityData): (r: Record) {
    PutParties(BaseRow(code, data), data.parties)
  }

  /** The party names, in page order. */
  function PartyNames(parties: seq<Party>): (r: seq<string>) {
    if parties == [] then [] else PartyNames(parties[..|parties| - 1]) + [parties[|parties| - 1].name]
  }

  /** The votes of the last party in `parties` called `name`: later entries overwrite earlier ones. */
  function LastVotes(parties: seq<Party>, name: string): (r: Option<int>) {
    if parties == [] then None
    else if parties[|parties| - 1].name == name then Some(parties[|parties| - 1].votes)
    else LastVotes(parties[..|parties| - 1], name)
  }

  /** The columns of a row are the fixed ones, then the party names in first-seen order. */
  lemma {:induction false} PutPartiesKeys(d: Record, parties: seq<Party>)
    ensures Keys(PutParties(d, parties)) == AppendNew(Keys(d), PartyNames(parties))
  {
    if parties != [] {
      var init := parties[..|parties| - 1];
      var p := parties[|parties| - 1];
      PutPartiesKeys(d, init);
      PutKeys(PutParties(d, init), p.name, Number(p.votes));
      AppendNewStep(Keys(d), PartyNames(init), p.name);
    }
  }

  /** A key's value is the last party's of that name, or what the row held before. */
  lemma {:induction false} PutPartiesLookup(d: Record, parties: seq<Party>, k: string)
    ensures Lookup(PutParties(d, parties), k) ==
      match LastVotes(parties, k)
      case Some(v) => Some(Number(v))
      case None => Lookup(d, k)
  {
    if parties != [] {
      var init := parties[..|parties| - 1];
      var p := parties[|parties| - 1];
      PutPartiesLookup(d, init, k);
      PutLookup(PutParties(d, init), p.name, Number(p.votes), k);
    }
  }

  lemma RowColumns(code: string, data: MunicipalityData)
    ensures Keys(RowOf(code, data)) == AppendNew(FixedColumns, PartyNames(data.parties))
    ensures Distinct(Keys(RowOf(code, data)))
  {
    PutPartiesKeys(BaseRow(code, data), data.parties);
    BaseRowKeys(code, data);
    FixedColumnsDistinct();
    AppendNewDistinct(FixedColumns, PartyNames(data.parties));
  }

  /** A party's column holds its votes; the last party of that name wins. */
  lemma PartyColumn(code: string, data: MunicipalityData, k: string)
    requires LastVotes(data.parties, k).Some?
    ensures Lookup(RowOf(code, data), k) == Some(Number(LastVotes(data.parties, k).value))
  {
    PutPartiesLookup(BaseRow(code, data), data.parties, k);
  }

  /**
   * The fixed columns hold the listing's code and the page's figures, unless
   * a party bears the same name as the column.
   */
  lemma FixedColumnValues(code: string, data: MunicipalityData)
    ensures LastVotes(data.parties, CodeColumn).None? ==>
      Lookup(RowOf(code, data), CodeColumn) == Some(Text(code))
    ensures LastVotes(data.parties, NameColumn).None? ==>
      Lookup(RowOf(code, data), NameColumn) == Some(Text(data.name))
    ensures LastVotes(data.parties, VotersColumn).None? ==>
      Lookup(RowOf(code, data), VotersColumn) == Some(Number(data.voters))
    ensures LastVotes(data.parties, EnvelopesColumn).None? ==>
      Lookup(RowOf(code, data), EnvelopesColumn) == Some(Number(data.envelopes))
    ensures LastVotes(data.parties, ValidVotesColumn).None? ==>
      Lookup(RowOf(code, data), ValidVotesColumn) == Some(Number(data.validVotes))
  {
    var d := BaseRow(code, data);
    BaseRowValues(code, data);
    PutPartiesLookup(d, data.parties, CodeColumn);
    PutPartiesLookup(d, data.parties, NameColumn);
    PutPartiesLookup(d, data.parties, VotersColumn);
    PutPartiesLookup(d, data.parties, EnvelopesColumn);
    PutPartiesLookup(d, data.parties, ValidVotesColumn);
  }

  /** The five column names differ from one another. */
  lemma FixedColumnsDistinct()
    ensures Distinct(FixedColumns)
  {
    assert NameColumn[0] != CodeColumn[0];
    assert VotersColumn[0] != CodeColumn[0] && VotersColumn[0] != NameColumn[0];
    assert EnvelopesColumn[0] != CodeColumn[0] && EnvelopesColumn[0] != NameColumn[0]
        && EnvelopesColumn[1] != VotersColumn[1];
    assert ValidVotesColumn[0] != CodeColumn[0] && ValidVotesColumn[0] != NameColumn[0]
        && ValidVotesColumn[0] != VotersColumn[0] && ValidVotesColumn[0] != EnvelopesColumn[0];
  }

  lemma BaseRowKeys(code: string, data: MunicipalityData)
    ensures Keys(BaseRow(code, data)) == FixedColumns
  {
  }

  lemma BaseRowValues(code: string, data: MunicipalityData)
    ensures Lookup(BaseRow(code, data), CodeColumn) == Some(Text(code))
    ensures Lookup(BaseRow(code, data), NameColumn) == Some(Text(data.name))
    ensures Lookup(BaseRow(code, data), VotersColumn) == Some(Number(data.voters))
    ensures Lookup(BaseRow(code, data), EnvelopesColumn) == Some(Number(data.envelopes))
    ensures Lookup(BaseRow(code, data), ValidVotesColumn) == Some(Number(data.validVotes))
  {
    var d := BaseRow(code, data);
    BaseRowKeys(code, data);
    FixedColumnsDistinct();
    LookupDistinct(d, 0);
    LookupDistinct(d, 1);
    LookupDistinct(d, 2);
    LookupDistinct(d, 3);
    LookupDistinct(d, 4);
  }

  /** How one municipality's outcome updates `stats`. */
  function Count(stats: Stats, outcome: Result<MunicipalityData, Error>): (r: Stats) {
    match outcome
    case Ok(data) =>
      stats.(processed := stats.processed + 1,
             totalVoters := stats.totalVoters + data.voters,
             totalValidVotes := stats.totalValidVotes + data.validVotes)
    case Err(_) => stats.(errors := stats.errors + 1)
  }

  /** The statistics after municipalities with these outcomes, in order. */
  function Tally(outcomes: seq<Result<MunicipalityData, Error>>): (r: Stats) {
    if outcomes == [] then NoStats
    else Count(Tally(outcomes[..|outcomes| - 1]), outcomes[|outcomes| - 1])
  }

  /** The rows after municipalities with these outcomes: one per success, in order. */
  function Rows(refs: seq<MunicipalityRef>, outcomes: seq<Result<MunicipalityData, Error>>): (r: seq<Record>)
    requires |refs| == |outcomes|
  {
    if refs == [] then []
    else
      var n := |refs| - 1;
      Rows(refs[..n], outcomes[..n])
        + (if outcomes[n].Ok? then [RowOf(refs[n].code, outcomes[n].value)] else [])
  }

  /** The outcome of each municipality's `ziskej_data_obce(obec['url'])`. */
  function Outcomes(refs: seq<MunicipalityRef>, server: nat -> nat -> Outcome<MunicipalityPage>)
    : (os: seq<Result<MunicipalityData, Error>>)
    ensures |os| == |refs|
  {
    seq(|refs|, i requires 0 <= i < |refs| => Load(server(i), DefaultAttempts))
  }

  /**
   * `zpracuj_obce(obce)`: the rows and the statistics. `server(i)` answers
   * the GET attempts for the i-th municipality's page.
   */
  function Results(refs: seq<MunicipalityRef>, server: nat -> nat -> Outcome<MunicipalityPage>)
    : (r: (seq<Record>, Stats))
  {
    var outcomes := Outcomes(refs, server);
    (Rows(refs, outcomes), Tally(outcomes))
  }

  function CountOk(outcomes: seq<Result<MunicipalityData, Error>>): (r: nat) {
    if outcomes == [] then 0
    else CountOk(outcomes[..|outcomes| - 1]) + (if outcomes[|outcomes| - 1].Ok? then 1 else 0)
  }

  /** Every municipality is either processed or an error, and there is a row per processed one. */
  lemma {:induction false} TallyCounts(refs: seq<MunicipalityRef>, outcomes: seq<Result<MunicipalityData, Error>>)
    requires |refs| == |outcomes|
    ensures Tally(outcomes).processed == CountOk(outcomes) == |Rows(refs, outcomes)|
    ensures Tally(outcomes).processed + Tally(outcomes).errors == |outcomes|
  {
    if refs != [] {
      var n := |refs| - 1;
      TallyCounts(refs[..n], outcomes[..n]);
    }
  }

  function Sum(xs: seq<int>): (r: int) {
    if xs == [] then 0 else Sum(xs[..|xs| - 1]) + xs[|xs| - 1]
  }

  /** The voters of each municipality, counting 0 for one that failed. */
  function VotersIfOk(outcomes: seq<Result<MunicipalityData, Error>>): (vs: seq<int>)
    ensures |vs| == |outcomes|
  {
    seq(|outcomes|, i requires 0 <= i < |outcomes| => if outcomes[i].Ok? then outcomes[i].value.voters else 0)
  }

  /** The valid votes of each municipality, counting 0 for one that failed. */
  function ValidVotesIfOk(outcomes: seq<Result<MunicipalityData, Error>>): (vs: seq<int>)
    ensures |vs| == |outcomes|
  {
    seq(|outcomes|, i requires 0 <= i < |outcomes| => if outcomes[i].Ok? then outcomes[i].value.validVotes else 0)
  }

  /** The totals are the sums of the figures of the successful municipalities only. */
  lemma {:induction false} TallyTotals(outcomes: seq<Result<MunicipalityData, Error>>)
    ensures Tally(outcomes).totalVoters == Sum(VotersIfOk(outcomes))
    ensures Tally(outcomes).totalValidVotes == Sum(ValidVotesIfOk(outcomes))
  {
    if outcomes != [] {
      var n := |outcomes| - 1;
      TallyTotals(outcomes[..n]);
      assert VotersIfOk(outcomes)[..n] == VotersIfOk(outcomes[..n]);
      assert ValidVotesIfOk(outcomes)[..n] == ValidVotesIfOk(outcomes[..n]);
    }
  }

  function Plus(a: Stats, b: Stats): (r: Stats) {
    Stats(a.processed + b.processed, a.errors + b.errors,
          a.totalVoters + b.totalVoters, a.totalValidVotes + b.totalValidVotes)
  }

  /** The statistics of a list are the sums of those of its parts. */
  lemma {:induction false} TallyAppend(outcomes: seq<Result<MunicipalityData, Error>>,
                                       outcomes': seq<Result<MunicipalityData, Error>>)
    ensures Tally(outcomes + outcomes') == Plus(Tally(outcomes), Tally(outcomes'))
    decreases |outcomes'|
  {
    if outcomes' == [] {
      assert outcomes + outcomes' == outcomes;
    } else {
      var n := |outcomes'| - 1;
      assert (outcomes + outcomes')[..|outcomes| + n] == outcomes + outcomes'[..n];
      TallyAppend(outcomes, outcomes'[..n]);
    }
  }

  /** The rows of a list are the rows of its parts, one after the other. */
  lemma {:induction false} RowsAppend(refs: seq<MunicipalityRef>, refs': seq<MunicipalityRef>,
                                      outcomes: seq<Result<MunicipalityData, Error>>,
                                      outcomes': seq<Result<MunicipalityData, Error>>)
    requires |refs| == |outcomes| && |refs'| == |outcomes'|
    ensures Rows(refs + refs', outcomes + outcomes') == Rows(refs, outcomes) + Rows(refs', outcomes')
    decreases |refs'|
  {
    if refs' == [] {
      assert refs + refs' == refs && outcomes + outcomes' == outcomes;
    } else {
      var n := |refs'| - 1;
      assert (refs + refs')[..|refs| + n] == refs + refs'[..n];
      assert (outcomes + outcomes')[..|refs| + n] == outcomes + outcomes'[..n];
      RowsAppend(refs, refs'[..n], outcomes, outcomes'[..n]);
    }
  }

  /**
   * A municipality that fails is skipped on its own: the rows are those of
   * the list without it ...
   */
  lemma FailureSkippedRows(refs: seq<MunicipalityRef>, ref: MunicipalityRef, refs': seq<MunicipalityRef>,
                           outcomes: seq<Result<MunicipalityData, Error>>, e: Error,
                           outcomes': seq<Result<MunicipalityData, Error>>)
    requires |refs| == |outcomes| && |refs'| == |outcomes'|
    ensures Rows(refs + [ref] + refs', outcomes + [Err(e)] + outcomes') == Rows(refs + refs', outcomes + outcomes')
  {
    var failed: Result<MunicipalityData, Error> := Err(e);
    assert [ref][..0] == [] && [failed][..0] == [];
    assert Rows([ref], [failed]) == [];
    RowsAppend(refs + [ref], refs', outcomes + [failed], outcomes');
    RowsAppend(refs, [ref], outcomes, [failed]);
    RowsAppend(refs, refs', outcomes, outcomes');
  }

  /** ... and the totals are too, with the error count one higher. */
  lemma FailureSkippedStats(outcomes: seq<Result<MunicipalityData, Error>>, e: Error,
                            outcomes': seq<Result<MunicipalityData, Error>>)
    ensures var without := Tally(outcomes + outcomes');
      Tally(outcomes + [Err(e)] + outcomes') == without.(errors := without.errors + 1)
  {
    var failed: Result<MunicipalityData, Error> := Err(e);
    assert [failed][..0] == [];
    assert Tally([failed]) == Stats(0, 1, 0, 0);
    TallyAppend(outcomes + [failed], outcomes');
    TallyAppend(outcomes, [failed]);
    TallyAppend(outcomes, outcomes');
  }

  /** When every municipality succeeds there is one row per municipality, in listing order. */
  lemma {:induction false} AllSucceed(refs: seq<MunicipalityRef>, outcomes: seq<Result<MunicipalityData, Error>>)
    requires |refs| == |outcomes|
    requires forall i | 0 <= i < |outcomes| :: outcomes[i].Ok?
    ensures |Rows(refs, outcomes)| == |refs| && Tally(outcomes).errors == 0
    ensures forall i | 0 <= i < |refs| :: Rows(refs, outcomes)[i] == RowOf(refs[i].code, outcomes[i].value)
  {
    if refs != [] {
      var n := |refs| - 1;
      var init, initOutcomes := refs[..n], outcomes[..n];
      AllSucceed(init, initOutcomes);
      var p := Rows(init, initOutcomes);
      var r := Rows(refs, outcomes);
      assert r == p + [RowOf(refs[n].code, outcomes[n].value)];
      forall i | 0 <= i < |refs| ensures r[i] == RowOf(refs[i].code, outcomes[i].value) {
        if i < n {
          assert r[i] == p[i] && init[i] == refs[i] && initOutcomes[i] == outcomes[i];
        }
      }
    }
  }

  /** When every municipality fails there are no rows, no totals, and every one is an error. */
  lemma {:induction false} AllFail(refs: seq<MunicipalityRef>, outcomes: seq<Result<MunicipalityData, Error>>)
    requires |refs| == |outcomes|
    requires forall i | 0 <= i < |outcomes| :: outcomes[i].Err?
    ensures Rows(refs, outcomes) == [] && Tally(outcomes) == Stats(0, |refs|, 0, 0)
  {
    if refs != [] {
      var n := |refs| - 1;
      AllFail(refs[..n], outcomes[..n]);
    }
  }

  lemma ResultsStep(refs: seq<MunicipalityRef>, outcomes: seq<Result<MunicipalityData, Error>>, i: nat)
    requires |refs| == |outcomes| && i < |refs|
    ensures Tally(outcomes[..i + 1]) == Count(Tally(outcomes[..i]), outcomes[i])
    ensures Rows(refs[..i + 1], outcomes[..i + 1]) == Rows(refs[..i], outcomes[..i])
      + (if outcomes[i].Ok? then [RowOf(refs[i].code, outcomes[i].value)] else [])
  {
    assert refs[..i + 1][..i] == refs[..i];
    assert outcomes[..i + 1][..i] == outcomes[..i];
  }

  /** The inner loop that writes one municipality's party columns. */
  method BuildRow(code: string, data: MunicipalityData) returns (row: Record)
    ensures row == RowOf(code, data)
  {
    row := BaseRow(code, data);
    for j := 0 to |data.parties|
      invariant row == PutParties(BaseRow(code, data), data.parties[..j])
    {
      assert data.parties[..j + 1][..j] == data.parties[..j];
      var party := data.parties[j];
      row := Put(row, party.name, Number(party.votes));
    }
    assert data.parties[..|data.parties|] == data.parties;
  }

  /**
   * The body of the loop of `zpracuj_obce` once `ziskej_data_obce` has
   * returned or raised: record the row and the figures, or count the error.
   */
  method RecordOutcome(ref: MunicipalityRef, outcome: Result<MunicipalityData, Error>,
                       rows: seq<Record>, stats: Stats)
    returns (rows': seq<Record>, stats': Stats)
    ensures stats' == Count(stats, outcome)
    ensures rows' == rows + (if outcome.Ok? then [RowOf(ref.code, outcome.value)] else [])
  {
    if outcome.Err? {
      return rows, stats.(errors := stats.errors + 1);
    }
    var data := outcome.value;
    var row := BuildRow(ref.code, data);
    rows' := rows + [row];
    stats' := stats.(processed := stats.processed + 1,
                     totalVoters := stats.totalVoters + data.voters,
                     totalValidVotes := stats.totalValidVotes + data.validVotes);
  }

  /** `zpracuj_obce(obce)`: the results and the statistics. */
  method ProcessMunicipalities(refs: seq<MunicipalityRef>, server: nat -> nat -> Outcome<MunicipalityPage>)
    returns (rows: seq<Record>, stats: Stats)
    ensures (rows, stats) == Results(refs, server)
  {
    ghost var outcomes := Outcomes(refs, server);
    rows := [];
    stats := NoStats;
    for i := 0 to |refs|
      invariant rows == Rows(refs[..i], outcomes[..i])
      invariant stats == Tally(outcomes[..i])
    {
      ResultsStep(refs, outcomes, i);
      var outcome := FetchMunicipality(server(i), DefaultAttempts);
      assert outcome == outcomes[i];
      rows, stats := RecordOutcome(refs[i], outcome, rows, stats);
    }
    assert refs[..|refs|] == refs && outcomes[..|refs|] == outcomes;
  }
}

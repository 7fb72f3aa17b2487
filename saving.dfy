/**
 * `uloz_vysledky`, `uloz_soubor` and the header of `uloz_do_csv`: which
 * writer a file name selects, when saving is refused, and which columns the
 * CSV file gets. The writers themselves are not modelled.
 */
module Saving {
  import opened Wrappers
  import opened Text
  import opened Errors
  import opened Dedup
  import opened Records
  import opened Batch

  datatype Format = Csv | Json | Xml

  /** `vystupni_soubor.split('.')[-1].lower()`. */
  function Extension(path: string): (r: string) {
    Lower(AfterLast(path, '.'))
  }

  /** The writer `uloz_vysledky` hands the rows to, or the error for any other extension. */
  function ChooseFormat(path: string): (r: Result<Format, Error>)
    ensures r == Ok(Csv) <==> Extension(path) == "csv"
    ensures r == Ok(Json) <==> Extension(path) == "json"
    ensures r == Ok(Xml) <==> Extension(path) == "xml"
    ensures r.Err? <==> Extension(path) !in {"csv", "json", "xml"}
    ensures r.Err? ==> r.error == UnsupportedFormatError(Extension(path))
  {
    var ext := Extension(path);
    if ext == "csv" then Ok(Csv)
    else if ext == "json" then Ok(Json)
    else if ext == "xml" then Ok(Xml)
    else Err(UnsupportedFormatError(ext))
  }

  /**
   * `uloz_vysledky(vysledky, vystupni_soubor)` up to the writer: the format
   * is chosen first, then `uloz_soubor` refuses an empty result list.
   */
  function Save(rows: seq<Record>, path: string): (r: Result<Format, Error>)
    ensures r.Ok? <==> ChooseFormat(path).Ok? && rows != []
    ensures r.Ok? ==> r == ChooseFormat(path)
    ensures ChooseFormat(path).Err? ==> r == ChooseFormat(path)
    ensures ChooseFormat(path).Ok? && rows == [] ==> r == Err(FileSavingError)
  {
    match ChooseFormat(path)
    case Err(e) => Err(e)
    case Ok(format) => if rows == [] then Err(FileSavingError) else Ok(format)
  }

  /** `split(sep)[-1]` is what follows the last `sep`, whatever comes before it. */
  lemma {:induction false} AfterLastSeparator(stem: string, sep: char, ext: string)
    requires sep !in ext
    ensures AfterLast(stem + [sep] + ext, sep) == ext
    decreases |ext|
  {
    var s := stem + [sep] + ext;
    if ext != [] {
      var init := ext[..|ext| - 1];
      assert s[..|s| - 1] == stem + [sep] + init;
      AfterLastSeparator(stem, sep, init);
      assert init + [ext[|ext| - 1]] == ext;
    } else {
      assert s[|s| - 1] == sep;
    }
  }

  /** The extension is what follows the last dot, whatever the stem holds. */
  lemma ExtensionAfterLastDot(stem: string, ext: string)
    requires '.' !in ext
    ensures Extension(stem + "." + ext) == Lower(ext)
  {
    AfterLastSeparator(stem, '.', ext);
  }

  /** The extension is matched case-insensitively: `vysledky.CSV` is written as CSV. */
  lemma UpperCaseExtension(stem: string)
    ensures ChooseFormat(stem + ".CSV") == Ok(Csv)
    ensures ChooseFormat(stem + ".Json") == Ok(Json)
  {
    ExtensionAfterLastDot(stem, "CSV");
    ExtensionAfterLastDot(stem, "Json");
    assert stem + ".CSV" == stem + "." + "CSV";
    assert stem + ".Json" == stem + "." + "Json";
    assert Lower("CSV") == "csv";
    assert Lower("Json") == "json";
  }

  /** A name without a dot is its own extension: a file called just `csv` is written as CSV. */
  lemma NameWithoutDot(path: string)
    requires '.' !in path
    ensures Extension(path) == Lower(path)
  {
    assert AfterLast(path, '.') == path;
  }

  /** Every key of every row, row by row. */
  function AllKeys(rows: seq<Record>): (r: seq<string>) {
    if rows == [] then [] else AllKeys(rows[..|rows| - 1]) + Keys(rows[|rows| - 1])
  }

  /** The CSV header: the five fixed columns, then every other key in the order first met. */
  function Columns(rows: seq<Record>): (r: seq<string>) {
    AppendNew(FixedColumns, AllKeys(rows))
  }

  lemma {:induction false} KeyInAllKeys(rows: seq<Record>, i: nat, k: string)
    requires i < |rows| && k in Keys(rows[i])
    ensures k in AllKeys(rows)
  {
    var n := |rows| - 1;
    if i < n {
      KeyInAllKeys(rows[..n], i, k);
      assert rows[..n][i] == rows[i];
    }
  }

  lemma {:induction false} AllKeysFromRow(rows: seq<Record>, k: string)
    requires k in AllKeys(rows)
    ensures exists i | 0 <= i < |rows| :: k in Keys(rows[i])
  {
    var n := |rows| - 1;
    if k !in Keys(rows[n]) {
      AllKeysFromRow(rows[..n], k);
      var i :| 0 <= i < n && k in Keys(rows[..n][i]);
      assert rows[..n][i] == rows[i];
    }
  }

  lemma InAllKeys(rows: seq<Record>, k: string)
    ensures k in AllKeys(rows) <==> exists i | 0 <= i < |rows| :: k in Keys(rows[i])
  {
    if k in AllKeys(rows) {
      AllKeysFromRow(rows, k);
    }
    if exists i | 0 <= i < |rows| :: k in Keys(rows[i]) {
      var i :| 0 <= i < |rows| && k in Keys(rows[i]);
      KeyInAllKeys(rows, i, k);
    }
  }

  /**
   * The header starts with the five fixed columns, names no column twice,
   * and names exactly the fixed columns and the keys some row has.
   */
  lemma ColumnsFacts(rows: seq<Record>)
    ensures |Columns(rows)| >= 5 && Columns(rows)[..5] == FixedColumns
    ensures Distinct(Columns(rows))
    ensures forall k :: k in Columns(rows) <==>
      k in FixedColumns || exists i | 0 <= i < |rows| :: k in Keys(rows[i])
  {
    AppendNewExtends(FixedColumns, AllKeys(rows));
    AppendNewMembers(FixedColumns, AllKeys(rows));
    AppendNewDistinct(FixedColumns, AllKeys(rows));
    forall k ensures k in AllKeys(rows) <==> exists i | 0 <= i < |rows| :: k in Keys(rows[i]) {
      InAllKeys(rows, k);
    }
  }

  /** The columns past the fixed ones follow the order in which the rows first mention them. */
  lemma ColumnsOrder(rows: seq<Record>, i: nat, j: nat)
    requires 5 <= i < j < |Columns(rows)|
    ensures Columns(rows)[i] in AllKeys(rows) && Columns(rows)[j] in AllKeys(rows)
    ensures IndexOf(AllKeys(rows), Columns(rows)[i]) < IndexOf(AllKeys(rows), Columns(rows)[j])
  {
    AppendNewOrder(FixedColumns, AllKeys(rows), i, j);
  }

  lemma AllKeysStep(rows: seq<Record>, i: nat)
    requires i < |rows|
    ensures AllKeys(rows[..i + 1]) == AllKeys(rows[..i]) + Keys(rows[i])
  {
    assert rows[..i + 1][..i] == rows[..i];
  }

  /** The inner loop of `uloz_do_csv`: the keys of one row not yet among the columns. */
  method AddColumns(columns: seq<string>, keys: seq<string>) returns (r: seq<string>)
    ensures r == AppendNew(columns, keys)
  {
    r := columns;
    for j := 0 to |keys|
      invariant r == AppendNew(columns, keys[..j])
    {
      var key := keys[j];
      AppendNewStep(columns, keys[..j], key);
      assert keys[..j] + [key] == keys[..j + 1];
      if key !in r {
        r := r + [key];
      }
    }
    assert keys[..|keys|] == keys;
  }

  /** The outer loop of `uloz_do_csv` that builds `sloupce`. */
  method CsvColumns(rows: seq<Record>) returns (columns: seq<string>)
    ensures columns == Columns(rows)
  {
    columns := FixedColumns;
    for i := 0 to |rows|
      invariant columns == AppendNew(FixedColumns, AllKeys(rows[..i]))
    {
      columns := AddColumns(columns, Keys(rows[i]));
      AllKeysStep(rows, i);
      AppendNewConcat(FixedColumns, AllKeys(rows[..i]), Keys(rows[i]));
    }
    assert rows[..|rows|] == rows;
  }
}

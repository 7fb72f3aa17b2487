/**
 * Numeric cleanup of table cells (`ocisti_cislo`) and the party-row filter
 * (`je_validni_radek`).
 *
 * Python's `int()` is modelled by its plain grammar: an optional `+` or `-`
 * followed by one or more ASCII digits.
 */
module Numbers {
  import opened Wrappers

  const NoBreakSpace: char := '\U{A0}'

  predicate IsDigit(c: char) {
    '0' <= c <= '9'
  }

  predicate AllDigits(s: string) {
    forall i | 0 <= i < |s| :: IsDigit(s[i])
  }

  /** The text `int()` accepts: an optional sign, then at least one digit. */
  predicate IsIntLiteral(s: string) {
    if s != [] && (s[0] == '+' || s[0] == '-') then s[1..] != [] && AllDigits(s[1..])
    else s != [] && AllDigits(s)
  }

  /** The value of a run of decimal digits, most significant first. */
  function DigitsValue(s: string): (n: nat)
    requires AllDigits(s)
  {
    if s == [] then 0
    else DigitsValue(s[..|s| - 1]) * 10 + (s[|s| - 1] as int - '0' as int)
  }

  /** `int(text)`; `None` is the `ValueError` `int()` raises. */
  function ParseInt(s: string): (r: Option<int>)
    ensures r.Some? <==> IsIntLiteral(s)
    ensures r.Some? && s[0] == '-' ==> r.value <= 0
    ensures r.Some? && s[0] != '-' ==> r.value >= 0
  {
    if s != [] && (s[0] == '+' || s[0] == '-') then
      if s[1..] != [] && AllDigits(s[1..]) then
        var v: int := if s[0] == '-' then -(DigitsValue(s[1..]) as int) else DigitsValue(s[1..]);
        Some(v)
      else None
    else if s != [] && AllDigits(s) then Some(DigitsValue(s))
    else None
  }

  /** The decimal digits of `n` with no leading zero: Python's `str(n)` for `n >= 0`. */
  function Decimal(n: nat): (s: string)
    ensures s != [] && AllDigits(s)
  {
    var d := [(('0' as int) + n % 10) as char];
    if n < 10 then d else Decimal(n / 10) + d
  }

  /** Python's `str(n)`. */
  function IntToString(n: int): (s: string)
    ensures s != []
  {
    if n < 0 then "-" + Decimal(-n) else Decimal(n)
  }

  /** `Decimal` and `DigitsValue` are inverse. */
  lemma {:induction false} DigitsValueOfDecimal(n: nat)
    ensures DigitsValue(Decimal(n)) == n
  {
    var s := Decimal(n);
    if n >= 10 {
      assert s[..|s| - 1] == Decimal(n / 10);
      DigitsValueOfDecimal(n / 10);
    }
  }

  /** `int(str(n)) == n` for every integer `n`. */
  lemma ParseIntOfString(n: int)
    ensures ParseInt(IntToString(n)) == Some(n)
  {
    if n < 0 {
      assert ("-" + Decimal(-n))[1..] == Decimal(-n);
      DigitsValueOfDecimal(-n);
    } else {
      DigitsValueOfDecimal(n);
    }
  }

  /** `text.replace('\xa0', '').replace(' ', '')`. */
  function DeleteSeparators(s: string): (r: string)
    ensures ' ' !in r && NoBreakSpace !in r
    ensures |r| <= |s|
    ensures ' ' !in s && NoBreakSpace !in s ==> r == s
  {
    if s == [] then []
    else if s[0] == ' ' || s[0] == NoBreakSpace then DeleteSeparators(s[1..])
    else [s[0]] + DeleteSeparators(s[1..])
  }

  lemma {:induction false} DeleteSeparatorsAppend(a: string, b: string)
    ensures DeleteSeparators(a + b) == DeleteSeparators(a) + DeleteSeparators(b)
  {
    if a == [] {
      assert a + b == b;
    } else {
      assert (a + b)[1..] == a[1..] + b;
      DeleteSeparatorsAppend(a[1..], b);
    }
  }

  /** `ocisti_cislo(text)`; `None` is the `ValueError` it lets through. */
  function CleanNumber(text: string): (r: Option<int>)
    ensures r.Some? <==> IsIntLiteral(DeleteSeparators(text))
  {
    ParseInt(DeleteSeparators(text))
  }

  /** A space or a no-break space anywhere in the text is ignored. */
  lemma IgnoresSeparator(a: string, sep: char, b: string)
    requires sep == ' ' || sep == NoBreakSpace
    ensures CleanNumber(a + [sep] + b) == CleanNumber(a + b)
  {
    assert [sep][1..] == [];
    assert DeleteSeparators([sep]) == [];
    DeleteSeparatorsAppend(a + [sep], b);
    DeleteSeparatorsAppend(a, [sep]);
    DeleteSeparatorsAppend(a, b);
    assert DeleteSeparators(a + [sep]) == DeleteSeparators(a);
    assert a + [sep] + b == (a + [sep]) + b;
  }

  /**
   * Whatever separators are spread through the digits of `str(n)`, the
   * cleanup recovers `n`.
   */
  lemma CleanNumberRecovers(text: string, n: int)
    requires DeleteSeparators(text) == IntToString(n)
    ensures CleanNumber(text) == Some(n)
  {
    ParseIntOfString(n);
  }

  /** A text with any character other than a digit, a sign, a space or a no-break space fails. */
  lemma {:induction false} CleanNumberRejects(text: string, i: nat)
    requires i < |text|
    requires !IsDigit(text[i]) && text[i] !in {'+', '-', ' ', NoBreakSpace}
    ensures CleanNumber(text) == None
  {
    DeleteSeparatorsAppend(text[..i], text[i..]);
    assert text == text[..i] + text[i..];
    assert text[i..] == [text[i]] + text[i + 1..];
    var d := DeleteSeparators(text);
    var k := |DeleteSeparators(text[..i])|;
    assert d[k] == text[i];
  }

  lemma Value1234()
    ensures ParseInt("1234") == Some(1234)
  {
    assert "1234"[..3] == "123" && "123"[..2] == "12" && "12"[..1] == "1" && "1"[..0] == "";
  }

  /** The examples documented for `ocisti_cislo`: a space or a no-break space as thousands separator. */
  lemma CleanNumberSeparatorExamples()
    ensures CleanNumber("1 234") == Some(1234)
    ensures CleanNumber("1\U{A0}234") == Some(1234)
  {
    IgnoresSeparator("1", ' ', "234");
    IgnoresSeparator("1", NoBreakSpace, "234");
    assert "1" + " " + "234" == "1 234";
    assert "1" + [NoBreakSpace] + "234" == "1\U{A0}234";
    assert "1" + "234" == "1234";
    assert DeleteSeparators("1234") == "1234";
    Value1234();
  }

  /** The third documented example, and the empty and sentinel texts, which fail. */
  lemma CleanNumberPlainExamples()
    ensures CleanNumber("5000") == Some(5000)
    ensures CleanNumber("") == None && CleanNumber("-") == None
  {
    assert DeleteSeparators("5000") == "5000";
    assert DeleteSeparators("-") == "-";
    assert "5000"[..3] == "500" && "500"[..2] == "50" && "50"[..1] == "5" && "5"[..0] == "";
    assert "-"[1..] == "";
  }

  /** `je_validni_radek(strana, hlasy_text)`. */
  predicate IsValidRow(party: string, votesText: string) {
    !(party == "-" || votesText == "-" || votesText == "")
  }

  /** The row filter rejects exactly the three sentinel cases, as documented. */
  lemma ValidRowExamples()
    ensures IsValidRow("Občanská demokratická strana", "153")
    ensures !IsValidRow("-", "45")
    ensures !IsValidRow("Strana zelených", "-")
    ensures !IsValidRow("Pirátská strana", "")
  {
  }

  /**
   * A vote text that parses always passes the filter's vote checks: of the
   * three rejections, only the `-` party name adds to what the parse refuses.
   */
  lemma ParsedVotesPassFilter(party: string, votesText: string)
    ensures CleanNumber(votesText).Some? && party != "-" ==> IsValidRow(party, votesText)
  {
    CleanNumberPlainExamples();
  }
}

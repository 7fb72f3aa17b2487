/**
 * String primitives the scraper relies on, written out the way Python's
 * `str` methods behave: `strip()`, `startswith`, the `in` substring test,
 * `lower()`, `replace(pat, "")`, `split(sep)[0]`, `split(sep)[1]` and
 * `split(sep)[-1]`.
 */
module Text {
  import opened Wrappers

  /** Python's `str.isspace()` character set (what `strip()` removes). */
  predicate IsSpace(c: char) {
    c == ' ' || c == '\t' || c == '\n' || c == '\r'
    || c == '\U{0B}' || c == '\U{0C}'
    || ('\U{1C}' <= c <= '\U{1F}')
    || c == '\U{85}' || c == '\U{A0}' || c == '\U{1680}'
    || ('\U{2000}' <= c <= '\U{200A}')
    || c == '\U{2028}' || c == '\U{2029}' || c == '\U{202F}'
    || c == '\U{205F}' || c == '\U{3000}'
  }

  /** `s.lstrip()`: drops the leading whitespace and nothing else. */
  function StripLeft(s: string): (r: string)
    ensures |r| <= |s| && r == s[|s| - |r|..]
    ensures forall i | 0 <= i < |s| - |r| :: IsSpace(s[i])
    ensures r == [] || !IsSpace(r[0])
  {
    if s != [] && IsSpace(s[0]) then
      var r := StripLeft(s[1..]);
      assert s[1..][|s| - 1 - |r|..] == s[|s| - |r|..];
      r
    else s
  }

  /** `s.rstrip()`: drops the trailing whitespace and nothing else. */
  function StripRight(s: string): (r: string)
    ensures |r| <= |s| && r == s[..|r|]
    ensures forall i | |r| <= i < |s| :: IsSpace(s[i])
    ensures r == [] || !IsSpace(r[|r| - 1])
  {
    if s != [] && IsSpace(s[|s| - 1]) then
      var r := StripRight(s[..|s| - 1]);
      assert s[..|s| - 1][..|r|] == s[..|r|];
      r
    else s
  }

  /** `s.strip()`: the text between the leading and the trailing whitespace. */
  function Strip(s: string): (r: string)
    ensures r == [] || (!IsSpace(r[0]) && !IsSpace(r[|r| - 1]))
  {
    StripRight(StripLeft(s))
  }

  /** What `strip()` keeps is one contiguous part of the text, and only whitespace is dropped. */
  lemma StripIsSlice(s: string)
    ensures exists i, j | 0 <= i <= j <= |s| ::
      && Strip(s) == s[i..j]
      && (forall k | 0 <= k < i :: IsSpace(s[k]))
      && (forall k | j <= k < |s| :: IsSpace(s[k]))
  {
    var l := StripLeft(s);
    var r := StripRight(l);
    var i := |s| - |l|;
    assert r == s[i..i + |r|];
    assert forall k | i + |r| <= k < |s| :: s[k] == l[k - i];
  }

  /** `s.startswith(p)`. */
  predicate StartsWith(s: string, p: string) {
    |p| <= |s| && s[..|p|] == p
  }

  /** `t` occurs in `s` starting at position `i`. */
  predicate OccursAt(s: string, t: string, i: int) {
    0 <= i && i + |t| <= |s| && s[i..i + |t|] == t
  }

  /** `t in s` for strings: `t` occurs in `s` as a contiguous block. */
  predicate Contains(s: string, t: string) {
    exists i | 0 <= i <= |s| - |t| :: OccursAt(s, t, i)
  }

  /** An occurrence in `s[1..]` is an occurrence in `s` one position later. */
  lemma OccursShift(s: string, t: string, i: int)
    requires s != [] && 0 <= i
    ensures OccursAt(s[1..], t, i) <==> OccursAt(s, t, i + 1)
  {
    if 0 <= i && i + 1 + |t| <= |s| {
      assert s[1..][i..i + |t|] == s[i + 1..i + 1 + |t|];
    }
  }

  /** An occurrence inside a prefix of `s` is an occurrence in `s`. */
  lemma OccursInPrefix(s: string, t: string, n: nat, i: int)
    requires n <= |s|
    ensures OccursAt(s[..n], t, i) <==> OccursAt(s, t, i) && i + |t| <= n
  {
    if 0 <= i && i + |t| <= n {
      assert s[..n][i..i + |t|] == s[i..i + |t|];
    }
  }

  /** One character of `s.lower()`: only ASCII capitals change. */
  function LowerChar(c: char): (r: char) {
    if 'A' <= c <= 'Z' then (c as int + 32) as char else c
  }

  /** `s.lower()`, restricted to ASCII case mapping. */
  function Lower(s: string): (r: string)
    ensures |r| == |s|
    ensures forall i | 0 <= i < |s| :: r[i] == LowerChar(s[i])
  {
    if s == [] then [] else [LowerChar(s[0])] + Lower(s[1..])
  }

  /**
   * `s.replace(pat, "")`: deletes the non-overlapping occurrences of `pat`
   * found scanning left to right (a deletion is not re-scanned).
   */
  function RemoveAll(s: string, pat: string): (r: string)
    requires pat != []
    ensures |r| <= |s|
    decreases |s|
  {
    if |s| < |pat| then s
    else if s[..|pat|] == pat then RemoveAll(s[|pat|..], pat)
    else [s[0]] + RemoveAll(s[1..], pat)
  }

  /** A text in which `pat` does not occur is left unchanged. */
  lemma {:induction false} RemoveAllAbsent(s: string, pat: string)
    requires pat != []
    ensures !Contains(s, pat) ==> RemoveAll(s, pat) == s
    decreases |s|
  {
    if !Contains(s, pat) && |s| >= |pat| {
      assert s[..|pat|] != pat by {
        if s[..|pat|] == pat {
          assert OccursAt(s, pat, 0);
        }
      }
      assert !Contains(s[1..], pat) by {
        if Contains(s[1..], pat) {
          var i :| 0 <= i <= |s| - 1 - |pat| && OccursAt(s[1..], pat, i);
          OccursShift(s, pat, i);
        }
      }
      RemoveAllAbsent(s[1..], pat);
      assert s == [s[0]] + s[1..];
    }
  }

  /** No occurrence among the first `n` positions of `s` means none among the first `n - 1` of `s[1..]`. */
  lemma NoOccurrenceShift(s: string, pat: string, n: nat)
    requires s != [] && forall i | 0 <= i < n :: !OccursAt(s, pat, i)
    ensures forall i | 0 <= i < n - 1 :: !OccursAt(s[1..], pat, i)
  {
    forall i | 0 <= i < n - 1 ensures !OccursAt(s[1..], pat, i) {
      OccursShift(s, pat, i);
    }
  }

  /**
   * When the first occurrence of `pat` follows `a`, that occurrence is
   * deleted, `a` is kept as it is, and the scan goes on after it.
   */
  lemma {:induction false} RemoveAllSkips(a: string, pat: string, b: string)
    requires pat != []
    requires forall i | 0 <= i < |a| :: !OccursAt(a + pat + b, pat, i)
    ensures RemoveAll(a + pat + b, pat) == a + RemoveAll(b, pat)
    decreases |a|
  {
    var s := a + pat + b;
    if a == [] {
      assert s == pat + b;
      assert s[..|pat|] == pat && s[|pat|..] == b;
    } else {
      var s' := a[1..] + pat + b;
      assert s[1..] == s';
      assert !OccursAt(s, pat, 0);
      assert RemoveAll(s, pat) == [s[0]] + RemoveAll(s', pat);
      NoOccurrenceShift(s, pat, |a|);
      RemoveAllSkips(a[1..], pat, b);
      var rest := RemoveAll(b, pat);
      assert [a[0]] + (a[1..] + rest) == ([a[0]] + a[1..]) + rest;
      assert [a[0]] + a[1..] == a;
    }
  }

  /** Index of the first occurrence of `t` in `s`, if any. */
  function Find(s: string, t: string): (r: Option<nat>)
    ensures r.Some? <==> Contains(s, t)
    ensures r.Some? ==> OccursAt(s, t, r.value)
    ensures r.Some? ==> forall i | 0 <= i < r.value :: !OccursAt(s, t, i)
  {
    if StartsWith(s, t) then
      assert OccursAt(s, t, 0);
      Some(0)
    else if s == [] then
      None
    else
      var f := Find(s[1..], t);
      assert !OccursAt(s, t, 0);
      forall i | 0 <= i ensures OccursAt(s[1..], t, i) <==> OccursAt(s, t, i + 1) {
        OccursShift(s, t, i);
      }
      assert Contains(s, t) ==> Contains(s[1..], t) by {
        if Contains(s, t) {
          var i :| 0 <= i <= |s| - |t| && OccursAt(s, t, i);
          assert OccursAt(s[1..], t, i - 1);
        }
      }
      match f
      case None => None
      case Some(i) =>
        assert forall k | 0 <= k < i + 1 :: !OccursAt(s, t, k) by {
          forall k | 0 < k < i + 1 ensures !OccursAt(s, t, k) {
            OccursShift(s, t, k - 1);
          }
        }
        Some(i + 1)
  }

  /** Nothing before the first occurrence of `sep` contains `sep`. */
  lemma NoEarlierOccurrence(s: string, sep: string, i: nat)
    requires sep != [] && i <= |s|
    requires forall k | 0 <= k < i :: !OccursAt(s, sep, k)
    ensures !Contains(s[..i], sep)
  {
    if Contains(s[..i], sep) {
      var k :| 0 <= k <= i - |sep| && OccursAt(s[..i], sep, k);
      OccursInPrefix(s, sep, i, k);
    }
  }

  /** Deleting from the first occurrence on: the text before it is kept and the occurrence is dropped. */
  lemma RemoveAllFirst(a: string, pat: string, b: string)
    requires pat != []
    ensures Find(a + pat + b, pat) == Some(|a|) ==> RemoveAll(a + pat + b, pat) == a + RemoveAll(b, pat)
  {
    if Find(a + pat + b, pat) == Some(|a|) {
      RemoveAllSkips(a, pat, b);
    }
  }

  /** `s.split(sep)[0]`: the text before the first `sep` (all of `s` if none). */
  function BeforeFirst(s: string, sep: string): (r: string)
    requires sep != []
    ensures StartsWith(s, r) && !Contains(r, sep)
    ensures !Contains(s, sep) ==> r == s
    ensures Contains(s, sep) ==> StartsWith(s[|r|..], sep)
  {
    match Find(s, sep)
    case None => s
    case Some(i) =>
      NoEarlierOccurrence(s, sep, i);
      assert s[i..][..|sep|] == s[i..i + |sep|];
      s[..i]
  }

  /**
   * `s.split(sep)[1]`: the text between the first and the second `sep`
   * (to the end when there is no second one); `None` is the `IndexError`
   * Python raises when `sep` does not occur at all.
   */
  function SecondField(s: string, sep: string): (r: Option<string>)
    requires sep != []
    ensures r.Some? <==> Contains(s, sep)
    ensures r.Some? ==> exists i | 0 <= i <= |s| - |sep| ::
      && OccursAt(s, sep, i) && !Contains(s[..i], sep)
      && r.value == BeforeFirst(s[i + |sep|..], sep)
  {
    match Find(s, sep)
    case None => None
    case Some(i) =>
      NoEarlierOccurrence(s, sep, i);
      Some(BeforeFirst(s[i + |sep|..], sep))
  }

  /** The first field, when the first occurrence of `sep` is at `i`. */
  lemma FirstFieldAt(s: string, sep: string, i: nat)
    requires sep != [] && Find(s, sep) == Some(i)
    ensures BeforeFirst(s, sep) == s[..i]
  {
  }

  /** The second field, when the first occurrence of `sep` is at `i`. */
  lemma SecondFieldAt(s: string, sep: string, i: nat)
    requires sep != [] && Find(s, sep) == Some(i)
    ensures SecondField(s, sep) == Some(BeforeFirst(s[i + |sep|..], sep))
  {
  }

  /** `split(sep)[0]` ends at the first occurrence of `sep`: no occurrence starts inside it. */
  lemma BeforeFirstEndsAtFirst(s: string, sep: string)
    requires sep != []
    ensures Contains(s, sep) ==> Find(s, sep) == Some(|BeforeFirst(s, sep)|)
    ensures forall k | 0 <= k < |BeforeFirst(s, sep)| :: !OccursAt(s, sep, k)
  {
    var f := Find(s, sep);
    if f.Some? {
      FirstFieldAt(s, sep, f.value);
    }
  }

  /** `split(sep)[1]` starts right after the first occurrence of `sep`, where `split(sep)[0]` ends. */
  lemma SecondFieldAfterFirst(s: string, sep: string)
    requires sep != []
    ensures SecondField(s, sep).Some? ==>
      SecondField(s, sep).value == BeforeFirst(s[|BeforeFirst(s, sep)|..][|sep|..], sep)
  {
    var f := Find(s, sep);
    if f.Some? {
      var i := f.value;
      FirstFieldAt(s, sep, i);
      SecondFieldAt(s, sep, i);
      assert s[|BeforeFirst(s, sep)|..][|sep|..] == s[i + |sep|..];
    }
  }

  /** `s.split(sep)[-1]` for a one-character separator: the text after the last `sep`. */
  function AfterLast(s: string, sep: char): (r: string)
    ensures |r| <= |s| && r == s[|s| - |r|..]
    ensures sep !in r
    ensures |r| < |s| ==> s[|s| - |r| - 1] == sep
  {
    if s == [] then []
    else if s[|s| - 1] == sep then []
    else AfterLast(s[..|s| - 1], sep) + [s[|s| - 1]]
  }

  /** No element occurs twice. */
  predicate Distinct<T(==)>(s: seq<T>) {
    forall i, j | 0 <= i < j < |s| :: s[i] != s[j]
  }
}

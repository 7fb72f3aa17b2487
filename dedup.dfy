/**
 * First-seen-order de-duplication: `for x in xs: if x not in acc:
 * acc.append(x)`. The scraper does this twice: for municipality links (keyed
 * on the full URL) and for the CSV header (keyed on the column name).
 */
module Dedup {
  import opened Text

  /** `acc` extended by every element of `xs` not already present, in the order first seen. */
  function AppendNew<T(==)>(acc: seq<T>, xs: seq<T>): (r: seq<T>)
    decreases |xs|
  {
    if xs == [] then acc
    else
      var p := AppendNew(acc, xs[..|xs| - 1]);
      var x := xs[|xs| - 1];
      if x in p then p else p + [x]
  }

  /** The scan keeps `acc` as it is and adds only elements missing from it. */
  lemma {:induction false} AppendNewExtends<T(!new)>(acc: seq<T>, xs: seq<T>)
    ensures |acc| <= |AppendNew(acc, xs)| && AppendNew(acc, xs)[..|acc|] == acc
    ensures forall k | |acc| <= k < |AppendNew(acc, xs)| :: AppendNew(acc, xs)[k] !in acc
    decreases |xs|
  {
    if xs != [] {
      var p := AppendNew(acc, xs[..|xs| - 1]);
      AppendNewExtends(acc, xs[..|xs| - 1]);
      assert (p + [xs[|xs| - 1]])[..|acc|] == p[..|acc|];
    }
  }

  /** The result holds exactly the elements of `acc` and of `xs`. */
  lemma {:induction false} AppendNewMembers<T(!new)>(acc: seq<T>, xs: seq<T>)
    ensures forall x :: x in AppendNew(acc, xs) <==> x in acc || x in xs
    decreases |xs|
  {
    if xs != [] {
      var init := xs[..|xs| - 1];
      AppendNewMembers(acc, init);
      assert xs == init + [xs[|xs| - 1]];
    }
  }

  /** No element is added twice. */
  lemma {:induction false} AppendNewDistinct<T(!new)>(acc: seq<T>, xs: seq<T>)
    requires Distinct(acc)
    ensures Distinct(AppendNew(acc, xs))
    decreases |xs|
  {
    if xs != [] {
      AppendNewDistinct(acc, xs[..|xs| - 1]);
    }
  }

  /** Adding one more element to `xs` is one more step of the loop. */
  lemma AppendNewStep<T(!new)>(acc: seq<T>, xs: seq<T>, x: T)
    ensures AppendNew(acc, xs + [x])
         == if x in AppendNew(acc, xs) then AppendNew(acc, xs) else AppendNew(acc, xs) + [x]
  {
    assert (xs + [x])[..|xs|] == xs;
  }

  /** Scanning `xs` and then `ys` is scanning `xs + ys`. */
  lemma {:induction false} AppendNewConcat<T(!new)>(acc: seq<T>, xs: seq<T>, ys: seq<T>)
    ensures AppendNew(acc, xs + ys) == AppendNew(AppendNew(acc, xs), ys)
    decreases |ys|
  {
    if ys == [] {
      assert xs + ys == xs;
    } else {
      var init := ys[..|ys| - 1];
      var y := ys[|ys| - 1];
      assert xs + ys == (xs + init) + [y];
      AppendNewConcat(acc, xs, init);
      AppendNewStep(acc, xs + init, y);
    }
  }

  /** The position of the first occurrence of `x` in `s`. */
  function IndexOf<T(==)>(s: seq<T>, x: T): (i: nat)
    requires x in s
    ensures i < |s| && s[i] == x
    ensures forall j | 0 <= j < i :: s[j] != x
  {
    if s[0] == x then 0 else 1 + IndexOf(s[1..], x)
  }

  lemma {:induction false} IndexOfPrefix<T>(s: seq<T>, n: nat, x: T)
    requires n <= |s| && x in s[..n]
    ensures IndexOf(s, x) == IndexOf(s[..n], x)
  {
    if s[0] != x {
      assert s[..n][0] == s[0];
      assert s[..n][1..] == s[1..][..n - 1];
      IndexOfPrefix(s[1..], n - 1, x);
    }
  }

  /**
   * The elements `AppendNew` adds appear in the order of their first
   * occurrence in `xs`.
   */
  lemma {:induction false} AppendNewOrder<T(!new)>(acc: seq<T>, xs: seq<T>, i: nat, j: nat)
    requires |acc| <= i < j < |AppendNew(acc, xs)|
    ensures AppendNew(acc, xs)[i] in xs && AppendNew(acc, xs)[j] in xs
    ensures IndexOf(xs, AppendNew(acc, xs)[i]) < IndexOf(xs, AppendNew(acc, xs)[j])
    decreases |xs|
  {
    var r := AppendNew(acc, xs);
    AppendNewExtends(acc, xs);
    AppendNewMembers(acc, xs);
    assert r[i] in r && r[j] in r;
    if xs != [] {
      var init := xs[..|xs| - 1];
      var p := AppendNew(acc, init);
      var x := xs[|xs| - 1];
      assert xs == init + [x];
      AppendNewExtends(acc, init);
      AppendNewMembers(acc, init);
      if j < |p| {
        assert r[i] == p[i] && r[j] == p[j];
        AppendNewOrder(acc, init, i, j);
        assert p[i] in p && p[j] in p;
        IndexOfPrefix(xs, |xs| - 1, p[i]);
        IndexOfPrefix(xs, |xs| - 1, p[j]);
      } else {
        assert x !in p && r == p + [x] && j == |p|;
        assert r[i] == p[i] && p[i] in p;
        assert p[i] in init;
        IndexOfPrefix(xs, |xs| - 1, p[i]);
        assert x !in init;
        assert IndexOf(xs, x) == |xs| - 1;
      }
    }
  }
}

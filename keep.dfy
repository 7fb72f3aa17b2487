/**
 * Filtering a list through a partial conversion: each element either
 * yields one value or is dropped, and the values keep the list's order.
 * This is the shape of a loop that converts each row and skips the rows
 * it cannot convert.
 */
module Keep {
  import opened Wrappers

  function OptionToSeq<T>(o: Option<T>): (r: seq<T>) {
    match o
    case None => []
    case Some(x) => [x]
  }

  /** The values `f` yields on `xs`, in order. */
  function KeepSome<R, T>(f: R -> Option<T>, xs: seq<R>): (r: seq<T>)
    decreases |xs|
  {
    if xs == [] then []
    else KeepSome(f, xs[..|xs| - 1]) + OptionToSeq(f(xs[|xs| - 1]))
  }

  /** Consecutive runs contribute their values one after the other. */
  lemma {:induction false} KeepSomeAppend<R, T>(f: R -> Option<T>, a: seq<R>, b: seq<R>)
    ensures KeepSome(f, a + b) == KeepSome(f, a) + KeepSome(f, b)
    decreases |b|
  {
    if b == [] {
      assert a + b == a;
    } else {
      var b' := b[..|b| - 1];
      assert (a + b)[..|a + b| - 1] == a + b';
      KeepSomeAppend(f, a, b');
    }
  }

  lemma KeepSomeStep<R, T>(f: R -> Option<T>, xs: seq<R>, j: nat)
    requires j < |xs|
    ensures KeepSome(f, xs[..j + 1]) == KeepSome(f, xs[..j]) + OptionToSeq(f(xs[j]))
  {
    assert xs[..j + 1][..j] == xs[..j];
  }

  /** An element that yields nothing is dropped on its own: the other elements are unaffected. */
  lemma KeepSomeDropped<R, T>(f: R -> Option<T>, a: seq<R>, x: R, b: seq<R>)
    requires f(x).None?
    ensures KeepSome(f, a + [x] + b) == KeepSome(f, a + b)
  {
    assert [x][..0] == [];
    assert KeepSome(f, [x]) == [];
    KeepSomeAppend(f, a, [x]);
    KeepSomeAppend(f, a + [x], b);
    KeepSomeAppend(f, a, b);
  }

  /** The k-th value is what `f` yields on some element. */
  lemma {:induction false} KeepSomeFrom<R, T>(f: R -> Option<T>, xs: seq<R>, k: nat)
    ensures k < |KeepSome(f, xs)| ==> exists i | 0 <= i < |xs| :: f(xs[i]) == Some(KeepSome(f, xs)[k])
    decreases |xs|
  {
    if xs != [] && k < |KeepSome(f, xs)| {
      var init := xs[..|xs| - 1];
      if k < |KeepSome(f, init)| {
        KeepSomeFrom(f, init, k);
        var i :| 0 <= i < |init| && f(init[i]) == Some(KeepSome(f, init)[k]);
        assert init[i] == xs[i];
      } else {
        assert KeepSome(f, xs)[k] == f(xs[|xs| - 1]).value;
      }
    }
  }

  /** When every element yields a value, the i-th value is the i-th element's. */
  lemma {:induction false} KeepSomeAll<R, T>(f: R -> Option<T>, xs: seq<R>)
    requires forall i | 0 <= i < |xs| :: f(xs[i]).Some?
    ensures |KeepSome(f, xs)| == |xs|
    ensures forall i | 0 <= i < |xs| :: KeepSome(f, xs)[i] == f(xs[i]).value
    decreases |xs|
  {
    if xs != [] {
      var init := xs[..|xs| - 1];
      assert forall i | 0 <= i < |init| :: init[i] == xs[i];
      KeepSomeAll(f, init);
      var last := f(xs[|xs| - 1]).value;
      assert KeepSome(f, xs) == KeepSome(f, init) + [last];
      forall i | 0 <= i < |xs| ensures KeepSome(f, xs)[i] == f(xs[i]).value {
        if i < |init| {
          assert init[i] == xs[i];
        }
      }
    }
  }
}

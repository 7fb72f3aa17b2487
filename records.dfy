/**
 * A result row (`radek`) is a Python `dict`: a key assigned for the first
 * time goes to the end, and re-assigning a key replaces its value where it
 * stands. The row is modelled as its item list, in insertion order.
 */
module Records {
  import opened Wrappers
  import opened Text

  /** A cell of a result row: the municipality code and name are text, the figures are numbers. */
  datatype Value = Text(text: string) | Number(number: int)

  type Record = seq<(string, Value)>

  function Keys(d: Record): (ks: seq<string>)
    ensures |ks| == |d|
    ensures forall i | 0 <= i < |d| :: ks[i] == d[i].0
  {
    if d == [] then [] else [d[0].0] + Keys(d[1..])
  }

  /** `d[k]`, or `None` when `k` is not a key. */
  function Lookup(d: Record, k: string): (r: Option<Value>)
    ensures r.None? <==> k !in Keys(d)
  {
    if d == [] then None
    else if d[0].0 == k then Some(d[0].1)
    else Lookup(d[1..], k)
  }

  /** In a row whose keys are distinct, each item is what its key looks up. */
  lemma {:induction false} LookupDistinct(d: Record, i: nat)
    requires i < |d| && Distinct(Keys(d))
    ensures Lookup(d, d[i].0) == Some(d[i].1)
  {
    if i > 0 {
      assert Keys(d)[0] != Keys(d)[i];
      assert Keys(d[1..]) == Keys(d)[1..];
      LookupDistinct(d[1..], i - 1);
    }
  }

  /** `d[k] = v`. */
  function Put(d: Record, k: string, v: Value): (r: Record) {
    if d == [] then [(k, v)]
    else if d[0].0 == k then [(k, v)] + d[1..]
    else [d[0]] + Put(d[1..], k, v)
  }

  /** A new key is appended; an existing one keeps its place. */
  lemma {:induction false} PutKeys(d: Record, k: string, v: Value)
    ensures Keys(Put(d, k, v)) == if k in Keys(d) then Keys(d) else Keys(d) + [k]
  {
    if d != [] && d[0].0 != k {
      var rest := Put(d[1..], k, v);
      PutKeys(d[1..], k, v);
      assert ([d[0]] + rest)[1..] == rest;
      assert Keys(d) == [d[0].0] + Keys(d[1..]);
    } else if d != [] {
      assert ([(k, v)] + d[1..])[1..] == d[1..];
    }
  }

  /** Key `k` now holds `v`; every other key keeps its value. */
  lemma {:induction false} PutLookup(d: Record, k: string, v: Value, k': string)
    ensures Lookup(Put(d, k, v), k') == if k' == k then Some(v) else Lookup(d, k')
  {
    if d != [] && d[0].0 != k {
      var rest := Put(d[1..], k, v);
      PutLookup(d[1..], k, v, k');
      assert ([d[0]] + rest)[1..] == rest;
    } else if d != [] {
      assert ([(k, v)] + d[1..])[1..] == d[1..];
    }
  }
}

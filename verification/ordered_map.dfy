/**
  A `BTreeMap<String, V>` seen as the list of its entries in ascending key
  order, which is also the order in which iterating it visits them.
*/
module OrderedMap {
  import opened StringOrder

  /** Every key of `xs` sorts strictly after `lo`. */
  predicate Above<V>(lo: string, xs: seq<(string, V)>) {
    forall i :: 0 <= i < |xs| ==> Less(lo, xs[i].0)
  }

  /** Keys strictly ascending: the first key is below every later one, and so on. */
  predicate Ascending<V>(xs: seq<(string, V)>)
    decreases |xs|
  {
    |xs| == 0 || (Above(xs[0].0, xs[1..]) && Ascending(xs[1..]))
  }

  /** The map the entries stand for. */
  function ToMap<V>(xs: seq<(string, V)>): map<string, V>
    decreases |xs|
  {
    if |xs| == 0 then map[] else ToMap(xs[1..])[xs[0].0 := xs[0].1]
  }

  lemma AboveWeaken<V>(lo: string, mid: string, xs: seq<(string, V)>)
    requires Less(lo, mid) && Above(mid, xs)
    ensures Above(lo, xs)
  {
    forall i | 0 <= i < |xs|
      ensures Less(lo, xs[i].0)
    {
      LessTransitive(lo, mid, xs[i].0);
    }
  }

  /** `BTreeMap::insert`: add `k`, or replace its value, keeping the order. */
  function Insert<V>(xs: seq<(string, V)>, k: string, v: V): (r: seq<(string, V)>)
    requires Ascending(xs)
    ensures Ascending(r)
    ensures ToMap(r) == ToMap(xs)[k := v]
    ensures forall lo :: Above(lo, xs) && Less(lo, k) ==> Above(lo, r)
    decreases |xs|
  {
    if |xs| == 0 then [(k, v)]
    else if k == xs[0].0 then [(k, v)] + xs[1..]
    else if Less(k, xs[0].0) then
      AboveWeaken(k, xs[0].0, xs[1..]);
      [(k, v)] + xs
    else
      LessTotal(k, xs[0].0);
      var tail := Insert(xs[1..], k, v);
      assert Above(xs[0].0, tail);
      assert ([xs[0]] + tail)[1..] == tail;
      assert forall lo :: Above(lo, xs) && Less(lo, k) ==> Less(lo, xs[0].0) && Above(lo, xs[1..]);
      [xs[0]] + tail
  }

  /** `BTreeMap::remove`: drop `k` if present, keeping the order. */
  function Remove<V>(xs: seq<(string, V)>, k: string): (r: seq<(string, V)>)
    requires Ascending(xs)
    ensures Ascending(r)
    ensures ToMap(r) == ToMap(xs) - {k}
    ensures forall lo :: Above(lo, xs) ==> Above(lo, r)
    decreases |xs|
  {
    if |xs| == 0 then []
    else if k == xs[0].0 then
      KeyNotAbove(xs[0].0, xs[1..]);
      assert ToMap(xs[1..]) - {k} == ToMap(xs[1..]);
      xs[1..]
    else
      var tail := Remove(xs[1..], k);
      assert ([xs[0]] + tail)[1..] == tail;
      assert forall lo :: Above(lo, xs) ==> Above(lo, xs[1..]);
      [xs[0]] + tail
  }

  /** A key no greater than every key of the list is not one of them. */
  lemma {:induction false} KeyNotAbove<V>(k: string, xs: seq<(string, V)>)
    requires Above(k, xs)
    ensures k !in ToMap(xs)
    decreases |xs|
  {
    if |xs| > 0 {
      LessIrreflexive(k);
      KeyNotAbove(k, xs[1..]);
    }
  }

  /** Sorted order between any two positions, not only between the head and the rest. */
  lemma {:induction false} AscendingStrict<V>(xs: seq<(string, V)>, i: nat, j: nat)
    requires Ascending(xs) && i < j < |xs|
    ensures Less(xs[i].0, xs[j].0)
    decreases |xs|
  {
    if i > 0 {
      AscendingStrict(xs[1..], i - 1, j - 1);
    }
  }

  /** Every entry of a sorted list is what its map holds for that key. */
  lemma {:induction false} ToMapAt<V>(xs: seq<(string, V)>, i: nat)
    requires Ascending(xs) && i < |xs|
    ensures xs[i].0 in ToMap(xs) && ToMap(xs)[xs[i].0] == xs[i].1
    decreases |xs|
  {
    if i > 0 {
      ToMapAt(xs[1..], i - 1);
      assert Less(xs[0].0, xs[i].0);
      LessIrreflexive(xs[i].0);
    }
  }

  /** Every key of the map is the key of some entry. */
  lemma {:induction false} ToMapKey<V>(xs: seq<(string, V)>, k: string) returns (i: nat)
    requires k in ToMap(xs)
    ensures i < |xs| && xs[i].0 == k
    decreases |xs|
  {
    if xs[0].0 == k {
      i := 0;
    } else {
      var j := ToMapKey(xs[1..], k);
      i := j + 1;
    }
  }
}

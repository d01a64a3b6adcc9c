/** Python's insertion-ordered `dict` with string keys, written out as a
    sequence of (key, value) pairs. Assigning to a key that is present
    replaces its value where it stands; a new key goes at the end. */
module OrderedDict {
  import opened Wrappers

  type Assoc<V> = seq<(string, V)>

  /** The keys in insertion order (Python's `d.keys()`). */
  function Keys<V>(a: Assoc<V>): (ks: seq<string>)
    ensures |ks| == |a| && forall i :: 0 <= i < |a| ==> ks[i] == a[i].0
  {
    seq(|a|, i requires 0 <= i < |a| => a[i].0)
  }

  ghost predicate UniqueKeys<V>(a: Assoc<V>)
  {
    forall i, j :: 0 <= i < j < |a| ==> a[i].0 != a[j].0
  }

  /** The position of key `k`, the first one when keys repeat. */
  function IndexOf<V>(a: Assoc<V>, k: string): (r: Option<nat>)
    ensures r.None? <==> k !in Keys(a)
    ensures r.Some? ==> r.value < |a| && a[r.value].0 == k
    ensures r.Some? ==> forall j :: 0 <= j < r.value ==> a[j].0 != k
  {
    if a == [] then None
    else if a[0].0 == k then Some(0)
    else
      assert Keys(a) == [a[0].0] + Keys(a[1..]);
      match IndexOf(a[1..], k)
      case None => None
      case Some(i) => Some(i + 1)
  }

  /** Python's `d.get(k)`. */
  function Lookup<V>(a: Assoc<V>, k: string): Option<V>
  {
    match IndexOf(a, k)
    case None => None
    case Some(i) => Some(a[i].1)
  }

  /** Python's `d[k] = v`. */
  function Put<V>(a: Assoc<V>, k: string, v: V): (r: Assoc<V>)
    ensures k in Keys(a) ==> Keys(r) == Keys(a)
    ensures k !in Keys(a) ==> Keys(r) == Keys(a) + [k]
    ensures Lookup(r, k) == Some(v)
    ensures forall k' :: k' != k ==> Lookup(r, k') == Lookup(a, k')
    ensures UniqueKeys(a) ==> UniqueKeys(r)
  {
    match IndexOf(a, k)
    case Some(i) =>
      var r := a[i := (k, v)];
      assert Keys(r) == Keys(a);
      SameKeysSameIndex(a, r);
      r
    case None =>
      var r := a + [(k, v)];
      assert Keys(r) == Keys(a) + [k];
      forall k' | k' != k ensures Lookup(r, k') == Lookup(a, k') {
        IndexOfPrefix(a, [(k, v)], k');
      }
      IndexOfPrefix(a, [(k, v)], k);
      r
  }

  /** The position of a key depends on the keys alone. */
  lemma {:induction false} SameKeysSameIndex<V, W>(a: Assoc<V>, b: Assoc<W>)
    requires Keys(a) == Keys(b)
    ensures forall k :: IndexOf(a, k) == IndexOf(b, k)
  {
    if a != [] {
      assert a[0].0 == Keys(a)[0] == Keys(b)[0] == b[0].0;
      assert Keys(a[1..]) == Keys(a)[1..] == Keys(b)[1..] == Keys(b[1..]);
      SameKeysSameIndex(a[1..], b[1..]);
    }
  }

  /** Appending entries does not move a key already present, and a key
      absent from the front is looked up in the appended part. */
  lemma {:induction false} IndexOfPrefix<V>(a: Assoc<V>, b: Assoc<V>, k: string)
    ensures k in Keys(a) ==> IndexOf(a + b, k) == IndexOf(a, k)
    ensures k !in Keys(a) && k in Keys(b) ==>
      IndexOf(a + b, k) == Some(|a| + IndexOf(b, k).value)
    ensures k !in Keys(a) && k !in Keys(b) ==> IndexOf(a + b, k).None?
  {
    if a == [] {
      assert a + b == b;
    } else {
      var ab := a + b;
      assert ab[0] == a[0];
      assert ab[1..] == a[1..] + b;
      assert Keys(a) == [a[0].0] + Keys(a[1..]);
      IndexOfPrefix(a[1..], b, k);
      if a[0].0 != k {
        assert IndexOf(ab, k) == match IndexOf(a[1..] + b, k)
          case None => None case Some(i) => Some(i + 1);
      }
    }
  }

}

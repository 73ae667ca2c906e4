/** A JavaScript `Map` as the core uses it: key-value pairs, each key once, in the order the
    keys were first set. `Balance` keeps one from commodity to quantity, `Account.balance`
    builds one from commodity to amount. */
module OrderedMaps {
  import opened Wrappers

  /** Each key is held once. */
  predicate Distinct<K(==), V>(m: seq<(K, V)>) {
    forall i, j :: 0 <= i < j < |m| ==> m[i].0 != m[j].0
  }

  /** Where the key is held. */
  function IndexOf<K(==), V>(m: seq<(K, V)>, k: K): (r: Option<nat>)
    ensures r.Some? ==> r.value < |m| && m[r.value].0 == k
    ensures r.Some? ==> forall j :: 0 <= j < r.value ==> m[j].0 != k
    ensures r.None? <==> forall j :: 0 <= j < |m| ==> m[j].0 != k
  {
    if m == [] then None
    else if m[0].0 == k then Some(0)
    else match IndexOf(m[1..], k)
      case None => None
      case Some(i) => Some(i + 1)
  }

  /** `map.get(k) ?? otherwise` */
  function Get<K(==), V>(m: seq<(K, V)>, k: K, otherwise: V): V {
    match IndexOf(m, k)
    case None => otherwise
    case Some(i) => m[i].1
  }

  /** `map.set(k, v)`: a key already present keeps its place, a new one goes last. */
  function Set<K(==), V>(m: seq<(K, V)>, k: K, v: V): seq<(K, V)> {
    match IndexOf(m, k)
    case None => m + [(k, v)]
    case Some(i) => m[i := (k, v)]
  }

  /** The keys, in order. */
  function Keys<K, V>(m: seq<(K, V)>): (ks: seq<K>)
    ensures |ks| == |m| && forall i :: 0 <= i < |m| ==> ks[i] == m[i].0
  {
    seq(|m|, i requires 0 <= i < |m| => m[i].0)
  }

  /** Setting a key changes what that key reads and nothing else. */
  lemma SetGet<K, V>(m: seq<(K, V)>, k: K, v: V, d: K, otherwise: V)
    ensures Get(Set(m, k, v), d, otherwise) == if d == k then v else Get(m, d, otherwise)
  {
    match IndexOf(m, k)
    case None =>
      IndexOfAppend(m, (k, v), d);
    case Some(i) =>
      IndexOfSameKeys(m, Set(m, k, v), d);
  }

  /** Setting keeps every key once, and adds the key set to the keys held. */
  lemma SetKeys<K, V>(m: seq<(K, V)>, k: K, v: V)
    requires Distinct(m)
    ensures Distinct(Set(m, k, v))
    ensures forall d :: IndexOf(Set(m, k, v), d).Some? <==> IndexOf(m, d).Some? || d == k
  {
    var r := Set(m, k, v);
    forall d
      ensures IndexOf(r, d).Some? <==> IndexOf(m, d).Some? || d == k
    {
      if IndexOf(m, k).None? {
        IndexOfAppend(m, (k, v), d);
      } else {
        IndexOfSameKeys(m, r, d);
      }
    }
  }

  /** Setting a key that is held keeps the order of the keys. */
  lemma SetKeepsKeys<K, V>(m: seq<(K, V)>, k: K, v: V)
    requires IndexOf(m, k).Some?
    ensures Keys(Set(m, k, v)) == Keys(m)
  {
  }

  lemma {:induction false} IndexOfSameKeys<K, V>(m: seq<(K, V)>, n: seq<(K, V)>, d: K)
    requires |m| == |n| && forall i :: 0 <= i < |m| ==> m[i].0 == n[i].0
    ensures IndexOf(m, d) == IndexOf(n, d)
  {
    if m != [] && m[0].0 != d {
      IndexOfSameKeys(m[1..], n[1..], d);
    }
  }

  lemma {:induction false} IndexOfAppend<K, V>(m: seq<(K, V)>, p: (K, V), d: K)
    requires IndexOf(m, p.0).None?
    ensures IndexOf(m + [p], d) == if d == p.0 then Some(|m|) else IndexOf(m, d)
  {
    if m != [] {
      assert (m + [p])[1..] == m[1..] + [p];
      if m[0].0 != d {
        IndexOfAppend(m[1..], p, d);
      }
    }
  }
}

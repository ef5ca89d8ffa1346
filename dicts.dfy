/**
 * Python's `dict` with string keys: a sequence of entries in insertion order.
 * Assigning to a present key replaces its value in place; assigning to an
 * absent key appends an entry; `del` removes the entry and keeps the order of
 * the rest. A Python dict holds each key once (`Distinct`).
 */
module Dicts {

  type Dict<V> = seq<(string, V)>

  /** The keys in iteration order. */
  function Keys<V>(d: Dict<V>): (ks: seq<string>)
    ensures |ks| == |d|
    ensures forall i :: 0 <= i < |d| ==> ks[i] == d[i].0
  {
    if d == [] then [] else [d[0].0] + Keys(d[1..])
  }

  ghost predicate Distinct<V>(d: Dict<V>)
  {
    forall i, j :: 0 <= i < j < |d| ==> d[i].0 != d[j].0
  }

  /** Position of the entry for `k`. */
  function IndexOf<V>(d: Dict<V>, k: string): (i: nat)
    requires k in Keys(d)
    ensures i < |d| && d[i].0 == k
    ensures forall j :: 0 <= j < i ==> d[j].0 != k
  {
    if d[0].0 == k then 0 else 1 + IndexOf(d[1..], k)
  }

  lemma IndexOfUnique<V>(d: Dict<V>, k: string, i: nat)
    requires i < |d| && d[i].0 == k
    requires forall j :: 0 <= j < i ==> d[j].0 != k
    ensures k in Keys(d) && IndexOf(d, k) == i
  {
    assert Keys(d)[i] == k;
  }

  lemma SameKeysSameIndex<V>(a: Dict<V>, b: Dict<V>, k: string)
    requires Keys(a) == Keys(b) && k in Keys(a)
    ensures IndexOf(a, k) == IndexOf(b, k)
  {
    var i := IndexOf(a, k);
    assert Keys(b)[i] == k;
    IndexOfUnique(b, k, i);
  }

  /** `d[k]` */
  function Get<V>(d: Dict<V>, k: string): (v: V)
    requires k in Keys(d)
  {
    d[IndexOf(d, k)].1
  }

  /** `d[k] = v` */
  function Set<V>(d: Dict<V>, k: string, v: V): (r: Dict<V>)
    ensures Keys(r) == if k in Keys(d) then Keys(d) else Keys(d) + [k]
    ensures k in Keys(r) && Get(r, k) == v
    ensures forall j :: j in Keys(d) && j != k ==> j in Keys(r) && Get(r, j) == Get(d, j)
    ensures Distinct(d) ==> Distinct(r)
  {
    if k in Keys(d) then
      var r := d[IndexOf(d, k) := (k, v)];
      SetPresent(d, k, v, r);
      r
    else
      var r := d + [(k, v)];
      SetAbsent(d, k, v, r);
      r
  }

  /** Assigning to a present key rewrites its entry where it stands; to an absent key, appends one. */
  lemma SetInPlace<V>(d: Dict<V>, k: string, v: V)
    ensures k in Keys(d) ==> Set(d, k, v) == d[IndexOf(d, k) := (k, v)]
    ensures k !in Keys(d) ==> Set(d, k, v) == d + [(k, v)]
  {
  }

  /** `del` cuts out the key's entry and keeps the order of the rest. */
  lemma DelInPlace<V>(d: Dict<V>, k: string)
    requires k in Keys(d)
    ensures Del(d, k) == d[..IndexOf(d, k)] + d[IndexOf(d, k) + 1..]
  {
  }

  lemma SetPresent<V>(d: Dict<V>, k: string, v: V, r: Dict<V>)
    requires k in Keys(d) && r == d[IndexOf(d, k) := (k, v)]
    ensures Keys(r) == Keys(d)
    ensures k in Keys(r) && Get(r, k) == v
    ensures forall j :: j in Keys(d) && j != k ==> j in Keys(r) && Get(r, j) == Get(d, j)
    ensures Distinct(d) ==> Distinct(r)
  {
    assert Keys(r) == Keys(d);
    SameKeysSameIndex(d, r, k);
    forall j | j in Keys(d) && j != k
      ensures j in Keys(r) && Get(r, j) == Get(d, j)
    {
      SameKeysSameIndex(d, r, j);
    }
  }

  lemma SetAbsent<V>(d: Dict<V>, k: string, v: V, r: Dict<V>)
    requires k !in Keys(d) && r == d + [(k, v)]
    ensures Keys(r) == Keys(d) + [k]
    ensures k in Keys(r) && Get(r, k) == v
    ensures forall j :: j in Keys(d) && j != k ==> j in Keys(r) && Get(r, j) == Get(d, j)
    ensures Distinct(d) ==> Distinct(r)
  {
    assert Keys(r) == Keys(d) + [k];
    IndexOfUnique(r, k, |d|);
    forall j | j in Keys(d) && j != k
      ensures j in Keys(r) && Get(r, j) == Get(d, j)
    {
      var i := IndexOf(d, j);
      assert r[i] == d[i];
      IndexOfUnique(r, j, i);
    }
    AppendDistinct(d, k, v, r);
  }

  lemma AppendDistinct<V>(d: Dict<V>, k: string, v: V, r: Dict<V>)
    requires k !in Keys(d) && r == d + [(k, v)]
    ensures Distinct(d) ==> Distinct(r)
  {
    if Distinct(d) {
      forall i, j | 0 <= i < j < |r| ensures r[i].0 != r[j].0 {
        if j == |d| {
          assert Keys(d)[i] == r[i].0;
        } else {
          assert r[i] == d[i] && r[j] == d[j];
        }
      }
    }
  }

  /** `del d[k]`; Python raises KeyError when `k` is absent, and every caller here checks first. */
  function Del<V>(d: Dict<V>, k: string): (r: Dict<V>)
    requires k in Keys(d)
    ensures forall j :: j != k ==> (j in Keys(r) <==> j in Keys(d))
    ensures forall j :: j in Keys(d) && j != k ==> Get(r, j) == Get(d, j)
    ensures Distinct(d) ==> Distinct(r) && k !in Keys(r)
  {
    var i := IndexOf(d, k);
    var r := d[..i] + d[i + 1..];
    DelKeys(d, k, i, r);
    DelGet(d, k, i, r);
    DelDistinct(d, k, i, r);
    r
  }

  /** Entries of `d` with the one at `i` cut out. */
  lemma CutAt<V>(d: Dict<V>, i: nat, r: Dict<V>)
    requires i < |d| && r == d[..i] + d[i + 1..]
    ensures |r| == |d| - 1
    ensures forall p :: 0 <= p < i ==> r[p] == d[p]
    ensures forall p :: i <= p < |r| ==> r[p] == d[p + 1]
  {
  }

  lemma DelKeys<V>(d: Dict<V>, k: string, i: nat, r: Dict<V>)
    requires k in Keys(d) && i == IndexOf(d, k) && r == d[..i] + d[i + 1..]
    ensures forall j :: j != k ==> (j in Keys(r) <==> j in Keys(d))
  {
    CutAt(d, i, r);
    forall j | j != k
      ensures j in Keys(r) <==> j in Keys(d)
    {
      if j in Keys(d) {
        CutKeeps(d, i, r, j);
      }
      if j in Keys(r) {
        CutAdds(d, i, r, j);
      }
    }
  }

  lemma KeyAt<V>(d: Dict<V>, p: nat)
    requires p < |d|
    ensures d[p].0 in Keys(d)
  {
    assert Keys(d)[p] == d[p].0;
  }

  lemma CutKeeps<V>(d: Dict<V>, i: nat, r: Dict<V>, j: string)
    requires i < |d| && |r| == |d| - 1
    requires forall p :: 0 <= p < i ==> r[p] == d[p]
    requires forall p :: i <= p < |r| ==> r[p] == d[p + 1]
    requires j in Keys(d) && j != d[i].0
    ensures j in Keys(r)
  {
    var p := IndexOf(d, j);
    if p < i {
      assert r[p] == d[p];
      KeyAt(r, p);
    } else {
      assert r[p - 1] == d[p];
      KeyAt(r, p - 1);
    }
  }

  lemma CutAdds<V>(d: Dict<V>, i: nat, r: Dict<V>, j: string)
    requires i < |d| && |r| == |d| - 1
    requires forall p :: 0 <= p < i ==> r[p] == d[p]
    requires forall p :: i <= p < |r| ==> r[p] == d[p + 1]
    requires j in Keys(r)
    ensures j in Keys(d)
  {
    var p := IndexOf(r, j);
    if p < i {
      assert r[p] == d[p];
      KeyAt(d, p);
    } else {
      assert r[p] == d[p + 1];
      KeyAt(d, p + 1);
    }
  }

  lemma DelGet<V>(d: Dict<V>, k: string, i: nat, r: Dict<V>)
    requires k in Keys(d) && i == IndexOf(d, k) && r == d[..i] + d[i + 1..]
    ensures forall j :: j in Keys(d) && j != k ==> j in Keys(r) && Get(r, j) == Get(d, j)
  {
    CutAt(d, i, r);
    forall j | j in Keys(d) && j != k
      ensures j in Keys(r) && Get(r, j) == Get(d, j)
    {
      CutGet(d, i, r, j);
    }
  }

  /** A key other than the cut one keeps its value once entry `i` is cut out. */
  lemma CutGet<V>(d: Dict<V>, i: nat, r: Dict<V>, a: string)
    requires i < |d| && |r| == |d| - 1
    requires forall q :: 0 <= q < i ==> r[q] == d[q]
    requires forall q :: i <= q < |r| ==> r[q] == d[q + 1]
    requires a in Keys(d) && a != d[i].0
    ensures a in Keys(r) && Get(r, a) == Get(d, a)
  {
    var p := CutIndex(d, i, r, a);
    assert r[p] == d[IndexOf(d, a)];
  }

  lemma DelDistinct<V>(d: Dict<V>, k: string, i: nat, r: Dict<V>)
    requires k in Keys(d) && i == IndexOf(d, k) && r == d[..i] + d[i + 1..]
    ensures Distinct(d) ==> Distinct(r) && k !in Keys(r)
  {
    CutAt(d, i, r);
    if Distinct(d) {
      CutDistinct(d, i, r);
    }
  }

  /** Cutting entry `i` out of a dict with distinct keys leaves distinct keys, none of them the cut one. */
  lemma CutDistinct<V>(d: Dict<V>, i: nat, r: Dict<V>)
    requires Distinct(d) && i < |d| && |r| == |d| - 1
    requires forall q :: 0 <= q < i ==> r[q] == d[q]
    requires forall q :: i <= q < |r| ==> r[q] == d[q + 1]
    ensures Distinct(r) && d[i].0 !in Keys(r)
  {
    forall p, q | 0 <= p < q < |r| ensures r[p].0 != r[q].0 {
      var p', q' := if p < i then p else p + 1, if q < i then q else q + 1;
      assert r[p] == d[p'] && r[q] == d[q'] && p' < q';
    }
    forall p | 0 <= p < |r| ensures Keys(r)[p] != d[i].0 {
      if p < i {
        assert r[p] == d[p];
      } else {
        assert r[p] == d[p + 1];
      }
    }
  }

  /** After `del d[k]` the remaining keys keep their relative order. */
  lemma DelKeepsOrder<V>(d: Dict<V>, k: string, a: string, b: string)
    requires Distinct(d) && k in Keys(d) && a in Keys(d) && b in Keys(d) && a != k && b != k
    ensures a in Keys(Del(d, k)) && b in Keys(Del(d, k))
    ensures IndexOf(d, a) < IndexOf(d, b) <==> IndexOf(Del(d, k), a) < IndexOf(Del(d, k), b)
  {
    DelInPlace(d, k);
    CutKeepsOrder(d, IndexOf(d, k), Del(d, k), a, b);
  }

  /** Cutting entry `i` out of a dict with distinct keys keeps the relative order of two other keys. */
  lemma CutKeepsOrder<V>(d: Dict<V>, i: nat, r: Dict<V>, a: string, b: string)
    requires Distinct(d) && i < |d| && r == d[..i] + d[i + 1..]
    requires a in Keys(d) && b in Keys(d) && a != d[i].0 && b != d[i].0
    ensures a in Keys(r) && b in Keys(r)
    ensures IndexOf(d, a) < IndexOf(d, b) <==> IndexOf(r, a) < IndexOf(r, b)
  {
    CutAt(d, i, r);
    var pa := CutIndex(d, i, r, a);
    var pb := CutIndex(d, i, r, b);
  }

  /** Where a key other than the cut one lands once entry `i` of a dict with distinct keys is cut out. */
  lemma CutIndex<V>(d: Dict<V>, i: nat, r: Dict<V>, a: string) returns (p: nat)
    requires i < |d| && |r| == |d| - 1
    requires forall q :: 0 <= q < i ==> r[q] == d[q]
    requires forall q :: i <= q < |r| ==> r[q] == d[q + 1]
    requires a in Keys(d) && a != d[i].0
    ensures a in Keys(r) && p == IndexOf(r, a)
    ensures p == if IndexOf(d, a) < i then IndexOf(d, a) else IndexOf(d, a) - 1
  {
    var pa := IndexOf(d, a);
    p := if pa < i then pa else pa - 1;
    assert r[p] == d[pa];
    forall j | 0 <= j < p
      ensures r[j].0 != a
    {
      if j < i {
        assert r[j] == d[j];
      } else {
        assert r[j] == d[j + 1];
      }
    }
    IndexOfUnique(r, a, p);
  }

  /** The dict as a map from key to value. */
  function ToMap<V>(d: Dict<V>): (m: map<string, V>)
    ensures forall k :: k in m <==> k in Keys(d)
    ensures forall k :: k in Keys(d) ==> m[k] == Get(d, k)
  {
    map k | k in Keys(d) :: Get(d, k)
  }
}

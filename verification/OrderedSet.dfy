/** std::set under the id ordering of participant.hpp: keys kept in strictly ascending order,
    found by their lower bound. Each key has a value beside it. */
module OrderedSet {

  ghost predicate Sorted(keys: seq<nat>) {
    forall i, j :: 0 <= i < j < |keys| ==> keys[i] < keys[j]
  }

  /** The position of the first key that is not less than k. */
  function LowerBound(keys: seq<nat>, k: nat): (p: nat)
    ensures p <= |keys|
    ensures forall i :: 0 <= i < p ==> keys[i] < k
    ensures p < |keys| ==> k <= keys[p]
  {
    if keys == [] || k <= keys[0] then 0 else 1 + LowerBound(keys[1..], k)
  }

  predicate Has(keys: seq<nat>, k: nat) {
    var p := LowerBound(keys, k);
    p < |keys| && keys[p] == k
  }

  function InsertAt<T>(s: seq<T>, p: nat, x: T): (t: seq<T>)
    requires p <= |s|
    ensures |t| == |s| + 1
  {
    s[..p] + [x] + s[p..]
  }

  function RemoveAt<T>(s: seq<T>, p: nat): (t: seq<T>)
    requires p < |s|
    ensures |t| == |s| - 1
  {
    s[..p] + s[p + 1..]
  }

  /** Any split of a sorted key sequence around k is the lower bound. */
  lemma LowerBoundIs(keys: seq<nat>, k: nat, p: nat)
    requires p <= |keys|
    requires forall i :: 0 <= i < p ==> keys[i] < k
    requires forall i :: p <= i < |keys| ==> k <= keys[i]
    ensures p == LowerBound(keys, k)
  {
    var q := LowerBound(keys, k);
    if p < |keys| {
      assert k <= keys[p];
    }
  }

  /** A binary search has narrowed the lower bound of k to lo..hi. */
  ghost predicate Bracket(keys: seq<nat>, k: nat, lo: nat, hi: nat) {
    && Sorted(keys) && lo <= hi <= |keys|
    && (forall i :: 0 <= i < lo ==> keys[i] < k)
    && (forall i :: hi <= i < |keys| ==> k <= keys[i])
  }

  lemma BracketNarrows(keys: seq<nat>, k: nat, lo: nat, hi: nat, mid: nat)
    requires Bracket(keys, k, lo, hi) && lo <= mid < hi
    ensures keys[mid] < k ==> Bracket(keys, k, mid + 1, hi)
    ensures k <= keys[mid] ==> Bracket(keys, k, lo, mid)
  {}

  lemma BracketCloses(keys: seq<nat>, k: nat, p: nat)
    requires Bracket(keys, k, p, p)
    ensures p == LowerBound(keys, k)
  {
    LowerBoundIs(keys, k, p);
  }

  /** The ordered search agrees with a linear scan. */
  lemma FindIsScan(keys: seq<nat>, k: nat)
    requires Sorted(keys)
    ensures Has(keys, k) <==> k in keys
  {
    var p := LowerBound(keys, k);
    if k in keys {
      var i :| 0 <= i < |keys| && keys[i] == k;
      assert i == p;
    }
  }

  lemma InsertKeepsSorted(keys: seq<nat>, k: nat)
    requires Sorted(keys) && k !in keys
    ensures Sorted(InsertAt(keys, LowerBound(keys, k), k))
  {
    var p := LowerBound(keys, k);
    assert forall i :: p <= i < |keys| ==> k < keys[i];
  }

  lemma RemoveKeepsSorted(keys: seq<nat>, p: nat)
    requires Sorted(keys) && p < |keys|
    ensures Sorted(RemoveAt(keys, p))
    ensures forall k :: k in RemoveAt(keys, p) <==> k in keys && k != keys[p]
  {
    var t := RemoveAt(keys, p);
    assert forall i :: 0 <= i < |t| ==> t[i] == keys[if i < p then i else i + 1];
    forall k | k in keys && k != keys[p]
      ensures k in t
    {
      var i :| 0 <= i < |keys| && keys[i] == k;
      assert t[if i < p then i else i - 1] == k;
    }
  }

  /** The map a sorted key sequence and the values beside it stand for. */
  ghost function AsMap<V>(keys: seq<nat>, vals: seq<V>): map<nat, V>
    requires |keys| == |vals| && Sorted(keys)
  {
    map k | k in keys :: vals[LowerBound(keys, k)]
  }

  lemma AsMapAt<V>(keys: seq<nat>, vals: seq<V>, i: nat)
    requires |keys| == |vals| && Sorted(keys) && i < |keys|
    ensures keys[i] in AsMap(keys, vals) && AsMap(keys, vals)[keys[i]] == vals[i]
  {
    LowerBoundIs(keys, keys[i], i);
  }

  lemma AsMapIs<V>(keys: seq<nat>, vals: seq<V>, m: map<nat, V>)
    requires |keys| == |vals| && Sorted(keys)
    requires forall k :: k in m ==> k in keys
    requires forall i :: 0 <= i < |keys| ==> keys[i] in m && m[keys[i]] == vals[i]
    ensures AsMap(keys, vals) == m
  {
    forall k | k in keys
      ensures k in m && AsMap(keys, vals)[k] == m[k]
    {
      var i :| 0 <= i < |keys| && keys[i] == k;
      AsMapAt(keys, vals, i);
    }
  }

  /** Ordered insertion of a new key is the map update. */
  lemma InsertRefinesMap<V>(keys: seq<nat>, vals: seq<V>, k: nat, v: V)
    requires |keys| == |vals| && Sorted(keys) && k !in keys
    ensures var p := LowerBound(keys, k);
      && Sorted(InsertAt(keys, p, k))
      && AsMap(InsertAt(keys, p, k), InsertAt(vals, p, v)) == AsMap(keys, vals)[k := v]
  {
    var p := LowerBound(keys, k);
    InsertKeepsSorted(keys, k);
    var keys', vals' := InsertAt(keys, p, k), InsertAt(vals, p, v);
    var m := AsMap(keys, vals)[k := v];
    forall j | 0 <= j < |keys'|
      ensures keys'[j] in m && m[keys'[j]] == vals'[j]
    {
      if j != p {
        AsMapAt(keys, vals, if j < p then j else j - 1);
      }
    }
    forall x | x in m
      ensures x in keys'
    {
      InsertedKeys(keys, p, k, x);
    }
    AsMapIs(keys', vals', m);
  }

  lemma InsertedKeys<T>(keys: seq<T>, p: nat, k: T, x: T)
    requires p <= |keys|
    ensures x in InsertAt(keys, p, k) <==> x in keys || x == k
  {
    assert keys == keys[..p] + keys[p..];
  }

  lemma KeptPair<V>(keys: seq<nat>, vals: seq<V>, p: nat, j: nat)
    requires |keys| == |vals| && Sorted(keys) && p < |keys| && j < |keys| - 1
    ensures var k := RemoveAt(keys, p)[j];
      k != keys[p] && k in AsMap(keys, vals) && AsMap(keys, vals)[k] == RemoveAt(vals, p)[j]
  {
    AsMapAt(keys, vals, if j < p then j else j + 1);
  }

  /** Ordered erasure of a present key is the map removal. */
  lemma EraseRefinesMap<V>(keys: seq<nat>, vals: seq<V>, k: nat)
    requires |keys| == |vals| && Sorted(keys) && Has(keys, k)
    ensures var p := LowerBound(keys, k);
      && Sorted(RemoveAt(keys, p))
      && AsMap(RemoveAt(keys, p), RemoveAt(vals, p)) == AsMap(keys, vals) - {k}
  {
    var p := LowerBound(keys, k);
    RemoveKeepsSorted(keys, p);
    var keys', vals' := RemoveAt(keys, p), RemoveAt(vals, p);
    var m := AsMap(keys, vals) - {k};
    forall j | 0 <= j < |keys'|
      ensures keys'[j] in m && m[keys'[j]] == vals'[j]
    {
      KeptPair(keys, vals, p, j);
    }
    AsMapIs(keys', vals', m);
  }
}

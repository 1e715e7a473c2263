/**
 Counting into a dictionary, `d[k] = d.get(k, 0) + 1`: what the distributions of
 _aggregate_metrics (bot.py) and the groups of aggregate (scripts/latency_report.py) share.
 The dictionary's keys are listed in the order in which they first appear.
 */
module Tally {

  function Count(keys: seq<string>, k: string): nat {
    if keys == [] then 0 else Count(keys[..|keys| - 1], k) + (if keys[|keys| - 1] == k then 1 else 0)
  }

  /** The places of s at which p holds. */
  function Places<T>(s: seq<T>, p: T -> bool): set<nat> {
    set i: nat | i < |s| && p(s[i])
  }

  lemma PlacesOfOneMore<T>(s: seq<T>, p: T -> bool)
    requires s != []
    ensures |Places(s, p)| == |Places(s[..|s| - 1], p)| + (if p(s[|s| - 1]) then 1 else 0)
  {
    var n := |s| - 1;
    assert Places(s, p) == Places(s[..n], p) + (if p(s[n]) then {n} else {});
  }

  ghost predicate NoDuplicates(s: seq<string>) {
    forall i, j | 0 <= i < j < |s| :: s[i] != s[j]
  }

  /** The keys of the dictionary: those it starts with, then each new key as it appears. */
  function KeyOrder(init: seq<string>, keys: seq<string>): (r: seq<string>)
    ensures NoDuplicates(init) ==> NoDuplicates(r)
    ensures forall k :: k in r <==> k in init || k in keys
  {
    if keys == [] then init
    else
      var n := |keys| - 1;
      assert keys == keys[..n] + [keys[n]];
      var before := KeyOrder(init, keys[..n]);
      if keys[n] in before then before else before + [keys[n]]
  }

  function Total(labels: seq<string>, f: string -> int): int {
    if labels == [] then 0 else Total(labels[..|labels| - 1], f) + f(labels[|labels| - 1])
  }

  lemma {:induction false} TotalSame(labels: seq<string>, f: string -> int, g: string -> int)
    requires forall i | 0 <= i < |labels| :: f(labels[i]) == g(labels[i])
    ensures Total(labels, f) == Total(labels, g)
  {
    if labels != [] { TotalSame(labels[..|labels| - 1], f, g); }
  }

  /** Changing f at one label changes the total by as much. */
  lemma {:induction false} TotalChangesAt(labels: seq<string>, f: string -> int, g: string -> int, l: string)
    requires NoDuplicates(labels) && l in labels
    requires forall x | x in labels && x != l :: f(x) == g(x)
    ensures Total(labels, g) == Total(labels, f) + g(l) - f(l)
  {
    var n := |labels| - 1;
    if labels[n] == l {
      TotalSame(labels[..n], f, g);
    } else {
      assert labels == labels[..n] + [labels[n]];
      TotalChangesAt(labels[..n], f, g, l);
    }
  }

  lemma {:induction false} CountNotIn(keys: seq<string>, k: string)
    requires k !in keys
    ensures Count(keys, k) == 0
  {
    if keys != [] { CountNotIn(keys[..|keys| - 1], k); }
  }

  lemma {:induction false} TotalOfZeros(labels: seq<string>, f: string -> int)
    requires forall i | 0 <= i < |labels| :: f(labels[i]) == 0
    ensures Total(labels, f) == 0
  {
    if labels != [] { TotalOfZeros(labels[..|labels| - 1], f); }
  }

  /** The total over the key order moves from one weighting to another that adds d at the
      key just counted. */
  lemma TotalOfOneMore(init: seq<string>, keys: seq<string>, k: string, f: string -> int, g: string -> int, d: int)
    requires NoDuplicates(init)
    requires k !in KeyOrder(init, keys) ==> f(k) == 0
    requires g(k) == f(k) + d && forall x | x in KeyOrder(init, keys) && x != k :: f(x) == g(x)
    ensures Total(KeyOrder(init, keys + [k]), g) == Total(KeyOrder(init, keys), f) + d
  {
    assert (keys + [k])[..|keys|] == keys;
    var before := KeyOrder(init, keys);
    if k in before {
      TotalChangesAt(before, f, g, k);
    } else {
      assert (before + [k])[..|before|] == before;
      TotalSame(before, f, g);
    }
  }

  /** The counts of all keys add up to the number of things counted. */
  lemma {:induction false} CountsAddUp(init: seq<string>, keys: seq<string>)
    requires NoDuplicates(init)
    ensures Total(KeyOrder(init, keys), k => Count(keys, k)) == |keys|
  {
    var g := k => Count(keys, k);
    if keys == [] {
      TotalOfZeros(init, g);
    } else {
      var n := |keys| - 1;
      var f := k => Count(keys[..n], k);
      CountsAddUp(init, keys[..n]);
      assert keys == keys[..n] + [keys[n]];
      if keys[n] !in KeyOrder(init, keys[..n]) { CountNotIn(keys[..n], keys[n]); }
      TotalOfOneMore(init, keys[..n], keys[n], f, g, 1);
    }
  }

  /** The counting loop. */
  method CountInto(init: seq<string>, keys: seq<string>) returns (m: map<string, nat>)
    ensures forall k :: k in m <==> k in KeyOrder(init, keys)
    ensures forall k | k in m :: m[k] == Count(keys, k)
  {
    m := map k | k in init :: 0;
    for i := 0 to |keys|
      invariant forall k :: k in m <==> k in init || k in keys[..i]
      invariant forall k | k in m :: m[k] == Count(keys[..i], k)
    {
      var k := keys[i];
      assert keys[..i + 1] == keys[..i] + [k] && keys[..i + 1][..i] == keys[..i];
      if k !in m { CountNotIn(keys[..i], k); }
      m := m[k := (if k in m then m[k] else 0) + 1];
    }
    assert keys[..|keys|] == keys;
  }
}

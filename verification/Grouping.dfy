/** `groupByMap` of `src/lib/utils.ts`: a partition of a list that keeps the order of first occurrence. */
module Grouping {
  import opened Basics

  /** The entries whose key is `k`, in order. */
  function WithKey<K(==), V>(entries: seq<V>, key: V -> K, k: K): seq<V> {
    if entries == [] then []
    else (if key(entries[0]) == k then [entries[0]] else []) + WithKey(entries[1..], key, k)
  }

  lemma {:induction false} WithKeyConcat<K, V>(a: seq<V>, b: seq<V>, key: V -> K, k: K)
    ensures WithKey(a + b, key, k) == WithKey(a, key, k) + WithKey(b, key, k)
  {
    if a == [] {
      assert a + b == b;
    } else {
      assert (a + b)[0] == a[0] && (a + b)[1..] == a[1..] + b;
      WithKeyConcat(a[1..], b, key, k);
      var head := if key(a[0]) == k then [a[0]] else [];
      Associative(head, WithKey(a[1..], key, k), WithKey(b, key, k));
    }
  }

  lemma {:induction false} WithKeyMembers<K, V>(entries: seq<V>, key: V -> K, k: K)
    ensures forall v :: v in WithKey(entries, key, k) <==> v in entries && key(v) == k
    ensures (forall v :: v in entries ==> key(v) != k) ==> WithKey(entries, key, k) == []
  {
    if entries != [] {
      WithKeyMembers(entries[1..], key, k);
      assert entries == [entries[0]] + entries[1..];
    }
  }

  lemma {:induction false} WithKeyDistinct<K, V>(entries: seq<V>, key: V -> K, k: K)
    requires Distinct(entries)
    ensures Distinct(WithKey(entries, key, k))
  {
    if entries != [] {
      WithKeyDistinct(entries[1..], key, k);
      WithKeyMembers(entries[1..], key, k);
      var rest := WithKey(entries[1..], key, k);
      forall j | 0 <= j < |rest| ensures rest[j] != entries[0] {
        assert rest[j] in rest;
      }
    }
  }

  /** Whether some group has key `k`, searching from the front. */
  function Find<K(==), V>(groups: seq<(K, seq<V>)>, k: K): (at: nat)
    ensures at <= |groups|
    ensures at < |groups| ==> groups[at].0 == k
    ensures forall j :: 0 <= j < at ==> groups[j].0 != k
  {
    if groups == [] || groups[0].0 == k then 0 else 1 + Find(groups[1..], k)
  }

  predicate KeysDistinct<K(==), V>(groups: seq<(K, seq<V>)>) {
    forall i, j :: 0 <= i < j < |groups| ==> groups[i].0 != groups[j].0
  }

  /** What grouping promises: distinct keys, every key present, each group the entries of its key in order. */
  ghost predicate IsPartition<K(!new), V(!new)>(groups: seq<(K, seq<V>)>, entries: seq<V>, key: V -> K) {
    && KeysDistinct(groups)
    && (forall v :: v in entries ==> exists j :: 0 <= j < |groups| && groups[j].0 == key(v))
    && (forall j :: 0 <= j < |groups| ==> groups[j].1 == WithKey(entries, key, groups[j].0) && groups[j].1 != [])
  }

  /**
    The loop of `groupByMap` on an insertion-ordered map: look the key up, create its group when it is missing,
    and push the entry.
   */
  method GroupByMap<K(==, !new), V(!new)>(entries: seq<V>, key: V -> K) returns (groups: seq<(K, seq<V>)>)
    ensures IsPartition(groups, entries, key)
    ensures groups == Grouped(entries, key)
  {
    groups := [];
    for n := 0 to |entries|
      invariant IsPartition(groups, entries[..n], key)
      invariant groups == Grouped(entries[..n], key)
    {
      var entry := entries[n];
      var k := key(entry);
      var at := Find(groups, k);
      assert entries[..n + 1][..n] == entries[..n];
      PushKeepsPartition(groups, entries[..n], key, entry);
      assert entries[..n] + [entry] == entries[..n + 1];
      if at == |groups| {
        groups := groups + [(k, [entry])];
      } else {
        groups := groups[at := (k, groups[at].1 + [entry])];
      }
    }
    assert entries[..|entries|] == entries;
  }

  function Push<K(==), V>(groups: seq<(K, seq<V>)>, k: K, v: V): seq<(K, seq<V>)> {
    var at := Find(groups, k);
    if at == |groups| then groups + [(k, [v])] else groups[at := (k, groups[at].1 + [v])]
  }

  function Grouped<K(==), V>(entries: seq<V>, key: V -> K): seq<(K, seq<V>)> {
    if entries == [] then []
    else
      var last := entries[|entries| - 1];
      Push(Grouped(entries[..|entries| - 1], key), key(last), last)
  }

  lemma {:induction false} PushKeepsPartition<K(!new), V(!new)>(groups: seq<(K, seq<V>)>, entries: seq<V>, key: V -> K, v: V)
    requires IsPartition(groups, entries, key)
    ensures IsPartition(Push(groups, key(v), v), entries + [v], key)
  {
    var at := Find(groups, key(v));
    var next := Push(groups, key(v), v);
    forall k ensures WithKey(entries + [v], key, k) == WithKey(entries, key, k) + (if key(v) == k then [v] else []) {
      WithKeyConcat(entries, [v], key, k);
      assert [v][1..] == [];
    }
    forall w | w in entries + [v] ensures exists j :: 0 <= j < |next| && next[j].0 == key(w) {
      if w in entries {
        var j :| 0 <= j < |groups| && groups[j].0 == key(w);
        assert next[j].0 == key(w);
      } else {
        assert next[at].0 == key(w);
      }
    }
    if at == |groups| {
      NoGroupNoEntries(groups, entries, key, key(v));
    }
  }

  lemma NoGroupNoEntries<K(!new), V(!new)>(groups: seq<(K, seq<V>)>, entries: seq<V>, key: V -> K, k: K)
    requires IsPartition(groups, entries, key)
    requires forall j :: 0 <= j < |groups| ==> groups[j].0 != k
    ensures WithKey(entries, key, k) == []
  {
    WithKeyMembers(entries, key, k);
  }

  lemma {:induction false} GroupedIsPartition<K(!new), V(!new)>(entries: seq<V>, key: V -> K)
    ensures IsPartition(Grouped(entries, key), entries, key)
  {
    if entries != [] {
      var front, last := entries[..|entries| - 1], entries[|entries| - 1];
      GroupedIsPartition(front, key);
      PushKeepsPartition(Grouped(front, key), front, key, last);
      assert front + [last] == entries;
    }
  }
}

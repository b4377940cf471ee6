/** Vocabulary shared by the other modules: an option type and a few facts about sequences and sets. */
module Basics {

  datatype Option<+T> = None | Some(value: T) {
    function GetOr(default: T): T {
      if Some? then value else default
    }
  }

  /** The elements of `s` that satisfy `p`, in order. */
  function Filter<T>(s: seq<T>, p: T -> bool): seq<T> {
    if s == [] then []
    else (if p(s[0]) then [s[0]] else []) + Filter(s[1..], p)
  }

  lemma Associative<T>(a: seq<T>, b: seq<T>, c: seq<T>)
    ensures (a + b) + c == a + (b + c)
  {
  }

  lemma SameMiddle<T>(before: seq<T>, a: seq<T>, b: seq<T>, after: seq<T>)
    requires before + a + after == before + b + after
    ensures a == b
  {
    var whole := before + a + after;
    assert |a| == |b|;
    assert a == whole[|before|..|before| + |a|] && b == whole[|before|..|before| + |b|];
  }

  /** What a filter keeps, it keeps in place: nothing else, nothing less, and in order. */
  lemma {:induction false} FilterKeeps<T>(s: seq<T>, p: T -> bool)
    ensures forall x :: x in Filter(s, p) <==> x in s && p(x)
    ensures (forall x :: x in s ==> p(x)) ==> Filter(s, p) == s
    ensures forall n :: 0 <= n <= |s| ==> Filter(s, p) == Filter(s[..n], p) + Filter(s[n..], p)
  {
    if s != [] {
      FilterKeeps(s[1..], p);
      assert s == [s[0]] + s[1..];
      forall n | 0 < n <= |s| ensures Filter(s, p) == Filter(s[..n], p) + Filter(s[n..], p) {
        assert s[..n][0] == s[0] && s[..n][1..] == s[1..][..n - 1] && s[n..] == s[1..][n - 1..];
        Associative(if p(s[0]) then [s[0]] else [], Filter(s[1..][..n - 1], p), Filter(s[n..], p));
      }
      assert s[..0] == [] && s[0..] == s;
    } else {
      assert s[..0] == [] && s[0..] == s;
    }
  }

  predicate Distinct<T(==)>(s: seq<T>) {
    forall i, j :: 0 <= i < j < |s| ==> s[i] != s[j]
  }

  function Flatten<T>(ss: seq<seq<T>>): seq<T> {
    if ss == [] then [] else ss[0] + Flatten(ss[1..])
  }

  lemma {:induction false} FlattenConcat<T>(a: seq<seq<T>>, b: seq<seq<T>>)
    ensures Flatten(a + b) == Flatten(a) + Flatten(b)
  {
    if a == [] {
      assert a + b == b;
    } else {
      assert (a + b)[0] == a[0] && (a + b)[1..] == a[1..] + b;
      FlattenConcat(a[1..], b);
      Associative(a[0], Flatten(a[1..]), Flatten(b));
    }
  }

  lemma Pick<T>(s: set<T>) returns (x: T)
    requires s != {}
    ensures x in s
  {
    x :| x in s;
  }

  lemma SubsetIsNotLarger<T>(small: set<T>, large: set<T>)
    requires small <= large
    ensures |small| <= |large|
  {
    assert large == small + (large - small);
  }

  /** A non-empty finite set of integers has a greatest element. */
  lemma {:induction false} MaxExists(s: set<int>)
    requires s != {}
    ensures exists m :: m in s && forall x :: x in s ==> x <= m
    decreases |s|
  {
    var y := Pick(s);
    if s == {y} {
      assert forall x :: x in s ==> x <= y;
    } else {
      var rest := s - {y};
      MaxExists(rest);
      var m :| m in rest && forall x :: x in rest ==> x <= m;
      var top := if m < y then y else m;
      assert s == rest + {y};
      assert top in s && forall x :: x in s ==> x <= top;
    }
  }

  lemma Predecessor(s: set<nat>, x: nat)
    requires forall y: nat :: y + 1 in s ==> y in s
    requires x + 1 in s
    ensures x in s
  {
  }

  /** A set of naturals closed under predecessor is an initial segment of the naturals. */
  lemma {:induction false} DownClosedIsInitialSegment(s: set<nat>)
    requires forall x: nat :: x + 1 in s ==> x in s
    ensures forall x: nat :: x in s <==> x < |s|
    decreases |s|
  {
    if s != {} {
      MaxExists(s);
      var m: nat :| m in s && forall x :: x in s ==> x <= m;
      var rest := s - {m};
      forall x: nat | x + 1 in rest ensures x in rest {
        Predecessor(s, x);
        assert x + 1 <= m;
      }
      DownClosedIsInitialSegment(rest);
      assert s == rest + {m} && |s| == |rest| + 1;
      assert m !in rest;
      if m > 0 {
        var below: nat := m - 1;
        Predecessor(s, below);
        assert below in rest;
      }
      assert m in rest <==> m < |rest|;
      assert m == |rest|;
    }
  }
}

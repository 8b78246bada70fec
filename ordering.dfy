/**
 * Sorted listings of id sets. The database returns rows ordered by primary
 * key; these functions produce that order from the set of keys.
 */
module Ordering {

  predicate Ascending(s: seq<int>)
  {
    forall i, j :: 0 <= i < j < |s| ==> s[i] < s[j]
  }

  predicate Descending(s: seq<int>)
  {
    forall i, j :: 0 <= i < j < |s| ==> s[i] > s[j]
  }

  /** A non-empty set has a member to pick. */
  lemma NonEmptyHasMember(s: set<int>)
    requires s != {}
    ensures exists y :: y in s
  {
    if forall y :: y !in s {
      assert false;
    }
  }

  lemma {:induction false} HasLeast(s: set<int>)
    requires s != {}
    ensures exists m :: m in s && forall x :: x in s ==> m <= x
    decreases |s|
  {
    NonEmptyHasMember(s);
    var y :| y in s;
    if s != {y} {
      HasLeast(s - {y});
      var m :| m in s - {y} && forall x :: x in s - {y} ==> m <= x;
      var least := if y < m then y else m;
      forall x | x in s ensures least <= x {
        if x != y { assert x in s - {y}; }
      }
    } else {
      assert forall x :: x in s ==> y <= x;
    }
  }

  lemma {:induction false} HasGreatest(s: set<int>)
    requires s != {}
    ensures exists m :: m in s && forall x :: x in s ==> x <= m
    decreases |s|
  {
    NonEmptyHasMember(s);
    var y :| y in s;
    if s != {y} {
      HasGreatest(s - {y});
      var m :| m in s - {y} && forall x :: x in s - {y} ==> x <= m;
      var greatest := if y > m then y else m;
      forall x | x in s ensures x <= greatest {
        if x != y { assert x in s - {y}; }
      }
    } else {
      assert forall x :: x in s ==> x <= y;
    }
  }

  function Least(s: set<int>): (m: int)
    requires s != {}
    ensures m in s && forall x :: x in s ==> m <= x
  {
    HasLeast(s);
    var m :| m in s && forall x :: x in s ==> m <= x; m
  }

  function Greatest(s: set<int>): (m: int)
    requires s != {}
    ensures m in s && forall x :: x in s ==> x <= m
  {
    HasGreatest(s);
    var m :| m in s && forall x :: x in s ==> x <= m; m
  }

  /** The ids of `s` in increasing order (ORDER BY id ASC). */
  function AscendingIds(s: set<int>): (r: seq<int>)
    ensures Ascending(r)
    ensures |r| == |s|
    ensures forall x :: x in r <==> x in s
    decreases |s|
  {
    if s == {} then [] else
      var m := Least(s);
      [m] + AscendingIds(s - {m})
  }

  /** The ids of `s` in decreasing order (ORDER BY id DESC). */
  function DescendingIds(s: set<int>): (r: seq<int>)
    ensures Descending(r)
    ensures |r| == |s|
    ensures forall x :: x in r <==> x in s
    decreases |s|
  {
    if s == {} then [] else
      var m := Greatest(s);
      [m] + DescendingIds(s - {m})
  }

  /** The least element is determined by being a member below all others. */
  lemma LeastIs(s: set<int>, m: int)
    requires m in s && forall x :: x in s ==> m <= x
    ensures Least(s) == m
  {
  }

  /** Removing the head of an increasing listing of `s` lists `s` without its least element. */
  lemma {:induction false} TailLists(r: seq<int>, s: set<int>)
    requires Ascending(r) && r != []
    requires forall x :: x in r <==> x in s
    ensures Ascending(r[1..])
    ensures forall x :: x in r[1..] <==> x in s - {r[0]}
    ensures forall x :: x in s ==> r[0] <= x
  {
    forall x | x in s ensures r[0] <= x {
      assert x in r;
      var k :| 0 <= k < |r| && r[k] == x;
      assert k == 0 || r[0] < r[k];
    }
    forall x ensures x in r[1..] <==> x in s - {r[0]} {
      if x in r[1..] {
        var k :| 0 <= k < |r[1..]| && r[1..][k] == x;
        assert r[k + 1] == x && r[0] < r[k + 1];
      }
      if x in s - {r[0]} {
        assert x in r;
        var k :| 0 <= k < |r| && r[k] == x;
        assert r[1..][k - 1] == x;
      }
    }
  }

  /** An increasing listing of `s` starts with the first id `AscendingIds` picks, and its tail lists the rest. */
  lemma AscendingHead(r: seq<int>, s: set<int>)
    requires Ascending(r) && r != []
    requires forall x :: x in r <==> x in s
    ensures s != {} && AscendingIds(s) == [r[0]] + AscendingIds(s - {r[0]})
    ensures Ascending(r[1..]) && forall x :: x in r[1..] <==> x in s - {r[0]}
  {
    assert r[0] in r;
    TailLists(r, s);
    LeastIs(s, r[0]);
  }

  /** An increasing listing of a set is unique. */
  lemma {:induction false} AscendingIdsUnique(r: seq<int>, s: set<int>)
    requires Ascending(r)
    requires forall x :: x in r <==> x in s
    ensures AscendingIds(s) == r
    decreases |r|
  {
    if r == [] {
      if s != {} {
        NonEmptyHasMember(s);
        assert false;
      }
    } else {
      var m, rest := r[0], r[1..];
      AscendingHead(r, s);
      AscendingIdsUnique(rest, s - {m});
      assert r == [m] + rest;
    }
  }

  /** The consecutive ids first, first + 1, ..., first + n - 1. */
  function Range(first: int, n: nat): (r: seq<int>)
    ensures |r| == n && forall k :: 0 <= k < n ==> r[k] == first + k
  {
    seq(n, k requires 0 <= k < n => first + k)
  }

  /** Listing a block of consecutive ids in increasing order gives them in insertion order. */
  lemma {:induction false} AscendingIdsOfRange(s: set<int>, first: int, n: nat)
    requires forall x :: x in s <==> first <= x < first + n
    ensures AscendingIds(s) == Range(first, n)
  {
    var r := Range(first, n);
    forall x ensures x in r <==> x in s {
      if x in s {
        assert r[x - first] == x;
      }
    }
    AscendingIdsUnique(r, s);
  }

  /** In a decreasing listing, exactly `i` members of the set are larger than the `i`-th element. */
  lemma {:induction false} DescendingRank(r: seq<int>, s: set<int>, i: nat)
    requires Descending(r)
    requires forall x :: x in r <==> x in s
    requires i < |r|
    ensures (set x | x in s && x > r[i]) == set k | 0 <= k < i :: r[k]
    ensures |set k | 0 <= k < i :: r[k]| == i
  {
    var above := set x | x in s && x > r[i];
    var prefix := set k | 0 <= k < i :: r[k];
    forall x | x in above ensures x in prefix {
      var k :| 0 <= k < |r| && r[k] == x;
      assert k < i;
    }
    DistinctPrefixSize(r, i);
  }

  lemma {:induction false} DistinctPrefixSize(r: seq<int>, i: nat)
    requires Descending(r)
    requires i <= |r|
    ensures |set k | 0 <= k < i :: r[k]| == i
  {
    if i > 0 {
      DistinctPrefixSize(r, i - 1);
      var smaller := set k | 0 <= k < i - 1 :: r[k];
      assert (set k | 0 <= k < i :: r[k]) == smaller + {r[i - 1]};
      assert r[i - 1] !in smaller;
    }
  }
}

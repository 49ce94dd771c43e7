/**
 * The documented meaning of a Room query `SELECT * FROM <table> ORDER BY <stamp> DESC`
 * over a table whose rows are kept in a map from primary key to row: every row once,
 * newest stamp first, rows with equal stamps in no particular order.
 */
module Listing {

  /** Every row of `m` is stored under its own primary key. */
  ghost predicate KeyedBy<K, T>(m: map<K, T>, idOf: T -> K) {
    forall k :: k in m ==> idOf(m[k]) == k
  }

  /** `s` is ordered by `stamp`, newest (largest) first; ties are unordered. */
  ghost predicate NonIncreasing<T>(s: seq<T>, stamp: T -> int) {
    forall i, j :: 0 <= i < j < |s| ==> stamp(s[i]) >= stamp(s[j])
  }

  /** No two rows of `s` share a primary key. */
  ghost predicate DistinctIds<K, T>(s: seq<T>, idOf: T -> K) {
    forall i, j :: 0 <= i < j < |s| ==> idOf(s[i]) != idOf(s[j])
  }

  /** `r` is a possible result of the DESC query over the table `m`. */
  ghost predicate IsListing<K, T>(r: seq<T>, m: map<K, T>, idOf: T -> K, stamp: T -> int) {
    && |r| == |m|
    && (forall i :: 0 <= i < |r| ==> idOf(r[i]) in m && m[idOf(r[i])] == r[i])
    && (forall k :: k in m ==> m[k] in r)
    && DistinctIds(r, idOf)
    && NonIncreasing(r, stamp)
  }

  /** The position at which `x` joins the newest-first sequence `s`: after every strictly newer row. */
  function InsertionPoint<T>(s: seq<T>, x: T, stamp: T -> int): (p: nat)
    requires NonIncreasing(s, stamp)
    ensures p <= |s|
    ensures forall i :: 0 <= i < p ==> stamp(s[i]) > stamp(x)
    ensures forall i :: p <= i < |s| ==> stamp(s[i]) <= stamp(x)
  {
    if s == [] || stamp(s[0]) <= stamp(x) then 0
    else 1 + InsertionPoint(s[1..], x, stamp)
  }

  /** `x` placed into the newest-first sequence `s` at its insertion point. */
  function InsertByStamp<T>(s: seq<T>, x: T, stamp: T -> int): (r: seq<T>)
    requires NonIncreasing(s, stamp)
    ensures |r| == |s| + 1
    ensures NonIncreasing(r, stamp)
    ensures exists p :: 0 <= p <= |s| && r == s[..p] + [x] + s[p..]
  {
    var p := InsertionPoint(s, x, stamp);
    var r := s[..p] + [x] + s[p..];
    assert forall i :: 0 <= i < |r| ==> r[i] == (if i < p then s[i] else if i == p then x else s[i - 1]);
    r
  }

  /** `r` lists exactly the rows of `m` whose keys are in `done`, newest first. */
  ghost predicate PartialListing<K, T>(r: seq<T>, m: map<K, T>, done: set<K>, idOf: T -> K, stamp: T -> int) {
    && done <= m.Keys
    && |r| == |done|
    && (forall i :: 0 <= i < |r| ==> idOf(r[i]) in done && m[idOf(r[i])] == r[i])
    && (forall k :: k in done ==> m[k] in r)
    && DistinctIds(r, idOf)
    && NonIncreasing(r, stamp)
  }

  /** Adding the row stored under a key not yet listed extends a partial listing by that key. */
  lemma PartialListingGrows<K, T>(r: seq<T>, m: map<K, T>, done: set<K>, k: K, idOf: T -> K, stamp: T -> int)
    requires KeyedBy(m, idOf)
    requires PartialListing(r, m, done, idOf, stamp)
    requires k in m && k !in done
    ensures PartialListing(InsertByStamp(r, m[k], stamp), m, done + {k}, idOf, stamp)
  {
    var x := m[k];
    var r' := InsertByStamp(r, x, stamp);
    var p :| 0 <= p <= |r| && r' == r[..p] + [x] + r[p..];
    SpliceAt(r, x, p);
    assert |done + {k}| == |done| + 1;
    RowsOfSplice(r, m, done, k, p, idOf);
    KeysOfSplice(r, m, done, k, p, idOf);
    DistinctSplice(r, m, done, k, p, idOf);
  }

  /** The elements of `s` with `x` spliced in at `p`. */
  lemma SpliceAt<T>(s: seq<T>, x: T, p: nat)
    requires p <= |s|
    ensures forall i :: 0 <= i < |s| + 1 ==>
      (s[..p] + [x] + s[p..])[i] == (if i < p then s[i] else if i == p then x else s[i - 1])
  {
  }

  lemma RowsOfSplice<K, T>(r: seq<T>, m: map<K, T>, done: set<K>, k: K, p: nat, idOf: T -> K)
    requires KeyedBy(m, idOf) && k in m && p <= |r| && done <= m.Keys
    requires forall i :: 0 <= i < |r| ==> idOf(r[i]) in done && m[idOf(r[i])] == r[i]
    ensures var r' := r[..p] + [m[k]] + r[p..];
      forall i :: 0 <= i < |r'| ==> idOf(r'[i]) in done + {k} && idOf(r'[i]) in m && m[idOf(r'[i])] == r'[i]
  {
    SpliceAt(r, m[k], p);
  }

  lemma KeysOfSplice<K, T>(r: seq<T>, m: map<K, T>, done: set<K>, k: K, p: nat, idOf: T -> K)
    requires k in m && p <= |r| && done <= m.Keys
    requires forall j :: j in done ==> m[j] in r
    ensures var r' := r[..p] + [m[k]] + r[p..];
      forall j :: j in done + {k} ==> m[j] in r'
  {
    var r' := r[..p] + [m[k]] + r[p..];
    SpliceAt(r, m[k], p);
    forall j | j in done + {k} ensures m[j] in r' {
      if j != k {
        var i :| 0 <= i < |r| && r[i] == m[j];
        assert r'[if i < p then i else i + 1] == m[j];
      } else {
        assert r'[p] == m[k];
      }
    }
  }

  lemma DistinctSplice<K, T>(r: seq<T>, m: map<K, T>, done: set<K>, k: K, p: nat, idOf: T -> K)
    requires KeyedBy(m, idOf) && k in m && k !in done && p <= |r|
    requires forall i :: 0 <= i < |r| ==> idOf(r[i]) in done
    requires DistinctIds(r, idOf)
    ensures DistinctIds(r[..p] + [m[k]] + r[p..], idOf)
  {
    SpliceAt(r, m[k], p);
  }

  /** Runs the DESC query: one possible listing of the table `m`. */
  method ListNewestFirst<K, T>(m: map<K, T>, idOf: T -> K, stamp: T -> int) returns (r: seq<T>)
    requires KeyedBy(m, idOf)
    ensures IsListing(r, m, idOf, stamp)
  {
    r := [];
    var done: set<K> := {};
    while done != m.Keys
      invariant PartialListing(r, m, done, idOf, stamp)
      decreases |m.Keys - done|
    {
      var k :| k in m.Keys - done;
      PartialListingGrows(r, m, done, k, idOf, stamp);
      assert m.Keys - (done + {k}) < m.Keys - done;
      r, done := InsertByStamp(r, m[k], stamp), done + {k};
    }
  }

  /** A row that occurs in a sequence of distinct rows occurs exactly once. */
  lemma {:induction false} DistinctOccursOnce<K, T>(s: seq<T>, idOf: T -> K, x: T)
    requires DistinctIds(s, idOf)
    ensures multiset(s)[x] == if x in s then 1 else 0
  {
    if s != [] {
      assert s == [s[0]] + s[1..];
      assert DistinctIds(s[1..], idOf) by {
        forall i, j | 0 <= i < j < |s[1..]| ensures idOf(s[1..][i]) != idOf(s[1..][j]) {
          assert s[1..][i] == s[i + 1] && s[1..][j] == s[j + 1];
        }
      }
      DistinctOccursOnce(s[1..], idOf, x);
      if x == s[0] {
        assert x !in s[1..] by {
          forall j | 0 <= j < |s[1..]| ensures s[1..][j] != x {
            assert s[1..][j] == s[j + 1];
          }
        }
      }
    }
  }

  /** Any two listings of the same table hold the same rows: they differ at most in the order of ties. */
  lemma ListingsArePermutations<K, T>(r1: seq<T>, r2: seq<T>, m: map<K, T>, idOf: T -> K, stamp: T -> int)
    requires IsListing(r1, m, idOf, stamp) && IsListing(r2, m, idOf, stamp)
    ensures multiset(r1) == multiset(r2)
  {
    forall x ensures multiset(r1)[x] == multiset(r2)[x] {
      DistinctOccursOnce(r1, idOf, x);
      DistinctOccursOnce(r2, idOf, x);
      if x in r1 {
        var i :| 0 <= i < |r1| && r1[i] == x;
        assert m[idOf(x)] == x;
      }
      if x in r2 {
        var i :| 0 <= i < |r2| && r2[i] == x;
        assert m[idOf(x)] == x;
      }
    }
  }

  /** The listing of a one-row table is that row. */
  lemma SingletonListing<K, T>(r: seq<T>, k: K, x: T, idOf: T -> K, stamp: T -> int)
    requires IsListing(r, map[k := x], idOf, stamp)
    ensures r == [x]
  {
    assert |map[k := x]| == 1;
    assert idOf(r[0]) in map[k := x];
  }

  /** `s` is ordered by `stamp` strictly newest first. */
  ghost predicate Decreasing<T>(s: seq<T>, stamp: T -> int) {
    forall i, j :: 0 <= i < j < |s| ==> stamp(s[i]) > stamp(s[j])
  }

  /** The head of a strictly newest-first sequence is newer than every other element. */
  lemma HeadIsNewest<T>(a: seq<T>, x: T, stamp: T -> int)
    requires Decreasing(a, stamp) && x in a
    ensures stamp(a[0]) >= stamp(x)
    ensures x != a[0] ==> stamp(a[0]) > stamp(x)
  {
    var j :| 0 <= j < |a| && a[j] == x;
  }

  /** Two strictly newest-first sequences with the same elements are equal. */
  lemma {:induction false} DecreasingDetermined<T>(a: seq<T>, b: seq<T>, stamp: T -> int)
    requires Decreasing(a, stamp) && Decreasing(b, stamp)
    requires forall x :: x in a <==> x in b
    ensures a == b
    decreases |a|
  {
    assert a != [] ==> a[0] in b;
    assert b != [] ==> b[0] in a;
    if a != [] && b != [] {
      HeadIsNewest(a, b[0], stamp);
      HeadIsNewest(b, a[0], stamp);
      assert a[0] == b[0];
      forall x ensures x in a[1..] <==> x in b[1..] {
        if x in a[1..] {
          var k :| 0 <= k < |a[1..]| && a[1..][k] == x;
          assert a[k + 1] == x && x in b;
          HeadIsNewest(b, x, stamp);
          var k' :| 0 <= k' < |b| && b[k'] == x;
          assert b[1..][k' - 1] == x;
        }
        if x in b[1..] {
          var k :| 0 <= k < |b[1..]| && b[1..][k] == x;
          assert b[k + 1] == x && x in a;
          HeadIsNewest(a, x, stamp);
          var k' :| 0 <= k' < |a| && a[k'] == x;
          assert a[1..][k' - 1] == x;
        }
      }
      DecreasingDetermined(a[1..], b[1..], stamp);
      assert a == [a[0]] + a[1..] && b == [b[0]] + b[1..];
    }
  }

  /** When no two rows share a stamp, the DESC query has exactly one result. */
  lemma ListingUniqueForDistinctStamps<K, T>(r1: seq<T>, r2: seq<T>, m: map<K, T>, idOf: T -> K, stamp: T -> int)
    requires IsListing(r1, m, idOf, stamp) && IsListing(r2, m, idOf, stamp)
    requires forall k1, k2 :: k1 in m && k2 in m && k1 != k2 ==> stamp(m[k1]) != stamp(m[k2])
    ensures r1 == r2
  {
    StrictWhenStampsDistinct(r1, m, idOf, stamp);
    StrictWhenStampsDistinct(r2, m, idOf, stamp);
    DecreasingDetermined(r1, r2, stamp);
  }

  lemma StrictWhenStampsDistinct<K, T>(r: seq<T>, m: map<K, T>, idOf: T -> K, stamp: T -> int)
    requires IsListing(r, m, idOf, stamp)
    requires forall k1, k2 :: k1 in m && k2 in m && k1 != k2 ==> stamp(m[k1]) != stamp(m[k2])
    ensures Decreasing(r, stamp)
    ensures forall x :: x in r <==> exists k :: k in m && m[k] == x
  {
    forall i, j | 0 <= i < j < |r| ensures stamp(r[i]) > stamp(r[j]) {
      assert m[idOf(r[i])] == r[i] && m[idOf(r[j])] == r[j];
    }
    forall x ensures x in r <==> exists k :: k in m && m[k] == x {
      if x in r {
        var i :| 0 <= i < |r| && r[i] == x;
        assert m[idOf(r[i])] == x;
      }
    }
  }
}

/**
 * The order of `getAllLinks` in lib/storage.ts: the records sorted by
 * `createdAt`, newest first, with JavaScript's stable `Array.prototype.sort`
 * (records created in the same millisecond keep their insertion order).
 */
module Ordering {
  import opened Links

  predicate NewestFirst(s: seq<LinkData>)
  {
    forall i, j :: 0 <= i < j < |s| ==> s[i].createdAt >= s[j].createdAt
  }

  /** Places `x` before the first record that is not newer than it. */
  function Insert(x: LinkData, s: seq<LinkData>): (r: seq<LinkData>)
    ensures multiset(r) == multiset(s) + multiset{x}
    ensures forall y :: y in r ==> y == x || y in s
  {
    if s == [] || s[0].createdAt <= x.createdAt then
      [x] + s
    else
      assert s == [s[0]] + s[1..];
      [s[0]] + Insert(x, s[1..])
  }

  lemma {:induction false} InsertNewestFirst(x: LinkData, s: seq<LinkData>)
    requires NewestFirst(s)
    ensures NewestFirst(Insert(x, s))
  {
    if s != [] && s[0].createdAt > x.createdAt {
      var rest := Insert(x, s[1..]);
      InsertNewestFirst(x, s[1..]);
      forall k | 0 <= k < |rest| ensures rest[k].createdAt <= s[0].createdAt {
        assert rest[k] in rest;
        if rest[k] != x {
          assert rest[k] in s[1..];
          var m :| 0 <= m < |s[1..]| && s[1..][m] == rest[k];
          assert s[m + 1] == rest[k];
        }
      }
      var r := [s[0]] + rest;
      forall i, j | 0 <= i < j < |r| ensures r[i].createdAt >= r[j].createdAt {
        if i > 0 {
          assert r[i] == rest[i - 1] && r[j] == rest[j - 1];
        }
      }
    }
  }

  /** A stable sort on `createdAt`, newest first. */
  function SortNewestFirst(s: seq<LinkData>): (r: seq<LinkData>)
    ensures multiset(r) == multiset(s)
    ensures NewestFirst(r)
  {
    if s == [] then [] else
      assert s == [s[0]] + s[1..];
      InsertNewestFirst(s[0], SortNewestFirst(s[1..]));
      Insert(s[0], SortNewestFirst(s[1..]))
  }

  /** The records of `s` created at time `t`, in their order in `s`. */
  function Ties(s: seq<LinkData>, t: nat): (r: seq<LinkData>)
    ensures forall x :: x in r ==> x in s && x.createdAt == t
  {
    if s == [] then []
    else if s[0].createdAt == t then [s[0]] + Ties(s[1..], t)
    else Ties(s[1..], t)
  }

  lemma {:induction false} InsertKeepsTies(x: LinkData, s: seq<LinkData>, t: nat)
    ensures Ties(Insert(x, s), t) == if x.createdAt == t then [x] + Ties(s, t) else Ties(s, t)
  {
    if s == [] || s[0].createdAt <= x.createdAt {
      assert Insert(x, s) == [x] + s;
      assert ([x] + s)[1..] == s;
    } else {
      var rest := Insert(x, s[1..]);
      assert Insert(x, s) == [s[0]] + rest;
      assert ([s[0]] + rest)[1..] == rest;
      InsertKeepsTies(x, s[1..], t);
    }
  }

  /**
   * Stability: among records with the same `createdAt` the sort keeps the
   * input order. With the two ensures of SortNewestFirst this fixes the
   * output completely.
   */
  lemma {:induction false} SortIsStable(s: seq<LinkData>, t: nat)
    ensures Ties(SortNewestFirst(s), t) == Ties(s, t)
  {
    if s != [] {
      SortIsStable(s[1..], t);
      InsertKeepsTies(s[0], SortNewestFirst(s[1..]), t);
    }
  }

  /** In a newest-first sequence, a record strictly newer than all the others comes first. */
  lemma NewestAloneIsFirst(s: seq<LinkData>, x: LinkData)
    requires NewestFirst(s) && x in s
    requires forall y :: y in s && y != x ==> y.createdAt < x.createdAt
    ensures s[0] == x
  {
    var k :| 0 <= k < |s| && s[k] == x;
    assert s[0].createdAt >= s[k].createdAt;
  }
}

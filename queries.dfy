/** The two query shapes the store is asked for: a filter (`SELECT ... WHERE`)
    and an ordering by creation time, newest first (`ORDER BY created_at DESC`).
    The store leaves the order of rows with equal times unspecified; so do the
    contracts here. */
module Queries {

  /** Rows that satisfy `p`, in table order. */
  function Where<T(==)>(s: seq<T>, p: T -> bool): (r: seq<T>)
    ensures |r| <= |s|
    ensures forall i :: 0 <= i < |r| ==> r[i] in s && p(r[i])
    ensures forall i :: 0 <= i < |s| && p(s[i]) ==> s[i] in r
    ensures |r| >= 2 ==> exists i, j :: 0 <= i < j < |s| && p(s[i]) && p(s[j])
  {
    if s == [] then []
    else
      var rest := Where(s[1..], p);
      assert forall i :: 0 <= i < |s| - 1 ==> s[1..][i] == s[i + 1];
      if p(s[0]) then
        assert |rest| >= 1 ==> rest[0] in s[1..] && p(rest[0]);
        [s[0]] + rest
      else
        rest
  }

  /** A filter keeps each satisfying row as many times as the table holds
      it, and no other row. */
  lemma {:induction false} WhereCounts<T>(s: seq<T>, p: T -> bool)
    ensures forall x :: multiset(Where(s, p))[x] == if p(x) then multiset(s)[x] else 0
  {
    if s != [] {
      WhereCounts(s[1..], p);
      assert s == [s[0]] + s[1..];
    }
  }

  ghost predicate NewestFirst<T>(s: seq<T>, time: T -> int)
  {
    forall i, j :: 0 <= i < j < |s| ==> time(s[i]) >= time(s[j])
  }

  function InsertNewest<T(==)>(x: T, s: seq<T>, time: T -> int): (r: seq<T>)
    requires NewestFirst(s, time)
    ensures NewestFirst(r, time)
    ensures multiset(r) == multiset(s) + multiset{x}
    ensures |r| == |s| + 1 && (r[0] == x || (s != [] && r[0] == s[0]))
  {
    if s == [] || time(x) >= time(s[0]) then
      assert NewestFirst([x] + s, time) by { PrependNewest(x, s, time); }
      [x] + s
    else
      var rest := InsertNewest(x, s[1..], time);
      assert s == [s[0]] + s[1..];
      assert NewestFirst([s[0]] + rest, time) by { PrependNewest(s[0], rest, time); }
      [s[0]] + rest
  }

  /** A row no older than the first of a sorted list may go in front of it. */
  lemma PrependNewest<T>(x: T, s: seq<T>, time: T -> int)
    requires NewestFirst(s, time) && (s == [] || time(x) >= time(s[0]))
    ensures NewestFirst([x] + s, time)
  {
    var r := [x] + s;
    forall i, j | 0 <= i < j < |r| ensures time(r[i]) >= time(r[j]) {
      if i == 0 && j > 1 {
        assert r[j] == s[j - 1] && time(s[0]) >= time(s[j - 1]);
      }
    }
  }

  /** `ORDER BY time DESC`: the same rows, newest first. */
  function OrderNewestFirst<T(==)>(s: seq<T>, time: T -> int): (r: seq<T>)
    ensures NewestFirst(r, time)
    ensures multiset(r) == multiset(s)
  {
    if s == [] then []
    else
      assert s == [s[0]] + s[1..];
      InsertNewest(s[0], OrderNewestFirst(s[1..], time), time)
  }

  /** Ordering neither adds nor drops a row. */
  lemma OrderedMembers<T>(s: seq<T>, time: T -> int, x: T)
    ensures x in OrderNewestFirst(s, time) <==> x in s
  {
    var r := OrderNewestFirst(s, time);
    assert x in r <==> x in multiset(r);
    assert x in s <==> x in multiset(s);
  }
}

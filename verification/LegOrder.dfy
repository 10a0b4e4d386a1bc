// The order executions are walked in: that of an interval is that of its parts, it does
// not depend on the order they were recorded in, and the run's side decides it only
// between foreign executions of one sequence.

module LegOrder {
  import opened LegTypes
  import opened LegBook
  import opened LegFold

  // ---- Splitting an interval --------------------------------------------------------------

  lemma InsertLow(e: LegEvent, a: seq<LegEvent>, b: seq<LegEvent>, mid: int, dir: int)
    requires e.at <= mid && forall x :: x in b ==> mid < x.at
    ensures Insert(e, a + b, dir) == Insert(e, a, dir) + b
    decreases |a|
  {
    if a == [] {
      assert a + b == b;
    } else if RankLeq(e, a[0], dir) {
      assert [e] + (a + b) == ([e] + a) + b;
    } else {
      assert (a + b)[1..] == a[1..] + b;
      InsertLow(e, a[1..], b, mid, dir);
      assert [a[0]] + (Insert(e, a[1..], dir) + b) == ([a[0]] + Insert(e, a[1..], dir)) + b;
    }
  }

  lemma InsertHigh(e: LegEvent, a: seq<LegEvent>, b: seq<LegEvent>, mid: int, dir: int)
    requires mid < e.at && forall x :: x in a ==> x.at <= mid
    ensures Insert(e, a + b, dir) == a + Insert(e, b, dir)
    decreases |a|
  {
    if a == [] {
      assert a + b == b;
      assert [] + Insert(e, b, dir) == Insert(e, b, dir);
    } else {
      assert a[0] in a;
      assert (a + b)[1..] == a[1..] + b;
      InsertHigh(e, a[1..], b, mid, dir);
      assert [a[0]] + (a[1..] + Insert(e, b, dir)) == a + Insert(e, b, dir);
    }
  }

  lemma BetweenIn(s: seq<LegEvent>, lo: int, hi: int)
    ensures forall e :: e in Between(s, lo, hi) ==> e in s && lo < e.at <= hi
  {
  }

  lemma SortIn(s: seq<LegEvent>, dir: int)
    ensures forall e :: e in SortDue(s, dir) ==> e in s
  {
    SortSums(s, dir);
    forall e | e in SortDue(s, dir)
      ensures e in s
    {
      assert e in multiset(SortDue(s, dir));
    }
  }

  /** The walk order of an interval is that of its two parts, one after the other. */
  lemma SortSplit(s: seq<LegEvent>, lo: int, mid: int, hi: int, dir: int)
    requires lo <= mid <= hi
    ensures SortDue(Between(s, lo, hi), dir)
            == SortDue(Between(s, lo, mid), dir) + SortDue(Between(s, mid, hi), dir)
  {
    if s == [] {
    } else {
      SortSplit(s[1..], lo, mid, hi, dir);
      var a, b := Between(s[1..], lo, mid), Between(s[1..], mid, hi);
      BetweenIn(s[1..], lo, mid);
      BetweenIn(s[1..], mid, hi);
      SortIn(a, dir);
      SortIn(b, dir);
      var e := s[0];
      var whole := Between(s[1..], lo, hi);
      assert ([e] + whole)[1..] == whole && ([e] + a)[1..] == a && ([e] + b)[1..] == b;
      if lo < e.at <= mid {
        InsertLow(e, SortDue(a, dir), SortDue(b, dir), mid, dir);
      } else if mid < e.at <= hi {
        InsertHigh(e, SortDue(a, dir), SortDue(b, dir), mid, dir);
      }
    }
  }

  lemma OutsideTwice(s: seq<LegEvent>, lo: int, mid: int, hi: int)
    requires lo <= mid <= hi
    ensures Outside(Outside(s, lo, mid), mid, hi) == Outside(s, lo, hi)
    ensures Between(Outside(s, lo, mid), mid, hi) == Between(s, mid, hi)
  {
  }

  lemma AtLeastTwice(views: seq<View>, mid: int, hi: int)
    requires mid <= hi
    ensures AtLeast(AtLeast(views, mid), hi) == AtLeast(views, hi)
  {
  }

  lemma SumSplit(s: seq<LegEvent>, lo: int, mid: int, hi: int)
    requires lo <= mid <= hi
    ensures SumDelta(Between(s, lo, hi)) == SumDelta(Between(s, lo, mid)) + SumDelta(Between(s, mid, hi))
  {
  }

  // ---- When the run's side does not decide the order ---------------------------------------

  /** No two foreign executions of one sequence move the leg in opposite directions. */
  predicate NoClash(s: seq<LegEvent>) {
    forall x, y :: x in s && y in s && x.at == y.at && !x.own && !y.own
                   ==> Direction(x.delta) == Direction(y.delta)
  }

  /** A view matching before a walk onto an earlier matching one matches after it. */
  lemma MatchAfter(b: Book, mid: View, view: View)
    requires b.cursor.Some? && Matches(b, mid) && Matches(b, view) && mid.at < view.at
    ensures Matches(Walk(b, mid, true).0, view)
    ensures Due(Walk(b, mid, true).0, view)
            == SortDue(Between(b.events, mid.at, view.at), Direction(Walk(b, mid, true).0.core.share))
  {
    hide WalkEvents, SortDue, SumDelta, Between, Outside, AtLeast;
    OutsideTwice(b.events, b.cursor.value, mid.at, view.at);
    SumSplit(b.events, b.cursor.value, mid.at, view.at);
  }

  // ---- When exactly it is the same ---------------------------------------------------------------

  /** Both sides of the run rank every pair of executions alike, in the order recorded. */
  predicate SameOrder(s: seq<LegEvent>, d1: int, d2: int) {
    forall i, j :: 0 <= i < j < |s| ==> RankLeq(s[i], s[j], d1) == RankLeq(s[i], s[j], d2)
  }

  lemma InsertSame(e: LegEvent, s: seq<LegEvent>, d1: int, d2: int)
    requires forall x :: x in s ==> RankLeq(e, x, d1) == RankLeq(e, x, d2)
    ensures Insert(e, s, d1) == Insert(e, s, d2)
  {
  }

  lemma SortSame(s: seq<LegEvent>, d1: int, d2: int)
    requires SameOrder(s, d1, d2)
    ensures SortDue(s, d1) == SortDue(s, d2)
  {
    hide RankLeq;
    if s == [] {
    } else {
      assert forall i :: 0 <= i < |s| - 1 ==> s[1..][i] == s[i + 1];
      SortSame(s[1..], d1, d2);
      SortIn(s[1..], d1);
      forall x | x in SortDue(s[1..], d1)
        ensures RankLeq(s[0], x, d1) == RankLeq(s[0], x, d2)
      {
        var k :| 0 <= k < |s[1..]| && s[1..][k] == x;
        assert s[k + 1] == x;
      }
      InsertSame(s[0], SortDue(s[1..], d1), d1, d2);
    }
  }

  /** `x` stands somewhere before `y`. */
  predicate Before(s: seq<LegEvent>, x: LegEvent, y: LegEvent) {
    exists p, q :: 0 <= p < q < |s| && s[p] == x && s[q] == y
  }

  lemma BeforeCons(e: LegEvent, s: seq<LegEvent>, x: LegEvent, y: LegEvent)
    requires Before(s, x, y) || (e == x && y in s)
    ensures Before([e] + s, x, y)
  {
    var t := [e] + s;
    if Before(s, x, y) {
      var p, q :| 0 <= p < q < |s| && s[p] == x && s[q] == y;
      assert t[p + 1] == x && t[q + 1] == y;
    } else {
      var q :| 0 <= q < |s| && s[q] == y;
      assert t[0] == x && t[q + 1] == y;
    }
  }

  lemma InsertHas(e: LegEvent, s: seq<LegEvent>, dir: int)
    ensures forall x :: x in Insert(e, s, dir) <==> x == e || x in s
  {
  }

  lemma BeforeHead(s: seq<LegEvent>, x: LegEvent, y: LegEvent)
    requires Before(s, x, y)
    ensures s != [] && (Before(s[1..], x, y) || (s[0] == x && y in s[1..]))
  {
  }

  /** Inserting moves no two executions past each other. */
  lemma InsertKeepsBefore(e: LegEvent, s: seq<LegEvent>, dir: int, x: LegEvent, y: LegEvent)
    requires Before(s, x, y)
    ensures Before(Insert(e, s, dir), x, y)
  {
    hide Before, RankLeq;
    BeforeHead(s, x, y);
    if RankLeq(e, s[0], dir) {
      BeforeCons(e, s, x, y);
    } else {
      if Before(s[1..], x, y) {
        InsertKeepsBefore(e, s[1..], dir, x, y);
      }
      InsertHas(e, s[1..], dir);
      BeforeCons(s[0], Insert(e, s[1..], dir), x, y);
    }
  }

  /** An execution is inserted before those it ranks up to, and behind the others. */
  lemma InsertPlaces(e: LegEvent, s: seq<LegEvent>, dir: int, y: LegEvent)
    requires Sorted(s, dir) && y in s
    ensures if RankLeq(e, y, dir) then Before(Insert(e, s, dir), e, y) else Before(Insert(e, s, dir), y, e)
  {
    hide Before;
    if RankLeq(e, s[0], dir) {
      HeadRanks(s, dir, y);
      BeforeCons(e, s, e, y);
    } else {
      InsertHas(e, s[1..], dir);
      var t := Insert(e, s[1..], dir);
      if y == s[0] {
        BeforeCons(s[0], t, y, e);
      } else {
        assert y in s[1..];
        assert forall i :: 0 <= i < |s| - 1 ==> s[1..][i] == s[i + 1];
        InsertPlaces(e, s[1..], dir, y);
        if RankLeq(e, y, dir) {
          BeforeCons(s[0], t, e, y);
        } else {
          BeforeCons(s[0], t, y, e);
        }
      }
    }
  }

  lemma HeadRanks(s: seq<LegEvent>, dir: int, y: LegEvent)
    requires Sorted(s, dir) && y in s
    ensures RankLeq(s[0], y, dir)
  {
  }

  lemma SortHas(s: seq<LegEvent>, dir: int, x: LegEvent)
    requires x in s
    ensures x in SortDue(s, dir)
  {
    SortSums(s, dir);
    InBag(s, x);
    InBag(SortDue(s, dir), x);
  }

  /** The walk order of any two executions is the one their ranks say, ties as recorded. */
  lemma {:induction false} SortPlaces(s: seq<LegEvent>, dir: int, i: nat, j: nat)
    requires i < j < |s|
    ensures if RankLeq(s[i], s[j], dir) then Before(SortDue(s, dir), s[i], s[j])
            else Before(SortDue(s, dir), s[j], s[i])
    decreases i
  {
    hide Before, RankLeq, Sorted, Insert;
    var t := SortDue(s[1..], dir);
    assert s[1..][j - 1] == s[j];
    if i == 0 {
      SortSorted(s[1..], dir);
      SortHas(s[1..], dir, s[j]);
      InsertPlaces(s[0], t, dir, s[j]);
    } else {
      assert s[1..][i - 1] == s[i];
      SortPlaces(s[1..], dir, i - 1, j - 1);
      if RankLeq(s[i], s[j], dir) {
        InsertKeepsBefore(s[0], t, dir, s[i], s[j]);
      } else {
        InsertKeepsBefore(s[0], t, dir, s[j], s[i]);
      }
    }
  }

  /** The foreign executions, in order. */
  function Foreigns(s: seq<LegEvent>): seq<LegEvent> {
    if s == [] then [] else if s[0].own then Foreigns(s[1..]) else [s[0]] + Foreigns(s[1..])
  }

  lemma ForeignsAppend(a: seq<LegEvent>, b: seq<LegEvent>)
    ensures Foreigns(a + b) == Foreigns(a) + Foreigns(b)
  {
    if a == [] {
      assert a + b == b;
    } else {
      assert (a + b)[1..] == a[1..] + b;
    }
  }

  lemma ForeignsHas(s: seq<LegEvent>)
    ensures forall x :: x in Foreigns(s) <==> x in s && !x.own
  {
  }

  lemma ForeignsBefore(s: seq<LegEvent>, x: LegEvent, y: LegEvent)
    requires Before(s, x, y) && !x.own && !y.own
    ensures Before(Foreigns(s), x, y)
  {
    hide Before;
    BeforeHead(s, x, y);
    if Before(s[1..], x, y) {
      ForeignsBefore(s[1..], x, y);
    }
    if !s[0].own {
      ForeignsHas(s[1..]);
      BeforeCons(s[0], Foreigns(s[1..]), x, y);
    }
  }

  /** No execution stands twice. */
  predicate Once(s: seq<LegEvent>) {
    forall x :: x in s ==> multiset(s)[x] == 1
  }

  lemma OneWay(s: seq<LegEvent>, x: LegEvent, y: LegEvent)
    requires Once(s) && Before(s, x, y)
    ensures !Before(s, y, x)
  {
    if Before(s, y, x) {
      var p, q :| 0 <= p < q < |s| && s[p] == x && s[q] == y;
      var p', q' :| 0 <= p' < q' < |s| && s[p'] == y && s[q'] == x;
      if p == q' {
        TwiceIn(s, p', q);
      } else {
        TwiceIn(s, if p < q' then p else q', if p < q' then q' else p);
      }
      assert false;
    }
  }

  lemma ForeignsCount(s: seq<LegEvent>, x: LegEvent)
    ensures multiset(Foreigns(s))[x] <= multiset(s)[x]
  {
    if s == [] {
    } else {
      ForeignsCount(s[1..], x);
      assert s == [s[0]] + s[1..];
    }
  }

  lemma ForeignsOnce(s: seq<LegEvent>)
    requires Once(s)
    ensures Once(Foreigns(s))
  {
    forall x | x in Foreigns(s)
      ensures multiset(Foreigns(s))[x] == 1
    {
      ForeignsHas(s);
      ForeignsCount(s, x);
    }
  }

  lemma SortOnce(s: seq<LegEvent>, dir: int)
    requires Once(s)
    ensures Once(SortDue(s, dir))
  {
    SortSums(s, dir);
    SortIn(s, dir);
  }

  /** Executions whose walk order two sides differ on are foreign, and their order differs. */
  lemma ForeignOrder(s: seq<LegEvent>, d1: int, d2: int)
    requires Once(s) && Foreigns(SortDue(s, d1)) == Foreigns(SortDue(s, d2))
    ensures SameOrder(s, d1, d2)
  {
    hide Before, SortDue, Foreigns, Once;
    forall i, j | 0 <= i < j < |s|
      ensures RankLeq(s[i], s[j], d1) == RankLeq(s[i], s[j], d2)
    {
      if RankLeq(s[i], s[j], d1) != RankLeq(s[i], s[j], d2) {
        SortPlaces(s, d1, i, j);
        SortPlaces(s, d2, i, j);
        SortOnce(s, d1);
        ForeignsOnce(SortDue(s, d1));
        var f := Foreigns(SortDue(s, d1));
        if RankLeq(s[i], s[j], d1) {
          ForeignsBefore(SortDue(s, d1), s[i], s[j]);
          ForeignsBefore(SortDue(s, d2), s[j], s[i]);
          OneWay(f, s[i], s[j]);
        } else {
          ForeignsBefore(SortDue(s, d1), s[j], s[i]);
          ForeignsBefore(SortDue(s, d2), s[i], s[j]);
          OneWay(f, s[j], s[i]);
        }
        assert false;
      }
    }
  }

  // ---- Views ------------------------------------------------------------------------------------

  predicate Increasing(views: seq<View>) {
    forall i, j :: 0 <= i < j < |views| ==> views[i].at < views[j].at
  }

  lemma CursorBefore(b: Book, view: View)
    requires b.cursor.Some? && Matches(b, view)
    ensures b.cursor.value < view.at
  {
  }

  lemma EventsAfter(b: Book, view: View)
    requires b.cursor.Some?
    ensures Walk(b, view, true).0.events == Outside(b.events, b.cursor.value, view.at)
  {
  }

  lemma ClashPart(s: seq<LegEvent>, lo: int, mid: int, hi: int)
    requires lo <= mid <= hi && NoClash(Between(s, lo, hi))
    ensures NoClash(Between(s, mid, hi))
  {
    BetweenAll(s, lo, hi);
    BetweenIn(s, mid, hi);
  }

  lemma BetweenAll(s: seq<LegEvent>, lo: int, hi: int)
    ensures forall e :: e in s && lo < e.at <= hi ==> e in Between(s, lo, hi)
  {
  }

  // ---- The order executions were recorded in ------------------------------------------------------

  /** Of one sequence there is at most one execution of the run's and one foreign one. */
  predicate Distinct(s: seq<LegEvent>) {
    && Once(s)
    && forall x, y :: x in s && y in s && x.at == y.at && x.own == y.own ==> x == y
  }

  lemma SortedTail(s: seq<LegEvent>, dir: int)
    requires Sorted(s, dir) && Distinct(s) && s != []
    ensures Sorted(s[1..], dir) && Distinct(s[1..])
    ensures multiset(s[1..]) == multiset(s) - multiset{s[0]}
  {
    assert s == [s[0]] + s[1..];
    assert forall i :: 0 <= i < |s| - 1 ==> s[1..][i] == s[i + 1];
  }

  lemma InBag(s: seq<LegEvent>, x: LegEvent)
    ensures x in s <==> x in multiset(s)
  {
  }

  lemma DistinctAny(s: seq<LegEvent>, t: seq<LegEvent>)
    requires Distinct(s) && multiset(s) == multiset(t)
    ensures Distinct(t)
  {
    forall x
      ensures x in s <==> x in t
    {
      InBag(s, x);
      InBag(t, x);
    }
  }

  lemma SameKey(a: LegEvent, b: LegEvent, dir: int)
    requires RankLeq(a, b, dir) && RankLeq(b, a, dir)
    ensures a.at == b.at && a.own == b.own
  {
  }

  lemma SameHead(s: seq<LegEvent>, t: seq<LegEvent>, dir: int)
    requires Sorted(s, dir) && Sorted(t, dir) && Distinct(s) && multiset(s) == multiset(t) && s != []
    ensures t != [] && s[0] == t[0]
  {
    hide Sorted, Once, RankLeq;
    assert s[0] in multiset(t);
    InBag(t, s[0]);
    InBag(t, t[0]);
    InBag(s, t[0]);
    HeadRanks(s, dir, t[0]);
    HeadRanks(t, dir, s[0]);
    SameKey(s[0], t[0], dir);
  }

  lemma Empty(s: seq<LegEvent>, t: seq<LegEvent>)
    requires multiset(s) == multiset(t) && s == []
    ensures s == t
  {
    assert |multiset(s)| == |multiset(t)|;
  }

  /** Distinct executions have one walk order. */
  lemma {:induction false} SortedUnique(s: seq<LegEvent>, t: seq<LegEvent>, dir: int)
    requires Sorted(s, dir) && Sorted(t, dir) && Distinct(s) && Distinct(t) && multiset(s) == multiset(t)
    ensures s == t
    decreases |s|
  {
    hide Sorted, Distinct;
    if s == [] {
      Empty(s, t);
    } else {
      SameHead(s, t, dir);
      SortedTail(s, dir);
      SortedTail(t, dir);
      SortedUnique(s[1..], t[1..], dir);
    }
  }

  /** In whatever order distinct executions came, they are walked in the same one. */
  lemma SortAny(s: seq<LegEvent>, t: seq<LegEvent>, dir: int)
    requires Distinct(s) && multiset(s) == multiset(t)
    ensures SortDue(s, dir) == SortDue(t, dir)
  {
    hide SortDue, Distinct, Sorted;
    SortSums(s, dir);
    SortSums(t, dir);
    SortSorted(s, dir);
    SortSorted(t, dir);
    DistinctAny(s, SortDue(s, dir));
    DistinctAny(s, SortDue(t, dir));
    SortedUnique(SortDue(s, dir), SortDue(t, dir), dir);
  }

  lemma TwiceIn(s: seq<LegEvent>, i: nat, j: nat)
    requires i < j < |s| && s[i] == s[j]
    ensures multiset(s)[s[i]] >= 2
  {
    assert s == (s[..i] + [s[i]]) + (s[i + 1..j] + [s[j]] + s[j + 1..]);
  }
}

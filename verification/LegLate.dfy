// An own opening fill that is late for the view a ledger was anchored on, or gave up on,
// ends in the book of a ledger that had it there, whatever was walked in the meantime:
// what survives of it is the least foreign exposure any step left, the room the ledger kept.

module LegLate {
  import opened Common
  import opened LegTypes
  import opened LegBook
  import opened LegFold
  import opened LegOrder
  import opened LegRuns
  import opened LegArrival

  /** One step of an unsigned leg: someone's execution, an own open, or an own reduce the
      share covers. */
  predicate Plain(r: Ref, e: LegEvent) {
    && r.leg + e.delta >= 0
    && (e.own ==> e.share == e.delta && r.share + e.share >= 0)
  }

  predicate PlainFold(r: Ref, due: seq<LegEvent>)
    decreases |due|
  {
    due == [] || (Plain(r, due[0]) && PlainFold(RefStep(r, due[0]), due[1..]))
  }

  /** The least foreign exposure over all steps, from `room` on. */
  function Least(r: Ref, due: seq<LegEvent>, room: int): int
    decreases |due|
  {
    if due == [] then room
    else
      var next := RefStep(r, due[0]);
      Least(next, due[1..], Min(room, next.leg - next.share))
  }

  /** The run holds a share of an unsigned leg. */
  predicate Long(r: Ref) {
    0 <= r.share <= r.leg && r.share <= r.journal
  }

  lemma PlainKeepsLong(r: Ref, e: LegEvent)
    requires Long(r) && Plain(r, e)
    ensures Long(RefStep(r, e))
  {
  }

  lemma LeastFirst(r: Ref, due: seq<LegEvent>, room: int)
    requires due != []
    ensures var next := RefStep(r, due[0]);
            Least(r, due, room) == Least(next, due[1..], Min(room, next.leg - next.share))
    ensures PlainFold(r, due) <==> Plain(r, due[0]) && PlainFold(RefStep(r, due[0]), due[1..])
  {
  }

  /** Counting the fill from the start raises the share by what the least foreign
      exposure leaves of it, and the journal alike. */
  lemma {:induction false} FoldWithFill(a: Ref, b: Ref, due: seq<LegEvent>, quantity: int, room: int)
    requires Long(a) && quantity >= 0 && 0 <= room <= a.leg - a.share && PlainFold(a, due)
    requires b.leg == a.leg && b.share == a.share + Min(quantity, room) && b.share <= b.journal
    ensures var x, y := Fold(a, due), Fold(b, due);
            var least := Least(a, due, room);
            && Long(x) && 0 <= least <= room && least <= x.leg - x.share
            && y.leg == x.leg && y.share == x.share + Min(quantity, least)
            && y.journal - x.journal == b.journal - a.journal - (Min(quantity, room) - Min(quantity, least))
    decreases |due|
  {
    if due == [] {
    } else {
      hide RefStep, Plain, PlainFold, Least, Fold, Min;
      var e := due[0];
      var a1, b1 := RefStep(a, e), RefStep(b, e);
      LeastFirst(a, due, room);
      FoldFirst(a, due);
      FoldFirst(b, due);
      PlainKeepsLong(a, e);
      var room1 := Min(room, a1.leg - a1.share);
      StepWithFill(a, b, e, quantity, room);
      FoldWithFill(a1, b1, due[1..], quantity, room1);
    }
  }

  lemma StepWithFill(a: Ref, b: Ref, e: LegEvent, quantity: int, room: int)
    requires Long(a) && quantity >= 0 && 0 <= room <= a.leg - a.share && Plain(a, e)
    requires b.leg == a.leg && b.share == a.share + Min(quantity, room) && b.share <= b.journal
    ensures var a1, b1 := RefStep(a, e), RefStep(b, e);
            var room1 := Min(room, a1.leg - a1.share);
            && 0 <= room1 <= room && room1 <= a1.leg - a1.share
            && b1.leg == a1.leg && b1.share == a1.share + Min(quantity, room1) && b1.share <= b1.journal
            && b1.journal - a1.journal == b.journal - a.journal - (Min(quantity, room) - Min(quantity, room1))
  {
  }

  /** The room the walk keeps on the run's side is that least foreign exposure. */
  lemma {:induction false} RoomIsLeast(c: Core, leg: int, due: seq<LegEvent>)
    requires Held(c, leg) && Long(RefOf(c, leg)) && 1 in c.room && PlainFold(RefOf(c, leg), due)
    ensures var w := WalkEvents(c, leg, due, true);
            1 in w.core.room && w.core.room[1] == Least(RefOf(c, leg), due, c.room[1])
    decreases |due|
  {
    if due == [] {
      WalkNone(c, leg, true);
    } else {
      hide StepOf, RefStep, Long, Plain, PlainFold, Least, Held, Verdicts, WalkEvents;
      WalkFirst(c, leg, due, true);
      LeastFirst(RefOf(c, leg), due, c.room[1]);
      var s := StepOf(c, leg, due[0], true);
      StepRefines(c, leg, due[0]);
      PlainKeepsLong(RefOf(c, leg), due[0]);
      StepRoom(c, leg, due[0]);
      RoomIsLeast(s.core, s.leg, due[1..]);
    }
  }

  lemma StepRoom(c: Core, leg: int, e: LegEvent)
    requires 1 in c.room
    requires var s := StepOf(c, leg, e, true); Long(RefOf(s.core, s.leg))
    ensures var s := StepOf(c, leg, e, true);
            1 in s.core.room && s.core.room[1] == Min(c.room[1], s.leg - s.core.share)
  {
    hide CapDoubt, AddCredit, TakeJournal, Charge, Bounded, Capped;
  }

  lemma LateGrows(b: Book, e: LegEvent)
    requires b.cursor.Some? && b.blindSeq.Some? && e.share > 0
    requires Held(b.core, b.leg) && Long(RefOf(b.core, b.leg)) && 1 in b.core.room && b.core.room[1] >= 0
    ensures var r := LateOwn(b, e).0.core;
            var kept := Min(e.share, b.core.room[1]);
            r.share == b.core.share + kept && r.journal == b.core.journal + kept
  {
    hide CapDoubt, LateDoubt, LateResolve, AddCredit, Toward;
    var c := b.core;
    LimitsAreToward(c.share + e.share, c.journal + e.share);
    assert Toward(c.share + e.share, c.journal + e.share) == c.share + e.share;
    var wanted := Bounded(c.share + e.share, c.journal + e.share);
    var move := ShareMove(c.share, wanted);
    assert wanted == c.share + e.share && move == (0, e.share);
  }

  // ---- Any run of proven walks ------------------------------------------------------------------

  /** Executions recorded, then a view walked onto. */
  datatype Round = Round(recorded: seq<LegEvent>, view: View)

  function Rounds(b: Book, rounds: seq<Round>): (r: Book)
    requires b.cursor.Some?
    ensures r.cursor.Some? && r.blindSeq == b.blindSeq
    decreases |rounds|
  {
    if rounds == [] then b
    else Rounds(Walk(Record(b, rounds[0].recorded), rounds[0].view, true).0, rounds[1..])
  }

  /** Every round is proven, on an unsigned leg; executions of one sequence are ranked alike
      whether the run is flat or long, where it is flat. */
  predicate Proven(b: Book, rounds: seq<Round>)
    requires b.cursor.Some?
    decreases |rounds|
  {
    rounds == []
    || (var k, view := Record(b, rounds[0].recorded), rounds[0].view;
        && Matches(k, view) && PlainFold(RefOf(k.core, k.leg), Due(k, view))
        && (k.core.share == 0 ==> SameOrder(Between(k.events, k.cursor.value, view.at), 0, 1))
        && Proven(Walk(k, view, true).0, rounds[1..]))
  }

  /** `y` is `x` with `quantity` more bought before: share and journal are higher by what the
      room leaves of that. */
  predicate WithFill(x: Book, y: Book, quantity: int) {
    && x.cursor.Some? && y == x.(core := y.core, blindSeq := y.blindSeq)
    && Held(x.core, x.leg) && Long(RefOf(x.core, x.leg)) && 1 in x.core.room
    && 0 <= x.core.room[1] <= x.leg - x.core.share
    && y.core.share == x.core.share + Min(quantity, x.core.room[1])
    && y.core.journal == x.core.journal + Min(quantity, x.core.room[1])
  }

  /** The same views and executions. */
  predicate SameEvidence(x: Book, y: Book) {
    y == x.(core := y.core, blindSeq := y.blindSeq)
  }

  lemma RecordBeside(x: Book, y: Book, events: seq<LegEvent>)
    requires SameEvidence(x, y)
    ensures Record(y, events) == Record(x, events).(core := y.core, blindSeq := y.blindSeq)
    decreases |events|
  {
    if events == [] {
    } else {
      hide Put, EvictEvents;
      RecordBeside(AddEvent(x, events[0]), AddEvent(y, events[0]), events[1..]);
    }
  }

  lemma WalkBesideBook(x: Book, y: Book, view: View)
    requires x.cursor.Some? && SameEvidence(x, y)
    ensures SameEvidence(Walk(x, view, true).0, Walk(y, view, true).0)
  {
    hide WalkEvents, SortDue, Between, Outside, AtLeast, NoteRoom, CapDoubt;
  }

  lemma FillDue(x: Book, y: Book, view: View, quantity: int)
    requires WithFill(x, y, quantity) && quantity >= 0 && Matches(x, view)
    requires x.core.share == 0 ==> SameOrder(Between(x.events, x.cursor.value, view.at), 0, 1)
    ensures Due(y, view) == Due(x, view) && Matches(y, view) && Held(y.core, y.leg)
  {
    hide Between, SortDue, SumDelta, SameOrder;
    if Direction(x.core.share) != Direction(y.core.share) {
      SortSame(Between(x.events, x.cursor.value, view.at), 0, 1);
    }
  }

  /** One proven walk keeps two ledgers a fill apart. */
  lemma WalkWithFill(x: Book, y: Book, view: View, quantity: int)
    requires WithFill(x, y, quantity) && quantity >= 0
    requires Matches(x, view) && PlainFold(RefOf(x.core, x.leg), Due(x, view))
    requires x.core.share == 0 ==> SameOrder(Between(x.events, x.cursor.value, view.at), 0, 1)
    ensures WithFill(Walk(x, view, true).0, Walk(y, view, true).0, quantity)
  {
    hide WalkEvents, Fold, Least, Charges, Walk, PlainFold, Due, Matches, SameOrder;
    var due := Due(x, view);
    FillDue(x, y, view, quantity);
    WalkBesideBook(x, y, view);
    ProvenWalkIsFold(x, view);
    ProvenWalkIsFold(y, view);
    FoldWithFill(RefOf(x.core, x.leg), RefOf(y.core, y.leg), due, quantity, x.core.room[1]);
    RoomIsLeast(x.core, x.leg, due);
    WalkRefinesFold(x.core, x.leg, due);
    WalkRoom(x, view);
  }

  lemma {:induction false} RoundsWithFill(x: Book, y: Book, rounds: seq<Round>, quantity: int)
    requires WithFill(x, y, quantity) && quantity >= 0 && Proven(x, rounds)
    ensures WithFill(Rounds(x, rounds), Rounds(y, rounds), quantity)
    decreases |rounds|
  {
    if rounds == [] {
    } else {
      hide Record, Walk, Due, Matches, PlainFold, SameOrder, Held, Long;
      var k, l := Record(x, rounds[0].recorded), Record(y, rounds[0].recorded);
      RecordBeside(x, y, rounds[0].recorded);
      assert WithFill(k, l, quantity);
      WalkWithFill(k, l, rounds[0].view, quantity);
      RoundsWithFill(Walk(k, rounds[0].view, true).0, Walk(l, rounds[0].view, true).0, rounds[1..], quantity);
    }
  }

  /** Of two ledgers a fill apart, the one that gets it late ends with the share and journal of
      the other, however many executions were recorded and proven intervals walked since. */
  lemma LateEqualsReplay(x: Book, y: Book, rounds: seq<Round>, e: LegEvent)
    requires WithFill(x, y, e.share) && e.share > 0 && x.blindSeq.Some? && Proven(x, rounds)
    ensures var late := LateOwn(Rounds(x, rounds), e).0.core;
            var replay := Rounds(y, rounds).core;
            late.share == replay.share && late.journal == replay.journal
  {
    hide Rounds, LateOwn, Proven;
    RoundsWithFill(x, y, rounds, e.share);
    LateGrows(Rounds(x, rounds), e);
  }

  // ---- From a start ---------------------------------------------------------------------------------

  /** An unsigned leg's ledger before its start: the run owns `before` of it at the view. */
  predicate Starting(b: Book, journal: int) {
    && b.cursor.None? && b.views != []
    && var v := b.views[|b.views| - 1];
       v.size >= 0 && journal - OwnBeyond(b.events, v.at) >= 0
  }

  /** A start on an unsigned leg holds what the view shows of the journal, and nets the rest. */
  lemma StartHolds(b: Book, journal: int)
    requires Starting(b, journal)
    ensures var v := b.views[|b.views| - 1];
            var before := journal - OwnBeyond(b.events, v.at);
            var s := Start(b, journal).0;
            && s.core.share == s.core.journal == Min(before, v.size)
            && 1 in s.core.room && s.core.room[1] == v.size - s.core.share
            && s.cursor == s.blindSeq == Some(v.at) && s.leg == v.size
            && s == AnchorOn(b, v, before).(core := s.core)
  {
    hide OwnBeyond, EventsBeyond, CapDoubt, AddGap, LastCredits;
  }

  /** A ledger started without an own opening fill of its view, which then arrives late, holds
      what one started on rows that have it holds, whatever both walked in between. */
  lemma LateEqualsStart(b: Book, journal: int, rounds: seq<Round>, e: LegEvent)
    requires Starting(b, journal) && e.share > 0
    requires Start(b, journal).0.cursor.Some? && Proven(Start(b, journal).0, rounds)
    ensures var x, y := Start(b, journal).0, Start(b, journal + e.share).0;
            && x.blindSeq.Some? && y.cursor.Some?
            && var late := LateOwn(Rounds(x, rounds), e).0.core;
               var replay := Rounds(y, rounds).core;
               late.share == replay.share && late.journal == replay.journal
  {
    hide Start, OwnBeyond, EventsBeyond, Rounds, LateOwn, Proven, NoteSides;
    StartHolds(b, journal);
    StartHolds(b, journal + e.share);
    LateEqualsReplay(Start(b, journal).0, Start(b, journal + e.share).0, rounds, e);
  }

  // ---- From a give-up -------------------------------------------------------------------------------

  predicate AllForeign(s: seq<LegEvent>) {
    forall e :: e in s ==> !e.own
  }

  /** Unproven, foreign executions take nothing. */
  lemma {:induction false} ForeignTakesNothing(c: Core, leg: int, due: seq<LegEvent>)
    requires AllForeign(due)
    ensures var w := WalkEvents(c, leg, due, false).core;
            w.share == c.share && w.journal == c.journal
    decreases |due|
  {
    hide ForeignStep, WalkEvents, AllForeign;
    if due == [] {
      WalkNone(c, leg, false);
    } else {
      ForeignFirst(due);
      WalkFirst(c, leg, due, false);
      ForeignIdle(c, leg, due[0]);
      var s := StepOf(c, leg, due[0], false);
      ForeignTakesNothing(s.core, s.leg, due[1..]);
    }
  }

  lemma ForeignFirst(due: seq<LegEvent>)
    requires AllForeign(due) && due != []
    ensures !due[0].own && AllForeign(due[1..])
  {
    assert due[0] in due && forall e :: e in due[1..] ==> e in due;
  }

  lemma ForeignIdle(c: Core, leg: int, e: LegEvent)
    ensures var s := ForeignStep(c, leg, e, false).core; s.share == c.share && s.journal == c.journal
  {
    hide CapDoubt;
  }

  /** An own execution recorded last, of the latest sequence, is walked behind all but foreign
      executions of that sequence. */
  lemma SortLast(s: seq<LegEvent>, e: LegEvent, dir: int) returns (a: seq<LegEvent>, b: seq<LegEvent>)
    requires e.own && forall x :: x in s ==> x.at <= e.at
    ensures SortDue(s, dir) == a + b && SortDue(s + [e], dir) == a + [e] + b
    ensures forall x :: x in b ==> !x.own && x.at == e.at
  {
    hide Insert, Past;
    if s == [] {
      a, b := [], [];
      InsertOne(e, dir);
      assert s + [e] == [e] && [e][1..] == [] && SortDue([], dir) == [];
    } else {
      var f, t := s[0], s[1..];
      assert f in s && forall x :: x in t ==> x in s;
      var a0, b0 := SortLast(t, e, dir);
      assert (s + [e])[0] == f && (s + [e])[1..] == t + [e];
      if RankLeq(f, e, dir) {
        InsertBefore(f, a0, e, b0, dir);
        a, b := Insert(f, a0, dir), b0;
      } else {
        InsertBehind(f, a0, e, b0, dir);
        InsertHas(f, b0, dir);
        if Past(f, a0, dir) {
          a, b := a0, Insert(f, b0, dir);
        } else {
          a, b := Insert(f, a0, dir), b0;
        }
      }
    }
  }

  /** `f` ranks up to none of `s`. */
  predicate Past(f: LegEvent, s: seq<LegEvent>, dir: int) {
    forall x :: x in s ==> !RankLeq(f, x, dir)
  }

  lemma InsertFirst(f: LegEvent, s: seq<LegEvent>, dir: int)
    requires s != []
    ensures Insert(f, s, dir) == if RankLeq(f, s[0], dir) then [f] + s else [s[0]] + Insert(f, s[1..], dir)
  {
  }

  lemma Shift(x: LegEvent, t: seq<LegEvent>, e: LegEvent, b: seq<LegEvent>)
    ensures [x] + (t + b) == ([x] + t) + b && [x] + (t + [e] + b) == ([x] + t) + [e] + b
    ensures ([x] + t + b)[0] == x && ([x] + t + b)[1..] == t + b
    ensures ([x] + t + [e] + b)[0] == x && ([x] + t + [e] + b)[1..] == t + [e] + b
  {
  }

  lemma AtFront(e: LegEvent, b: seq<LegEvent>)
    ensures [] + b == b && [] + [e] + b == [e] + b && ([e] + b)[0] == e && ([e] + b)[1..] == b
  {
  }

  /** An execution that ranks up to `e`, and up to all behind it, is inserted before `e`. */
  lemma {:induction false} InsertBefore(f: LegEvent, a: seq<LegEvent>, e: LegEvent, b: seq<LegEvent>, dir: int)
    requires RankLeq(f, e, dir) && forall x :: x in b ==> RankLeq(f, x, dir)
    ensures Insert(f, a + b, dir) == Insert(f, a, dir) + b
    ensures Insert(f, a + [e] + b, dir) == Insert(f, a, dir) + [e] + b
    decreases |a|
  {
    hide RankLeq, Insert;
    AtFront(e, b);
    if a == [] {
      InsertFirst(f, [e] + b, dir);
      InsertOne(f, dir);
      Shift(f, [], e, b);
      if b != [] {
        InsertFirst(f, b, dir);
        assert b[0] in b;
      }
    } else {
      var x, t := a[0], a[1..];
      assert a == [x] + t;
      Shift(x, t, e, b);
      InsertFirst(f, a, dir);
      InsertFirst(f, a + b, dir);
      InsertFirst(f, a + [e] + b, dir);
      if RankLeq(f, x, dir) {
        Shift(f, a, e, b);
      } else {
        InsertBefore(f, t, e, b, dir);
        Shift(x, Insert(f, t, dir), e, b);
      }
    }
  }

  lemma InsertOne(f: LegEvent, dir: int)
    ensures Insert(f, [], dir) == [f] && [] + [f] == [f] && [f] + [] == [f]
  {
  }

  /** One that does not rank up to `e` is inserted behind it, unless something before `e`
      already ranks behind it. */
  lemma {:induction false} InsertBehind(f: LegEvent, a: seq<LegEvent>, e: LegEvent, b: seq<LegEvent>, dir: int)
    requires !RankLeq(f, e, dir)
    ensures Past(f, a, dir) ==> Insert(f, a + b, dir) == a + Insert(f, b, dir)
                                && Insert(f, a + [e] + b, dir) == a + [e] + Insert(f, b, dir)
    ensures !Past(f, a, dir) ==> Insert(f, a + b, dir) == Insert(f, a, dir) + b
                                 && Insert(f, a + [e] + b, dir) == Insert(f, a, dir) + [e] + b
    decreases |a|
  {
    hide RankLeq, Insert, Past;
    AtFront(e, b);
    AtFront(e, Insert(f, b, dir));
    if a == [] {
      PastNone(f, dir);
      InsertFirst(f, [e] + b, dir);
    } else {
      var x, t, u := a[0], a[1..], Insert(f, b, dir);
      assert a == [x] + t;
      Shift(x, t, e, b);
      Shift(x, t, e, u);
      PastFirst(f, a, dir);
      InsertFirst(f, a, dir);
      InsertFirst(f, a + b, dir);
      InsertFirst(f, a + [e] + b, dir);
      if RankLeq(f, x, dir) {
        Shift(f, a, e, b);
      } else {
        InsertBehind(f, t, e, b, dir);
        Shift(x, Insert(f, t, dir), e, b);
      }
    }
  }

  lemma PastNone(f: LegEvent, dir: int)
    ensures Past(f, [], dir)
  {
  }

  lemma PastFirst(f: LegEvent, s: seq<LegEvent>, dir: int)
    requires s != []
    ensures Past(f, s, dir) <==> !RankLeq(f, s[0], dir) && Past(f, s[1..], dir)
  {
    assert forall x :: x in s <==> x == s[0] || x in s[1..];
  }

  lemma OwnUnproven(c: Core, leg: int, e: LegEvent)
    requires e.own && e.share > 0 && 0 <= c.share <= c.journal
    ensures var s := OwnStep(c, leg, e, false).core;
            s.share == c.share + e.share && s.journal == c.journal + e.share
  {
    hide CapDoubt;
  }

  /** Unproven, an interval with one own open more holds just that more. */
  lemma UnprovenWithFill(c: Core, leg: int, s: seq<LegEvent>, e: LegEvent, dir: int)
    requires e.own && e.share > 0 && forall x :: x in s ==> x.at <= e.at
    requires var w := WalkEvents(c, leg, SortDue(s, dir), false).core; 0 <= w.share <= w.journal
    ensures var w, v := WalkEvents(c, leg, SortDue(s, dir), false).core,
                        WalkEvents(c, leg, SortDue(s + [e], dir), false).core;
            v.share == w.share + e.share && v.journal == w.journal + e.share
  {
    hide WalkEvents, SortDue, OwnStep;
    var a, b := SortLast(s, e, dir);
    var k := WalkEvents(c, leg, a, false);
    WalkAppend(c, leg, a, b, false);
    WalkAppend(c, leg, a + [e], b, false);
    WalkAppend(c, leg, a, [e], false);
    ForeignTakesNothing(k.core, k.leg, b);
    OwnUnproven(k.core, k.leg, e);
    WalkFirst(k.core, k.leg, [e], false);
    assert [e][1..] == [];
    var t := StepOf(k.core, k.leg, e, false);
    WalkNone(t.core, t.leg, false);
    ForeignTakesNothing(t.core, t.leg, b);
  }

  /** A give-up on an unsigned leg nets the journal by what it clamps, and no more. */
  lemma ClampHolds(c: Core, first: View, gap: LegGap)
    requires 0 <= c.share <= c.journal && first.size >= 0
    ensures var r := ClampTo(c, first, gap);
            && r.share == Min(c.share, first.size) && r.journal == c.journal - (c.share - r.share)
            && 1 in r.room && r.room[1] == first.size - r.share
  {
    hide CapDoubt, AddGap, LastCredits;
  }

  /** The run is not short where the interval up to `view` ends. */
  predicate LongAt(b: Book, view: View)
    requires b.cursor.Some?
  {
    var c := Walk(b, view, false).0.core;
    view.size >= 0 && 0 <= c.share <= c.journal
  }

  lemma UnprovenShare(b: Book, view: View)
    requires b.cursor.Some?
    ensures var w := WalkEvents(b.core, b.leg, Due(b, view), false).core;
            var c := Walk(b, view, false).0.core;
            c.share == w.share && c.journal == w.journal
  {
    hide WalkEvents, CapDoubt, SortDue, Between, Outside, AtLeast;
  }

  lemma GiveUpHolds(b: Book, view: View)
    requires b.cursor.Some? && LongAt(b, view)
    ensures var c, g := Walk(b, view, false).0.core, GiveUp(b, view).0;
            && g.core.share == Min(c.share, view.size) && g.core.journal == c.journal - (c.share - g.core.share)
            && 1 in g.core.room && g.core.room[1] == view.size - g.core.share
            && Held(g.core, g.leg) && Long(RefOf(g.core, g.leg))
            && g == Walk(b, view, false).0.(core := g.core, blindSeq := Some(view.at))
  {
    hide Walk, ClampTo;
    ClampHolds(Walk(b, view, false).0.core, view, OpenedGap(b, view));
  }

  lemma RecordedLast(b: Book, view: View, e: LegEvent)
    requires b.cursor.Some? && b.cursor.value < e.at == view.at && Fresh(b, e)
    ensures var k := AddEvent(b, e);
            && Between(k.events, b.cursor.value, view.at) == Between(b.events, b.cursor.value, view.at) + [e]
            && Outside(k.events, b.cursor.value, view.at) == Outside(b.events, b.cursor.value, view.at)
            && k == b.(events := k.events)
  {
    hide Put, Between, Outside;
    PutFresh(b.events, e);
    LastBetween(b.events, e, b.cursor.value, view.at);
  }

  lemma LastBetween(s: seq<LegEvent>, e: LegEvent, lo: int, hi: int)
    requires lo < e.at <= hi
    ensures Between(s + [e], lo, hi) == Between(s, lo, hi) + [e] && Outside(s + [e], lo, hi) == Outside(s, lo, hi)
  {
    if s == [] {
      assert s + [e] == [e] && [e][1..] == [];
    } else {
      assert (s + [e])[1..] == s[1..] + [e];
      LastBetween(s[1..], e, lo, hi);
    }
  }

  lemma WalkSides(b: Book, k: Book, view: View)
    requires b.cursor.Some? && k == b.(events := k.events)
    requires Outside(k.events, b.cursor.value, view.at) == Outside(b.events, b.cursor.value, view.at)
    ensures var x, y := Walk(b, view, false).0, Walk(k, view, false).0;
            y == x.(core := y.core)
  {
    hide WalkEvents, SortDue, Between, Outside, AtLeast, CapDoubt;
  }

  /** Given up with or without an own opening fill of the view: a fill apart. */
  lemma GiveUpWithFill(b: Book, view: View, e: LegEvent)
    requires b.cursor.Some? && b.cursor.value < e.at == view.at && Fresh(b, e) && LongAt(b, view)
    requires e.own && e.share > 0
    ensures WithFill(GiveUp(b, view).0, GiveUp(AddEvent(b, e), view).0, e.share)
  {
    hide Walk, GiveUp, WalkEvents, SortDue, Between, Outside, AddEvent, Fresh;
    var k := AddEvent(b, e);
    RecordedLast(b, view, e);
    BetweenIn(b.events, b.cursor.value, view.at);
    UnprovenShare(b, view);
    UnprovenShare(k, view);
    UnprovenWithFill(b.core, b.leg, Between(b.events, b.cursor.value, view.at), e, Direction(b.core.share));
    GiveUpHolds(b, view);
    GiveUpHolds(k, view);
    WalkSides(b, k, view);
  }

  /** An interval given up without an own opening fill of its view, which then arrives late: the
      share and journal are those of the ledger that had the fill when it gave up, whatever both
      walked in between. */
  lemma LateEqualsGiveUp(b: Book, view: View, rounds: seq<Round>, e: LegEvent)
    requires b.cursor.Some? && b.cursor.value < e.at == view.at && Fresh(b, e) && LongAt(b, view)
    requires e.own && e.share > 0
    requires Proven(GiveUp(b, view).0, rounds)
    ensures var x, y := GiveUp(b, view).0, GiveUp(AddEvent(b, e), view).0;
            var late := LateOwn(Rounds(x, rounds), e).0.core;
            var replay := Rounds(y, rounds).core;
            late.share == replay.share && late.journal == replay.journal
  {
    hide GiveUp, Rounds, LateOwn, Proven, AddEvent, Fresh, LongAt;
    EventOnly(b, e);
    GiveUpWithFill(b, view, e);
    LateEqualsReplay(GiveUp(b, view).0, GiveUp(AddEvent(b, e), view).0, rounds, e);
  }

  /** The walk's end notes the room once more. */
  lemma WalkRoom(b: Book, view: View)
    requires b.cursor.Some? && Matches(b, view) && Held(b.core, b.leg)
    requires var w := WalkEvents(b.core, b.leg, Due(b, view), true);
             1 in w.core.room && w.core.room[1] <= w.leg - w.core.share && Long(RefOf(w.core, w.leg))
    ensures var w := WalkEvents(b.core, b.leg, Due(b, view), true);
            var r := Walk(b, view, true).0;
            && 1 in r.core.room && r.core.room[1] == w.core.room[1]
            && r.cursor.Some? && r.blindSeq == b.blindSeq
  {
    hide WalkEvents, SortDue, Between, CapDoubt, Outside, AtLeast, SumDelta;
    WalkRefinesFold(b.core, b.leg, Due(b, view));
    WalkLeg(b.core, b.leg, Due(b, view), true);
    SortSums(Between(b.events, b.cursor.value, view.at), Direction(b.core.share));
    LimitsAreToward(WalkEvents(b.core, b.leg, Due(b, view), true).core.share, view.size);
  }
}

// Giving up an interval for want of one own fill costs nothing once the fill arrives:
// clamp and credit, the late booking net of the credit, and the re-judged gap end in the
// book a proven walk of the complete interval would have made.

module LegConverge {
  import opened Common
  import opened LegTypes
  import opened LegBook
  import opened LegFold
  import opened LegOrder
  import opened LegCredits
  import opened LegRuns

  /** Own executions of an unsigned leg, booked in full. */
  predicate OwnOnly(s: seq<LegEvent>) {
    forall e :: e in s ==> e.own && e.share == e.delta && e.credit == 0
  }

  /** Every reduce is covered by the share standing when it comes. */
  predicate Covers(share: int, due: seq<LegEvent>)
    decreases |due|
  {
    due == [] || (share + due[0].delta >= 0 && Covers(share + due[0].delta, due[1..]))
  }

  /** Nothing of the share is in doubt and no give-up left anything behind. */
  predicate Clean(c: Core, leg: int) {
    0 <= c.share <= leg && c.share <= c.journal && c.doubt == 0 && c.gaps == []
  }

  lemma OwnTail(due: seq<LegEvent>)
    requires OwnOnly(due) && due != []
    ensures due[0].own && due[0].share == due[0].delta && due[0].credit == 0 && OwnOnly(due[1..])
  {
  }

  lemma CoveredSum(share: int, due: seq<LegEvent>)
    requires Covers(share, due) && share >= 0
    ensures share + SumDelta(due) >= 0
    decreases |due|
  {
    if due == [] {
    } else {
      CoveredSum(share + due[0].delta, due[1..]);
    }
  }

  lemma CoversFirst(share: int, due: seq<LegEvent>)
    requires Covers(share, due) && due != []
    ensures share + due[0].delta >= 0 && Covers(share + due[0].delta, due[1..])
  {
  }

  /** Covered own executions move share and journal by their sum, proven or not, clip
      nothing and leave the foreign exposure alone. */
  lemma {:induction false} OwnWalk(c: Core, leg: int, due: seq<LegEvent>, proven: bool)
    requires Clean(c, leg) && OwnOnly(due) && Covers(c.share, due)
    ensures var w := WalkEvents(c, leg, due, proven);
            && w.outs == [] && w.leg == leg + SumDelta(due)
            && w.core == c.(share := c.share + SumDelta(due), journal := c.journal + SumDelta(due),
                            room := w.core.room)
            && Clean(w.core, w.leg)
    decreases |due|
  {
    if due == [] {
      WalkNone(c, leg, proven);
    } else {
      hide StepOf, Clean, OwnOnly, WalkEvents, SumDelta, Covers;
      OwnTail(due);
      SumFirst(due);
      CoversFirst(c.share, due);
      OwnStepPlain(c, leg, due[0], proven);
      WalkFirst(c, leg, due, proven);
      var s := StepOf(c, leg, due[0], proven);
      OwnWalk(s.core, s.leg, due[1..], proven);
      assert [] + WalkEvents(s.core, s.leg, due[1..], proven).outs == [];
    }
  }

  lemma OwnStepPlain(c: Core, leg: int, e: LegEvent, proven: bool)
    requires Clean(c, leg) && e.own && e.share == e.delta && c.share + e.delta >= 0
    ensures var s := StepOf(c, leg, e, proven);
            && s.outs == [] && s.leg == leg + e.delta && Clean(s.core, s.leg)
            && s.core == c.(share := c.share + e.delta, journal := c.journal + e.delta, room := s.core.room)
  {
  }

  lemma SortOwnOnly(s: seq<LegEvent>, dir: int)
    requires OwnOnly(s)
    ensures OwnOnly(SortDue(s, dir))
  {
    SortIn(s, dir);
  }

  /** The credits of earlier give-ups: each stamped at or before the cursor. */
  predicate Stale(credits: seq<Credit>, cursor: int) {
    forall k :: k in credits ==> k.at <= cursor && k.qty >= 0
  }

  /** In a reachable ledger they are, sequences counted from nothing. */
  lemma StampedStale(b: Book)
    requires Inv(b) && Stamped(b) && b.cursor.Some? && b.cursor.value >= 0
    ensures Stale(b.core.credits, b.cursor.value)
  {
  }

  /** An interval whose only missing execution is the own fill `m`, given up on `view`. */
  predicate Missing(b: Book, view: View, m: LegEvent) {
    && b.cursor.Some? && b.cursor.value < m.at <= view.at
    && Clean(b.core, b.leg) && Stale(b.core.credits, b.cursor.value)
    && var known := Between(b.events, b.cursor.value, view.at);
       && OwnOnly(known + [m]) && m.delta != 0
       && (forall e :: e in known ==> e.execId != m.execId)
       && Covers(b.core.share, SortDue(known, Direction(b.core.share)))
       && Covers(b.core.share, SortDue(known + [m], Direction(b.core.share)))
       && view.size == b.leg + SumDelta(known) + m.delta
  }

  lemma SumAppend(s: seq<LegEvent>, e: LegEvent)
    ensures SumDelta(s + [e]) == SumDelta(s) + e.delta
  {
    if s == [] {
      assert s + [e] == [e] && [e][1..] == [];
    } else {
      assert (s + [e])[1..] == s[1..] + [e];
    }
  }

  /** What a reduce takes beyond the foreign exposure: clamped at the give-up. */
  function Clamped(b: Book, m: LegEvent): int {
    Max(0, -m.delta - (b.leg - b.core.share))
  }

  /** The state the give-up leaves. */
  predicate GivenUp(b: Book, view: View, m: LegEvent, g: Book)
    requires b.cursor.Some?
  {
    var known := Between(b.events, b.cursor.value, view.at);
    var clamped := Clamped(b, m);
    var share := b.core.share + SumDelta(known) - clamped;
    && g.cursor == Some(view.at) && g.blindSeq == Some(view.at) && g.leg == view.size
    && g.core.share == share && share >= 0
    && g.core.journal == b.core.journal + SumDelta(known) - clamped
    && g.core.credits == (if clamped > 0 then LastCredits(b.core.credits + [Credit(view.at, clamped, 1)])
                          else b.core.credits)
    && g.core.doubt == share
    && (share > 0 ==> g.core.doubtSeq >= view.at)
    && (share > 0 ==> |g.core.gaps| == 1 && g.core.gaps[0] == OpenedGap(b, view).(doubt := share))
    && (share == 0 ==> g.core.gaps == [])
    && 1 in g.core.room && g.core.room[1] == view.size - share
    && Get(g.core.toNet, 1) == Get(b.core.toNet, 1) + clamped
  }

  lemma WalkUnproven(b: Book, view: View, m: LegEvent)
    requires b.cursor.Some? && Missing(b, view, m)
    ensures var known := Between(b.events, b.cursor.value, view.at);
            var w := Walk(b, view, false).0;
            && w.core == b.core.(share := b.core.share + SumDelta(known),
                                 journal := b.core.journal + SumDelta(known), room := w.core.room)
            && b.core.share + SumDelta(known) >= 0
            && b.core.share + SumDelta(known) + m.delta >= 0
  {
    hide WalkEvents, Between, SortDue, SumDelta;
    var known := Between(b.events, b.cursor.value, view.at);
    var dir := Direction(b.core.share);
    assert OwnOnly(known) by { assert forall e :: e in known ==> e in known + [m]; }
    SortOwnOnly(known, dir);
    OwnWalk(b.core, b.leg, SortDue(known, dir), false);
    SortSums(known, dir);
    SortSums(known + [m], dir);
    SumAppend(known, m);
    CoveredSum(b.core.share, SortDue(known, dir));
    CoveredSum(b.core.share, SortDue(known + [m], dir));
  }

  lemma GiveUpState(b: Book, view: View, m: LegEvent)
    requires b.cursor.Some? && Missing(b, view, m)
    ensures GivenUp(b, view, m, GiveUp(b, view).0)
  {
    hide Walk, Between, SortDue, SumDelta, OwnOnly, Covers;
    WalkUnproven(b, view, m);
    var c := Walk(b, view, false).0.core;
    ClampState(c, view, OpenedGap(b, view));
  }

  /** Clamping a share no doubt was held against. */
  lemma ClampState(c: Core, view: View, gap: LegGap)
    requires c.share >= 0 && c.doubt == 0 && c.gaps == [] && view.size >= 0
    ensures var r := ClampTo(c, view, gap);
            var clamped := Max(0, c.share - view.size);
            && r.share == c.share - clamped && r.journal == c.journal - clamped
            && r.credits == (if clamped > 0 then LastCredits(c.credits + [Credit(view.at, clamped, 1)])
                             else c.credits)
            && r.doubt == r.share
            && (r.share > 0 ==> r.doubtSeq >= view.at && r.gaps == [gap.(doubt := r.share)])
            && (r.share == 0 ==> r.gaps == [])
            && 1 in r.room && r.room[1] == view.size - r.share
            && Get(r.toNet, 1) == Get(c.toNet, 1) + clamped
  {
    hide AddDoubt, AddGap, HeldDoubt;
    var clamped := Max(0, c.share - view.size);
    var c1 := if clamped > 0 then TakeJournal(c.(share := view.size), clamped, 1) else c;
    var c2 := AddCredit(c1, view.at, clamped, Direction(c.share));
    FirstDoubt(c2, view.at, gap);
    assert ClampTo(c, view, gap) == NoteRoom(HeldDoubt(c2, view.at, gap).(room := map[]), view.size) by {
      ClampIs(c, view, gap);
    }
  }

  lemma ClampIs(c: Core, view: View, gap: LegGap)
    ensures var dir := Direction(c.share);
            var clamped := Excess(c.share, view.size);
            var c1 := if clamped > 0
                      then TakeJournal(c.(share := Along(Max(Along(view.size, dir), 0), dir)), clamped, dir)
                      else c;
            ClampTo(c, view, gap)
            == NoteRoom(HeldDoubt(AddCredit(c1, view.at, clamped, dir), view.at, gap).(room := map[]), view.size)
  {
  }

  /** The first doubt held against a share. */
  lemma FirstDoubt(c: Core, at: int, gap: LegGap)
    requires c.share >= 0 && c.doubt == 0 && c.gaps == []
    ensures var r := HeldDoubt(c, at, gap);
            && r.doubt == c.share && (c.share > 0 ==> r.doubtSeq >= at)
            && r.gaps == (if c.share > 0 then [gap.(doubt := c.share)] else [])
  {
  }

  /** The fill as it is booked late, net of the credit it takes. */
  function Booked(m: LegEvent, credit: int): LegEvent {
    m.(share := m.delta + credit, credit := credit)
  }

  /** The credit a late reduce takes of what the give-up left. */
  function TakenLate(g: Book, m: LegEvent): (seq<Credit>, int) {
    if m.delta < 0 then TakeCredit(g.core.credits, m.at, -m.delta, 1) else (g.core.credits, 0)
  }

  function LateFill(g: Book, m: LegEvent): Book
    requires g.cursor.Some? && g.blindSeq.Some?
  {
    var k := TakenLate(g, m);
    LateOwn(g.(core := g.core.(credits := k.0)), Booked(m, k.1)).0
  }

  /** A reduce behind every earlier give-up draws on the newest credit alone. */
  lemma NewestAlone(credits: seq<Credit>, cursor: int, k: Credit, at: int)
    requires Stale(credits, cursor) && cursor < at && k.qty >= 0
    ensures OpenCredit(credits, at, 1) == 0
    ensures OpenCredit(credits + [k], at, 1) == if Eligible(k, at, 1) then k.qty else 0
  {
    if credits == [] {
      assert credits + [k] == [k] && [k][1..] == [];
    } else {
      assert credits[0] in credits && forall x :: x in credits[1..] ==> x in credits;
      assert (credits + [k])[1..] == credits[1..] + [k];
      NewestAlone(credits[1..], cursor, k, at);
    }
  }

  /** The reduce takes exactly what the give-up clamped for it. */
  lemma CreditState(b: Book, view: View, m: LegEvent, g: Book)
    requires b.cursor.Some? && Missing(b, view, m) && GivenUp(b, view, m, g)
    ensures TakenLate(g, m).1 == Clamped(b, m)
  {
    hide Between, SortDue, SumDelta, OwnOnly, Covers, TakeCredit, OpenCredit;
    if m.delta < 0 {
      var clamped := Clamped(b, m);
      var k := Credit(view.at, clamped, 1);
      var all := b.core.credits;
      NewestAlone(all, b.cursor.value, k, m.at);
      if clamped > 0 {
        var kept := if |all| < MAX_CREDITS then all else all[|all| - MAX_CREDITS + 1..];
        assert LastCredits(all + [k]) == kept + [k];
        assert forall x :: x in kept ==> x in all;
        NewestAlone(kept, b.cursor.value, k, m.at);
      }
      assert forall x :: x in g.core.credits ==> x.qty >= 0;
      TakeExact(g.core.credits, m.at, -m.delta, 1);
    }
  }

  /** The state the late booking leaves: the share and journal of the whole interval, and,
      while a gap is kept, all its executions known. */
  predicate Caught(b: Book, view: View, m: LegEvent, l: Book)
    requires b.cursor.Some?
  {
    var known := Between(b.events, b.cursor.value, view.at);
    var share := b.core.share + SumDelta(known) + m.delta;
    && l.core.share == share && l.core.journal == b.core.journal + SumDelta(known) + m.delta
    && (l.core.gaps != [] && l.core.gaps[0].startSeq.Some? ==>
          && |l.core.gaps| == 1
          && l.core.gaps[0] == OpenedGap(b, view).(events := Put(known, Booked(m, Clamped(b, m))),
                                                   late := {m.execId}, doubt := l.core.gaps[0].doubt))
    && (l.core.gaps == [] ==> l.core.doubt == 0)
    && Get(l.core.toNet, 1) == Get(b.core.toNet, 1) + Clamped(b, m)
    && (l.core.gaps != [] && l.core.gaps[0].startSeq.None? <==>
          m.delta > 0 && m.at != view.at && b.core.share + SumDelta(known) == 0)
    && (l.core.gaps != [] && l.core.gaps[0].startSeq.None? ==>
          |l.core.gaps| == 1 && l.core.doubt == m.delta)
  }

  /** A late reduce the share covers only shrinks it. */
  lemma LateReduceCore(c: Core, leg: int, cursor: int, blind: int, e: LegEvent)
    requires e.share <= 0 <= c.share + e.share && c.share <= c.journal
    ensures LateCore(c, leg, cursor, blind, e).0
            == CapDoubt(LateResolve(LateShrink(c.(journal := c.journal + e.share), Direction(c.share), -e.share,
                                               e.at <= blind), e).(share := c.share + e.share))
  {
    hide LateResolve, LateShrink, CapDoubt, AddGap;
  }

  /** A late open the room holds is kept whole. */
  lemma LateOpenCore(c: Core, leg: int, cursor: int, blind: int, e: LegEvent)
    requires e.share > 0 && 0 <= c.share <= c.journal && 1 in c.room && e.share <= c.room[1]
    ensures LateCore(c, leg, cursor, blind, e).0
            == CapDoubt(LateDoubt(LateResolve(c.(journal := c.journal + e.share), e)
                                  .(share := c.share + e.share, room := c.room[1 := c.room[1] - e.share]),
                                  leg, cursor, blind, e, e.share))
  {
    hide LateResolve, LateDoubt, CapDoubt, AddGap;
  }

  lemma ReduceCaught(b: Book, view: View, m: LegEvent, g: Book)
    requires b.cursor.Some? && Missing(b, view, m) && GivenUp(b, view, m, g) && m.delta < 0
    requires b.core.share + SumDelta(Between(b.events, b.cursor.value, view.at)) + m.delta >= 0
    ensures Caught(b, view, m, LateFill(g, m))
  {
    hide Between, SortDue, SumDelta, OwnOnly, Covers, AddGap, NoteSides, Put, LateCore;
    CreditState(b, view, m, g);
    var e := Booked(m, Clamped(b, m));
    LateReduceCore(g.core.(credits := TakenLate(g, m).0), g.leg, view.at, view.at, e);
  }

  lemma OpenCaught(b: Book, view: View, m: LegEvent, g: Book)
    requires b.cursor.Some? && Missing(b, view, m) && GivenUp(b, view, m, g) && m.delta > 0
    ensures Caught(b, view, m, LateFill(g, m))
  {
    hide Between, SortDue, SumDelta, OwnOnly, Covers, NoteSides, Put, LateCore;
    CreditState(b, view, m, g);
    LateOpenCore(g.core, g.leg, view.at, view.at, Booked(m, 0));
  }

  lemma RestatedSame(s: seq<LegEvent>)
    requires OwnOnly(s)
    ensures Restated(s) == s
  {
  }

  lemma RestatedAppend(s: seq<LegEvent>, e: LegEvent)
    ensures Restated(s + [e])
            == Restated(s) + [if e.own then e.(share := e.OwnShare(), credit := 0) else e]
  {
    if s == [] {
      assert s + [e] == [e] && [e][1..] == [];
    } else {
      assert (s + [e])[1..] == s[1..] + [e];
      RestatedAppend(s[1..], e);
    }
  }

  lemma BetweenAgain(s: seq<LegEvent>, lo: int, hi: int)
    requires forall e :: e in s ==> lo < e.at <= hi
    ensures Between(s, lo, hi) == s
  {
  }

  /** A fill booked late, restated, is the fill the venue made. */
  lemma FillRestated(events: seq<LegEvent>, m: LegEvent, credit: int)
    requires OwnOnly(events) && m.own && m.share == m.delta && m.credit == 0
    requires 0 <= credit <= Max(0, -m.delta)
    ensures Restated(events + [Booked(m, credit)]) == events + [m]
    ensures SumDelta(events + [Booked(m, credit)]) == SumDelta(events) + m.delta
  {
    hide SumDelta, OwnOnly, Restated;
    var e := Booked(m, credit);
    SumAppend(events, e);
    RestatedSame(events);
    RestatedAppend(events, e);
    assert e.(share := e.OwnShare(), credit := 0) == m;
  }

  /** The completed gap restates the interval with the fill as the venue made it. */
  lemma GapRestated(b: Book, view: View, m: LegEvent)
    requires b.cursor.Some? && Missing(b, view, m) && Clamped(b, m) <= Max(0, -m.delta)
    ensures var events := Between(b.events, b.cursor.value, view.at);
            var all := Put(events, Booked(m, Clamped(b, m)));
            && SumDelta(all) == SumDelta(events) + m.delta
            && Restated(all) == events + [m]
            && Between(events + [m], b.cursor.value, view.at) == events + [m]
  {
    hide SortDue, SumDelta, Covers, Stale, Between, Restated, Put, Clamped;
    var events := Between(b.events, b.cursor.value, view.at);
    BetweenIn(b.events, b.cursor.value, view.at);
    assert forall e :: e in events ==> e in events + [m];
    assert m in events + [m];
    PutFresh(events, Booked(m, Clamped(b, m)));
    FillRestated(events, m, Clamped(b, m)) by { assert Clamped(b, m) >= 0 by { ClampedNonneg(b, m); } }
    BetweenAgain(events + [m], b.cursor.value, view.at);
  }

  lemma ClampedNonneg(b: Book, m: LegEvent)
    ensures Clamped(b, m) >= 0
  {
  }

  /** The completed gap re-walks to the proven walk of the interval: it charges nothing. */
  lemma RewalkQuiet(b: Book, view: View, m: LegEvent, g: LegGap, known: set<int>)
    requires b.cursor.Some? && Missing(b, view, m) && view.at in known && Clamped(b, m) <= Max(0, -m.delta)
    requires var events := Between(b.events, b.cursor.value, view.at);
             g == OpenedGap(b, view).(events := Put(events, Booked(m, Clamped(b, m))),
                                      late := {m.execId}, doubt := g.doubt)
    ensures Complete(g, known) && Rewalk(g) == []
  {
    hide WalkEvents, SortDue, CapDoubt, SumDelta, Covers, Between, Restated, Put, OwnOnly, Stale, NoteRoom;
    var events := Between(b.events, b.cursor.value, view.at);
    var dir := Direction(b.core.share);
    GapRestated(b, view, m);
    SortOwnOnly(events + [m], dir);
    var c := Core(b.core.share, b.core.journal, 0, 0, [], map[], [], map[]);
    OwnWalk(c, b.leg, SortDue(events + [m], dir), true);
  }

  lemma SettleOne(c: Core, known: set<int>)
    requires |c.gaps| == 1 && !c.gaps[0].settled && Complete(c.gaps[0], known) && Rewalk(c.gaps[0]) == []
    ensures var r := SettleFrom(c, known, 0).0;
            r.doubt == 0 && r.gaps == [] && r == c.(doubt := 0, gaps := [])
  {
    hide Rewalk, Complete;
    assert c.gaps[..0] + c.gaps[1..] == [];
    assert !Guessed([]);
  }

  lemma SettleStuck(c: Core, known: set<int>)
    requires |c.gaps| == 1 && c.gaps[0].startSeq.None?
    ensures SettleFrom(c, known, 0).0 == c
  {
  }

  /** The whole detour: given up, caught up late, judged again. */
  function Recovered(b: Book, view: View, m: LegEvent, known: set<int>): Book
    requires b.cursor.Some?
  {
    SettleGaps(LateFill(GiveUp(b, view).0, m), known).0
  }

  /** The interval walked in order with every execution known. */
  function InOrder(b: Book, view: View, m: LegEvent): Book
    requires b.cursor.Some?
  {
    Walk(b.(events := b.events + [m]), view, true).0
  }

  lemma InOrderState(b: Book, view: View, m: LegEvent)
    requires b.cursor.Some? && Missing(b, view, m)
    ensures var known := Between(b.events, b.cursor.value, view.at);
            var r := InOrder(b, view, m);
            && r.core.share == b.core.share + SumDelta(known) + m.delta
            && r.core.journal == b.core.journal + SumDelta(known) + m.delta
            && r.core.doubt == 0 && r.core.toNet == b.core.toNet
            && Matches(b.(events := b.events + [m]), view)
  {
    hide WalkEvents, SortDue, SumDelta, Covers, OwnOnly;
    var known := Between(b.events, b.cursor.value, view.at);
    var dir := Direction(b.core.share);
    BetweenAppend(b.events, m, b.cursor.value, view.at);
    SortOwnOnly(known + [m], dir);
    OwnWalk(b.core, b.leg, SortDue(known + [m], dir), true);
    SortSums(known + [m], dir);
    SumAppend(known, m);
    var c := WalkEvents(b.core, b.leg, SortDue(known + [m], dir), true).core;
    LimitsAreToward(c.share, view.size);
  }

  lemma BetweenAppend(s: seq<LegEvent>, e: LegEvent, lo: int, hi: int)
    requires lo < e.at <= hi
    ensures Between(s + [e], lo, hi) == Between(s, lo, hi) + [e]
  {
    if s == [] {
      assert s + [e] == [e] && [e][1..] == [];
    } else {
      assert (s + [e])[1..] == s[1..] + [e];
      BetweenAppend(s[1..], e, lo, hi);
    }
  }

  /** Give-up converges. Once the missing own fill has arrived and the gap is judged again,
      share and journal are those of the proven walk in order; what the booking and the
      verdict took off the rows together is the reduce once; and no doubt is left, except
      for an opening fill before the view into a share that was nothing there. */
  lemma GiveUpConverges(b: Book, view: View, m: LegEvent, known: set<int>)
    requires b.cursor.Some? && Missing(b, view, m) && view.at in known
    ensures var r := Recovered(b, view, m, known).core;
            var s := InOrder(b, view, m).core;
            && r.share == s.share && r.journal == s.journal && s.doubt == 0
            && (var verdict := Get(r.toNet, 1) - Get(b.core.toNet, 1);
                var booking := Max(0, -m.delta) - TakenLate(GiveUp(b, view).0, m).1;
                verdict >= 0 && booking >= 0 && verdict + booking == Max(0, -m.delta))
            && (r.doubt == 0 <==>
                  m.delta < 0 || m.at == view.at
                  || b.core.share + SumDelta(Between(b.events, b.cursor.value, view.at)) > 0)
  {
    hide GiveUp, Between, SortDue, SumDelta, OwnOnly, Covers, Walk, SettleFrom, LateFill, OpenedGap;
    var g := GiveUp(b, view).0;
    WalkUnproven(b, view, m);
    GiveUpState(b, view, m);
    CreditState(b, view, m, g);
    if m.delta < 0 {
      ReduceCaught(b, view, m, g);
    } else {
      OpenCaught(b, view, m, g);
    }
    InOrderState(b, view, m);
    var l := LateFill(g, m).core;
    if l.gaps == [] {
      NoGaps(l, known);
    } else if l.gaps[0].startSeq.None? {
      SettleStuck(l, known);
    } else {
      RewalkQuiet(b, view, m, l.gaps[0], known);
      assert !l.gaps[0].settled by { OpenedUnsettled(b, view); }
      SettleOne(l, known);
    }
  }

  /** The whole of an opening fill stamped before the view, into a share that was nothing, stays
      in doubt, though the fill is known and booked. */
  lemma OpenStaysDoubted(b: Book, view: View, m: LegEvent, known: set<int>)
    requires b.cursor.Some? && Missing(b, view, m) && m.delta > 0 && m.at != view.at
    requires b.core.share + SumDelta(Between(b.events, b.cursor.value, view.at)) == 0
    ensures Recovered(b, view, m, known).core.doubt == m.delta
  {
    hide GiveUp, Between, SortDue, SumDelta, OwnOnly, Covers, Walk, SettleFrom, LateFill, OpenedGap;
    var g := GiveUp(b, view).0;
    GiveUpState(b, view, m);
    OpenCaught(b, view, m, g);
    SettleStuck(LateFill(g, m).core, known);
  }

  /** A flat leg on which an own open is missed. */
  lemma OpenStaysInput() returns (b: Book, view: View, m: LegEvent)
    ensures Inv(b) && b.cursor.Some? && Missing(b, view, m) && m.delta == 3 && m.at != view.at
    ensures b.core.share + SumDelta(Between(b.events, b.cursor.value, view.at)) == 0
    ensures forall known :: Recovered(b, view, m, known).core.doubt == 3
  {
    hide Recovered;
    m, view := LegEvent("own", 1, 3, true, 3, 0, User), View(2, 3);
    b := Book([view], [], Some(0), Some(0), 0, None, 2, None, Some(0),
              Core(0, 0, 0, 0, [], map[1 := 0, -1 := 0], [], map[]));
    OneFill(m);
    forall known
      ensures Recovered(b, view, m, known).core.doubt == 3
    {
      OpenStaysDoubted(b, view, m, known);
    }
  }

  lemma OneFill(m: LegEvent)
    requires m.own && m.share == m.delta && m.credit == 0 && m.delta >= 0
    ensures OwnOnly([] + [m]) && SortDue([] + [m], 0) == [m] && SumDelta([]) == 0 && Covers(0, []) && Covers(0, [m])
    ensures SortDue([], 0) == []
  {
  }

  lemma OpenedUnsettled(b: Book, view: View)
    requires b.cursor.Some?
    ensures !OpenedGap(b, view).settled
  {
  }
}

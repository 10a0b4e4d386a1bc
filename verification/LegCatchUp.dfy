// An own fill that is missing from a given-up interval and arrives later still: executions
// were recorded and intervals proven since, on the ledger that lacked it. Share and journal
// end as on the ledger that walked the interval in order and went on from there.

module LegCatchUp {
  import opened Common
  import opened LegTypes
  import opened LegBook
  import opened LegFold
  import opened LegOrder
  import opened LegDoubt
  import opened LegJump
  import opened LegArrival
  import opened LegLate
  import opened LegCredits
  import opened LegConverge

  /** An interval of covered own executions whose only missing one is `m`; earlier doubt, gaps and
      credits may be left. */
  predicate Lacking(b: Book, view: View, m: LegEvent) {
    && b.cursor.Some? && b.cursor.value < m.at <= view.at
    && 0 <= b.core.share <= b.leg && b.core.share <= b.core.journal && b.core.doubt >= 0
    && Stale(b.core.credits, b.cursor.value)
    && var known := Between(b.events, b.cursor.value, view.at);
       && OwnOnly(known + [m]) && m.delta != 0
       && Covers(b.core.share, SortDue(known, Direction(b.core.share)))
       && Covers(b.core.share, SortDue(known + [m], Direction(b.core.share)))
       && view.size == b.leg + SumDelta(known) + m.delta
  }

  // ---- The interval, without the fill and with it ---------------------------------------------------

  /** Covered own executions move share and journal by their sum, proven or not. */
  lemma {:induction false} OwnSum(c: Core, leg: int, due: seq<LegEvent>, proven: bool)
    requires 0 <= c.share <= leg && c.share <= c.journal && c.doubt >= 0 && OwnOnly(due) && Covers(c.share, due)
    ensures var w := WalkEvents(c, leg, due, proven);
            && w.leg == leg + SumDelta(due) && 0 <= w.core.share <= w.leg && w.core.doubt >= 0
            && w.core.share == c.share + SumDelta(due) && w.core.journal == c.journal + SumDelta(due)
            && w.core.credits == c.credits && w.core.doubtSeq == c.doubtSeq
    decreases |due|
  {
    hide StepOf, WalkEvents, OwnOnly, Covers, SumDelta;
    if due == [] {
      WalkNone(c, leg, proven);
      NoDue();
    } else {
      OwnTail(due);
      CoversFirst(c.share, due);
      SumFirst(due);
      WalkFirst(c, leg, due, proven);
      OwnOne(c, leg, due[0], proven);
      var s := StepOf(c, leg, due[0], proven);
      OwnSum(s.core, s.leg, due[1..], proven);
    }
  }

  lemma OwnOne(c: Core, leg: int, e: LegEvent, proven: bool)
    requires 0 <= c.share <= leg && c.share <= c.journal && c.doubt >= 0
    requires e.own && e.share == e.delta && c.share + e.delta >= 0
    ensures var s := StepOf(c, leg, e, proven);
            && s.leg == leg + e.delta && s.core.doubt >= 0
            && s.core.share == c.share + e.delta && s.core.journal == c.journal + e.delta
            && s.core.credits == c.credits && s.core.doubtSeq == c.doubtSeq
  {
    hide NoteSides, CapGaps;
  }

  /** The interval given up for want of the fill. */
  lemma GivenUpWithout(b: Book, view: View, m: LegEvent)
    requires b.cursor.Some? && Lacking(b, view, m)
    ensures var known := SumDelta(Between(b.events, b.cursor.value, view.at));
            var c, g := Walk(b, view, false).0.core, GiveUp(b, view).0;
            var clamped := Max(0, b.core.share + known - view.size);
            && LongAt(b, view) && b.core.share + known >= 0 && b.core.share + known + m.delta >= 0
            && g.core.share == b.core.share + known - clamped && g.core.journal == b.core.journal + known - clamped
            && g.core.credits == (if clamped > 0 then LastCredits(b.core.credits + [Credit(view.at, clamped, 1)])
                                  else b.core.credits)
            && g.core.doubt >= g.core.share && (g.core.share > 0 ==> g.core.doubtSeq >= view.at)
            && 1 in g.core.room && g.core.room[1] == view.size - g.core.share
            && Held(g.core, g.leg) && Long(RefOf(g.core, g.leg)) && g.leg == view.size
            && g == Walk(b, view, false).0.(core := g.core, blindSeq := Some(view.at))
  {
    hide Walk, WalkEvents, Between, SortDue, SumDelta, OwnOnly, Covers, ClampTo, Stale;
    var known := Between(b.events, b.cursor.value, view.at);
    var dir := Direction(b.core.share);
    assert OwnOnly(known) by { OwnPart(known, m); }
    SortOwnOnly(known, dir);
    SortOwnOnly(known + [m], dir);
    OwnSum(b.core, b.leg, SortDue(known, dir), false);
    OwnSum(b.core, b.leg, SortDue(known + [m], dir), false);
    SortSums(known, dir);
    SortSums(known + [m], dir);
    SumAppend(known, m);
    UnprovenShare(b, view);
    UnprovenRest(b, view);
    GiveUpHolds(b, view);
    ClampDoubts(Walk(b, view, false).0.core, view, OpenedGap(b, view));
  }

  lemma OwnPart(s: seq<LegEvent>, m: LegEvent)
    requires OwnOnly(s + [m])
    ensures OwnOnly(s) && m.own && m.share == m.delta && m.credit == 0
  {
    assert m in s + [m] && forall e :: e in s ==> e in s + [m];
  }

  lemma UnprovenRest(b: Book, view: View)
    requires b.cursor.Some?
    ensures var w := WalkEvents(b.core, b.leg, Due(b, view), false).core;
            var c := Walk(b, view, false).0.core;
            c.credits == w.credits && c.doubtSeq == w.doubtSeq && (w.doubt >= 0 ==> c.doubt >= 0)
  {
    hide WalkEvents, SortDue, Between, Outside, AtLeast, CapGaps;
  }

  lemma ClampDoubts(c: Core, view: View, gap: LegGap)
    requires 0 <= c.share <= c.journal && c.doubt >= 0 && view.size >= 0
    ensures var r := ClampTo(c, view, gap);
            var clamped := Max(0, c.share - view.size);
            && r.credits == (if clamped > 0 then LastCredits(c.credits + [Credit(view.at, clamped, 1)]) else c.credits)
            && r.doubt >= r.share && (r.share > 0 ==> r.doubtSeq >= view.at)
  {
    hide AddGap, LastCredits, CapGaps;
  }

  /** The interval walked in order with the fill in it. */
  lemma WalkedWith(b: Book, view: View, m: LegEvent)
    requires b.cursor.Some? && Lacking(b, view, m)
    ensures var known := SumDelta(Between(b.events, b.cursor.value, view.at));
            var r := InOrder(b, view, m);
            && r.core.share == b.core.share + known + m.delta && r.core.journal == b.core.journal + known + m.delta
            && Held(r.core, r.leg) && Long(RefOf(r.core, r.leg)) && r.leg == view.size && r.cursor == Some(view.at)
  {
    hide Walk, WalkEvents, SortDue, Between, SumDelta, OwnOnly, Covers, Stale;
    var known := Between(b.events, b.cursor.value, view.at);
    var k := b.(events := b.events + [m]);
    var dir := Direction(b.core.share);
    BetweenAppend(b.events, m, b.cursor.value, view.at);
    SortOwnOnly(known + [m], dir);
    OwnSum(b.core, b.leg, SortDue(known + [m], dir), true);
    SortSums(known + [m], dir);
    SumAppend(known, m);
    assert Matches(k, view);
    ProvenWalkIsFold(k, view);
    WalkIsAs(k, view);
    WalkEnds(k, view, dir);
  }

  /** Both have the same views and executions left. */
  lemma SameAfter(b: Book, view: View, m: LegEvent)
    requires b.cursor.Some? && b.cursor.value < m.at <= view.at
    ensures SameEvidence(GiveUp(b, view).0, InOrder(b, view, m))
  {
    hide WalkEvents, SortDue, Between, Outside, AtLeast, ClampTo, CapDoubt, NoteRoom;
    LastBetween(b.events, m, b.cursor.value, view.at);
  }

  // ---- A missing open --------------------------------------------------------------------------------

  /** The late opening fill brings share and journal to those of the ledger that had it in order,
      whatever was recorded and proven in between. */
  lemma LateOpenConverges(b: Book, view: View, m: LegEvent, rounds: seq<Round>)
    requires b.cursor.Some? && Lacking(b, view, m) && m.delta > 0 && Proven(GiveUp(b, view).0, rounds)
    ensures var x, y := GiveUp(b, view).0, InOrder(b, view, m);
            && y.cursor.Some?
            && var late, replay := LateFill(Rounds(x, rounds), m).core, Rounds(y, rounds).core;
               late.share == replay.share && late.journal == replay.journal
  {
    hide Walk, GiveUp, InOrder, Between, SortDue, SumDelta, OwnOnly, Covers, Stale, Rounds, LateOwn, Proven;
    GivenUpWithout(b, view, m);
    WalkedWith(b, view, m);
    SameAfter(b, view, m);
    LateEqualsReplay(GiveUp(b, view).0, InOrder(b, view, m), rounds, Booked(m, 0));
  }

  // ---- A missing reduce --------------------------------------------------------------------------------

  /** What of a reduce of `quantity` at `at` no credit stands for yet. */
  function Owing(c: Core, quantity: int, at: int): int {
    quantity - Min(quantity, OpenCredit(c.credits, at, 1))
  }

  /** `a` lacks the reduce that `b` has: it holds more by what no credit stands for, and doubts at
      least that much. */
  predicate Ahead(a: Core, b: Core, leg: int, quantity: int, at: int) {
    var owing := Owing(a, quantity, at);
    && Held(a, leg) && Long(RefOf(a, leg)) && Held(b, leg) && Long(RefOf(b, leg)) && quantity >= 0
    && a.share == b.share + owing && a.journal == b.journal + owing
    && a.doubt >= owing && (owing > 0 ==> a.doubtSeq >= at) && Stock(a.credits)
  }

  lemma OpenAppend(credits: seq<Credit>, k: Credit, at: int)
    ensures OpenCredit(credits + [k], at, 1) == OpenCredit(credits, at, 1) + if Eligible(k, at, 1) then k.qty else 0
  {
    if credits == [] {
      assert credits + [k] == [k] && [k][1..] == [];
    } else {
      assert (credits + [k])[1..] == credits[1..] + [k];
      OpenAppend(credits[1..], k, at);
    }
  }

  /** What a proven step credits is what it drew of the doubt. */
  lemma StepCredits(c: Core, leg: int, e: LegEvent)
    requires Held(c, leg)
    ensures var s := StepOf(c, leg, e, true).core;
            var drawn := Drawn(RefOf(c, leg), c.doubt, e);
            && s.doubtSeq == c.doubtSeq
            && s.credits == (if drawn > 0 then LastCredits(c.credits + [Credit(c.doubtSeq, drawn, Direction(c.share))])
                             else c.credits)
  {
    hide OwnStep, ForeignStep, Drawn;
    if e.own {
      OwnCredits(c, leg, e);
    } else {
      ForeignCredits(c, leg, e);
    }
  }

  lemma OwnCredits(c: Core, leg: int, e: LegEvent)
    requires e.own
    ensures OwnStep(c, leg, e, true).core.doubtSeq == c.doubtSeq
    ensures OwnStep(c, leg, e, true).core.credits == c.credits && Drawn(RefOf(c, leg), c.doubt, e) == 0
  {
    hide CapDoubt, NoteRoom, Bounded, Capped, RefStep;
  }

  lemma ForeignCredits(c: Core, leg: int, e: LegEvent)
    requires Held(c, leg) && !e.own
    ensures var s := ForeignStep(c, leg, e, true).core;
            var drawn := Drawn(RefOf(c, leg), c.doubt, e);
            && s.doubtSeq == c.doubtSeq
            && s.credits == (if drawn > 0 then LastCredits(c.credits + [Credit(c.doubtSeq, drawn, Direction(c.share))])
                             else c.credits)
  {
    hide CapDoubt, NoteRoom, LastCredits, Charge, Drawn;
    ChargeDrawn(c, leg, e);
    ChargedInHand(c, leg, e);
  }

  lemma ChargedInHand(c: Core, leg: int, e: LegEvent)
    ensures Charge(c, leg, e, true).1 >= 0 && (Charge(c, leg, e, true).1 > 0 ==> c.share != 0)
  {
  }

  /** What the step does to a share on an unsigned leg. */
  lemma PlainStep(r: Ref, d: int, e: LegEvent)
    requires Long(r) && Plain(r, e) && d >= 0
    ensures var next := RefStep(r, e);
            if e.own then next.share == r.share + e.share && next.journal == r.journal + e.share && Drawn(r, d, e) == 0
                          && Left(r, d, e) == Min(d, next.share)
            else next.share == Min(r.share, next.leg) && next.journal == r.journal - (r.share - next.share)
                 && Drawn(r, d, e) == Min(r.share - next.share, d)
                 && Left(r, d, e) == Min(d - Drawn(r, d, e), next.share)
  {
  }

  lemma PlainAhead(a: Ref, b: Ref, e: LegEvent)
    requires Long(a) && Long(b) && a.leg == b.leg && a.share >= b.share && Plain(b, e)
    ensures Plain(a, e)
  {
  }

  /** Credits after the step, the oldest none evicted. */
  lemma OwingAfter(c: Core, leg: int, e: LegEvent, quantity: int, at: int)
    requires Held(c, leg) && Long(RefOf(c, leg)) && Stock(c.credits) && quantity >= 0
    requires Drawn(RefOf(c, leg), c.doubt, e) > 0 ==> |c.credits| < MAX_CREDITS && c.share > 0
    requires Owing(c, quantity, at) > 0 ==> c.doubtSeq >= at
    requires Drawn(RefOf(c, leg), c.doubt, e) >= 0
    ensures var s := StepOf(c, leg, e, true).core;
            && Owing(s, quantity, at) == Max(0, Owing(c, quantity, at) - Drawn(RefOf(c, leg), c.doubt, e))
            && Stock(s.credits) && s.doubtSeq == c.doubtSeq
            && |s.credits| == |c.credits| + (if Drawn(RefOf(c, leg), c.doubt, e) > 0 then 1 else 0)
  {
    hide StepOf, Drawn, Held, Long, OpenCredit;
    StepCredits(c, leg, e);
    var drawn := Drawn(RefOf(c, leg), c.doubt, e);
    if drawn > 0 {
      OpenAppend(c.credits, Credit(c.doubtSeq, drawn, 1), at);
    }
  }

  /** One proven step keeps the one ledger ahead by what no credit stands for. */
  lemma StepAhead(a: Core, b: Core, leg: int, e: LegEvent, quantity: int, at: int)
    requires Ahead(a, b, leg, quantity, at) && Plain(RefOf(b, leg), e)
    requires Drawn(RefOf(a, leg), a.doubt, e) > 0 ==> |a.credits| < MAX_CREDITS
    ensures var s, t := StepOf(a, leg, e, true), StepOf(b, leg, e, true);
            && s.leg == t.leg && Ahead(s.core, t.core, s.leg, quantity, at)
            && |s.core.credits| == |a.credits| + (if Drawn(RefOf(a, leg), a.doubt, e) > 0 then 1 else 0)
  {
    hide StepOf, Drawn, Left, RefStep, Owing, Stock, Verdicts, Held, Long, Plain;
    AheadIs(a, b, leg, quantity, at);
    PlainAhead(RefOf(a, leg), RefOf(b, leg), e) by { LongOrder(a, b, leg, quantity, at); }
    OwingNonneg(a, quantity, at);
    PlainStep(RefOf(a, leg), a.doubt, e);
    PlainStep(RefOf(b, leg), 0, e);
    StepRefines(a, leg, e);
    StepRefines(b, leg, e);
    PlainKeepsLong(RefOf(a, leg), e);
    PlainKeepsLong(RefOf(b, leg), e);
    StepDoubt(a, leg, e);
    DrawnNonneg(RefOf(a, leg), a.doubt, e);
    OwingAfter(a, leg, e, quantity, at);
    StepLeg(a, leg, e, true);
    StepLeg(b, leg, e, true);
  }

  lemma AheadIs(a: Core, b: Core, leg: int, quantity: int, at: int)
    requires Ahead(a, b, leg, quantity, at)
    ensures var owing := Owing(a, quantity, at);
            && Held(a, leg) && Long(RefOf(a, leg)) && Held(b, leg) && Long(RefOf(b, leg)) && quantity >= 0
            && a.share == b.share + owing && a.journal == b.journal + owing
            && a.doubt >= owing && (owing > 0 ==> a.doubtSeq >= at) && Stock(a.credits)
  {
  }

  lemma LongOrder(a: Core, b: Core, leg: int, quantity: int, at: int)
    requires Ahead(a, b, leg, quantity, at)
    ensures a.share >= b.share
  {
    OwingNonneg(a, quantity, at);
  }

  lemma OwingNonneg(c: Core, quantity: int, at: int)
    ensures Owing(c, quantity, at) >= 0
  {
  }

  /** How many executions draw on the doubt. */
  function DrawCount(r: Ref, d: int, due: seq<LegEvent>): nat
    decreases |due|
  {
    if due == [] then 0
    else (if Drawn(r, d, due[0]) > 0 then 1 else 0) + DrawCount(RefStep(r, due[0]), Left(r, d, due[0]), due[1..])
  }

  lemma CountFirst(r: Ref, d: int, due: seq<LegEvent>)
    requires due != []
    ensures DrawCount(r, d, due)
            == (if Drawn(r, d, due[0]) > 0 then 1 else 0) + DrawCount(RefStep(r, due[0]), Left(r, d, due[0]), due[1..])
  {
  }

  lemma {:induction false} WalkAhead(a: Core, b: Core, leg: int, due: seq<LegEvent>, quantity: int, at: int)
    requires Ahead(a, b, leg, quantity, at) && PlainFold(RefOf(b, leg), due)
    requires |a.credits| + DrawCount(RefOf(a, leg), a.doubt, due) <= MAX_CREDITS
    ensures var v, w := WalkEvents(a, leg, due, true), WalkEvents(b, leg, due, true);
            v.leg == w.leg && Ahead(v.core, w.core, v.leg, quantity, at)
    decreases |due|
  {
    hide StepOf, WalkEvents, Drawn, Left, RefStep, Ahead, PlainFold, Plain, DrawCount, Verdicts, Held;
    if due == [] {
      WalkNone(a, leg, true);
      WalkNone(b, leg, true);
    } else {
      var e := due[0];
      WalkFirst(a, leg, due, true);
      WalkFirst(b, leg, due, true);
      LeastFirst(RefOf(b, leg), due, 0);
      CountFirst(RefOf(a, leg), a.doubt, due);
      AheadIs(a, b, leg, quantity, at);
      StepAhead(a, b, leg, e, quantity, at);
      StepRefines(a, leg, e);
      StepRefines(b, leg, e);
      StepDoubt(a, leg, e);
      var s, t := StepOf(a, leg, e, true), StepOf(b, leg, e, true);
      WalkAhead(s.core, t.core, s.leg, due[1..], quantity, at);
    }
  }

  /** Two ledgers, the one lacking the reduce. */
  predicate Behind(x: Book, y: Book, quantity: int, at: int) {
    && x.cursor.Some? && SameEvidence(x, y) && Ahead(x.core, y.core, x.leg, quantity, at)
  }

  /** No credit is evicted while the rounds are walked. */
  predicate Roomy(x: Book, rounds: seq<Round>)
    requires x.cursor.Some?
    decreases |rounds|
  {
    rounds == []
    || (var k, view := Record(x, rounds[0].recorded), rounds[0].view;
        && |k.core.credits| + DrawCount(RefOf(k.core, k.leg), k.core.doubt, Due(k, view)) <= MAX_CREDITS
        && Roomy(Walk(k, view, true).0, rounds[1..]))
  }

  lemma EndedAhead(a: Core, b: Core, view: View, quantity: int, at: int)
    requires Ahead(a, b, view.size, quantity, at)
    ensures Ahead(Ended(a, view), Ended(b, view), view.size, quantity, at)
  {
    hide NoteSides, CapGaps;
    LimitsAreToward(a.share, view.size);
    LimitsAreToward(b.share, view.size);
    assert a.(share := Capped(a.share, view.size)) == a && b.(share := Capped(b.share, view.size)) == b;
    OwingNonneg(a, quantity, at);
  }

  lemma DueBehind(x: Book, y: Book, view: View, quantity: int, at: int)
    requires Behind(x, y, quantity, at) && Matches(y, view)
    requires y.core.share == 0 ==> SameOrder(Between(y.events, y.cursor.value, view.at), 0, 1)
    ensures Due(x, view) == Due(y, view) && Matches(x, view)
  {
    hide Between, SortDue, SumDelta, SameOrder;
    AheadIs(x.core, y.core, x.leg, quantity, at);
    LongOrder(x.core, y.core, x.leg, quantity, at);
    if Direction(x.core.share) != Direction(y.core.share) {
      SortSame(Between(y.events, y.cursor.value, view.at), 0, 1);
    }
  }

  /** A proven walk keeps them so. */
  lemma WalkBehind(x: Book, y: Book, view: View, quantity: int, at: int)
    requires Behind(x, y, quantity, at) && Matches(y, view) && PlainFold(RefOf(y.core, y.leg), Due(y, view))
    requires y.core.share == 0 ==> SameOrder(Between(y.events, y.cursor.value, view.at), 0, 1)
    requires |x.core.credits| + DrawCount(RefOf(x.core, x.leg), x.core.doubt, Due(x, view)) <= MAX_CREDITS
    ensures Behind(Walk(x, view, true).0, Walk(y, view, true).0, quantity, at)
  {
    hide Walk, WalkEvents, Ended, Ahead, PlainFold, DrawCount, Held, SameOrder, Between, SortDue, Matches, Calm;
    DueBehind(x, y, view, quantity, at);
    AheadIs(x.core, y.core, x.leg, quantity, at);
    WalkBesideBook(x, y, view);
    WalkAhead(x.core, y.core, x.leg, Due(y, view), quantity, at);
    WalkIsAs(x, view);
    WalkIsAs(y, view);
    WalkEnds(x, view, Direction(x.core.share));
    EndedAhead(WalkEvents(x.core, x.leg, Due(x, view), true).core, WalkEvents(y.core, y.leg, Due(y, view), true).core,
               view, quantity, at);
  }

  lemma {:induction false} RoundsBehind(x: Book, y: Book, rounds: seq<Round>, quantity: int, at: int)
    requires Behind(x, y, quantity, at) && Proven(y, rounds) && Roomy(x, rounds)
    ensures Behind(Rounds(x, rounds), Rounds(y, rounds), quantity, at)
    decreases |rounds|
  {
    if rounds == [] {
    } else {
      hide Record, Walk, Due, Matches, PlainFold, SameOrder, Ahead, DrawCount;
      var k, l := Record(x, rounds[0].recorded), Record(y, rounds[0].recorded);
      RecordBeside(x, y, rounds[0].recorded);
      assert Behind(k, l, quantity, at);
      WalkBehind(k, l, rounds[0].view, quantity, at);
      RoundsBehind(Walk(k, rounds[0].view, true).0, Walk(l, rounds[0].view, true).0, rounds[1..], quantity, at);
    }
  }

  /** The reduce booked late, net of the credits standing for it, makes up the difference. */
  lemma ReduceArrives(x: Book, y: Book, m: LegEvent)
    requires Behind(x, y, -m.delta, m.at) && m.delta < 0 && x.blindSeq.Some?
    ensures var r := LateFill(x, m).core; r.share == y.core.share && r.journal == y.core.journal
  {
    hide TakeCredit, LateCore, LateResolve, CapDoubt, OpenCredit, Held;
    AheadIs(x.core, y.core, x.leg, -m.delta, m.at);
    TakeExact(x.core.credits, m.at, -m.delta, 1);
    var k := TakenLate(x, m);
    LateReduceCore(x.core.(credits := k.0), x.leg, x.cursor.value, x.blindSeq.value, Booked(m, k.1));
  }

  /** Right after the give-up the one is ahead by what was not clamped. */
  lemma BehindAtFirst(b: Book, view: View, m: LegEvent)
    requires b.cursor.Some? && Lacking(b, view, m) && m.delta < 0
    ensures Behind(GiveUp(b, view).0, InOrder(b, view, m), -m.delta, m.at)
  {
    hide Walk, GiveUp, InOrder, Between, SortDue, SumDelta, OwnOnly, Covers, OpenCredit, Held;
    GivenUpWithout(b, view, m);
    WalkedWith(b, view, m);
    SameAfter(b, view, m);
    var g, all := GiveUp(b, view).0, b.core.credits;
    var clamped := Max(0, b.core.share + SumDelta(Between(b.events, b.cursor.value, view.at)) - view.size);
    var k := Credit(view.at, clamped, 1);
    NewestAlone(all, b.cursor.value, k, m.at);
    if clamped > 0 {
      var kept := if |all| < MAX_CREDITS then all else all[|all| - MAX_CREDITS + 1..];
      assert LastCredits(all + [k]) == kept + [k];
      assert forall x :: x in kept ==> x in all;
      NewestAlone(kept, b.cursor.value, k, m.at);
    }
    assert Stock(g.core.credits);
  }

  /** The late reduce brings share and journal to those of the ledger that had it in order, whatever
      was recorded and proven in between, while no credit is evicted: what foreign executions took
      of the share it had already reduced was in doubt, and credited. */
  lemma LateReduceConverges(b: Book, view: View, m: LegEvent, rounds: seq<Round>)
    requires b.cursor.Some? && Lacking(b, view, m) && m.delta < 0
    requires InOrder(b, view, m).cursor.Some? && Proven(InOrder(b, view, m), rounds)
    requires Roomy(GiveUp(b, view).0, rounds)
    ensures var late := LateFill(Rounds(GiveUp(b, view).0, rounds), m).core;
            var replay := Rounds(InOrder(b, view, m), rounds).core;
            late.share == replay.share && late.journal == replay.journal
  {
    hide GiveUp, InOrder, Rounds, LateFill, Proven, Roomy, Lacking, Behind;
    BehindAtFirst(b, view, m);
    RoundsBehind(GiveUp(b, view).0, InOrder(b, view, m), rounds, -m.delta, m.at);
    ReduceArrives(Rounds(GiveUp(b, view).0, rounds), Rounds(InOrder(b, view, m), rounds), m);
  }
}

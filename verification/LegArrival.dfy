// The order executions reach the ledger in: whatever it is, the executions kept are the
// newest, and every interval is walked, given up and judged again alike.

module LegArrival {
  import opened Common
  import opened LegTypes
  import opened LegBook
  import opened LegFold
  import opened LegOrder
  import opened LegInvariant
  import opened LegRuns

  // ---- Ledgers alike but for the order they keep executions in -----------------------------------

  predicate SameEvents(s: seq<LegEvent>, t: seq<LegEvent>) {
    multiset(s) == multiset(t) && Distinct(s)
  }

  predicate SameGap(g: LegGap, h: LegGap) {
    g == h.(events := g.events) && SameEvents(g.events, h.events)
  }

  predicate SameGaps(a: seq<LegGap>, b: seq<LegGap>) {
    |a| == |b| && forall i :: 0 <= i < |a| ==> SameGap(a[i], b[i])
  }

  predicate SameCore(c: Core, d: Core) {
    c == d.(gaps := c.gaps) && SameGaps(c.gaps, d.gaps)
  }

  predicate SameBook(x: Book, y: Book) {
    && x == y.(events := x.events, core := x.core)
    && SameEvents(x.events, y.events) && SameCore(x.core, y.core)
  }

  // ---- What a walk makes of them -----------------------------------------------------------------

  lemma BetweenCount(s: seq<LegEvent>, lo: int, hi: int, x: LegEvent)
    ensures multiset(Between(s, lo, hi))[x] == if lo < x.at <= hi then multiset(s)[x] else 0
  {
    if s != [] {
      BetweenCount(s[1..], lo, hi, x);
      assert s == [s[0]] + s[1..];
    }
  }

  lemma OutsideCount(s: seq<LegEvent>, lo: int, hi: int, x: LegEvent)
    ensures multiset(Outside(s, lo, hi))[x] == if lo < x.at <= hi then 0 else multiset(s)[x]
  {
    if s != [] {
      OutsideCount(s[1..], lo, hi, x);
      assert s == [s[0]] + s[1..];
    }
  }

  /** Part of distinct executions, each as often as there. */
  lemma DistinctPart(s: seq<LegEvent>, p: seq<LegEvent>)
    requires Distinct(s) && forall x :: multiset(p)[x] == 0 || multiset(p)[x] == multiset(s)[x]
    ensures Distinct(p)
  {
    forall x | x in p
      ensures x in s && multiset(p)[x] == multiset(s)[x]
    {
      InBag(p, x);
      InBag(s, x);
    }
  }

  lemma PartsAlike(s: seq<LegEvent>, t: seq<LegEvent>, lo: int, hi: int)
    requires SameEvents(s, t)
    ensures SameEvents(Between(s, lo, hi), Between(t, lo, hi))
    ensures SameEvents(Outside(s, lo, hi), Outside(t, lo, hi))
  {
    hide Distinct, Between, Outside;
    forall x
      ensures multiset(Between(s, lo, hi))[x] == if lo < x.at <= hi then multiset(s)[x] else 0
      ensures multiset(Between(t, lo, hi))[x] == if lo < x.at <= hi then multiset(t)[x] else 0
      ensures multiset(Outside(s, lo, hi))[x] == if lo < x.at <= hi then 0 else multiset(s)[x]
      ensures multiset(Outside(t, lo, hi))[x] == if lo < x.at <= hi then 0 else multiset(t)[x]
    {
      BetweenCount(s, lo, hi, x);
      BetweenCount(t, lo, hi, x);
      OutsideCount(s, lo, hi, x);
      OutsideCount(t, lo, hi, x);
    }
    DistinctPart(s, Between(s, lo, hi));
    DistinctPart(s, Outside(s, lo, hi));
  }

  lemma CapAlike(c: Core, d: Core)
    requires SameCore(c, d)
    ensures SameCore(CapDoubt(c), CapDoubt(d))
  {
    hide SameEvents;
    var limit := Abs(c.share);
    forall i | 0 <= i < |c.gaps|
      ensures SameGap(CapGaps(c.gaps, limit)[i], CapGaps(d.gaps, limit)[i])
    {
      CapGapsAt(c.gaps, limit, i);
      CapGapsAt(d.gaps, limit, i);
      assert SameGap(c.gaps[i], d.gaps[i]);
    }
  }

  lemma StepAlike(c: Core, d: Core, leg: int, e: LegEvent, proven: bool)
    requires SameCore(c, d)
    ensures var a, b := StepOf(c, leg, e, proven), StepOf(d, leg, e, proven);
            a.outs == b.outs && a.leg == b.leg && SameCore(a.core, b.core)
  {
    hide SameGaps, CapDoubt;
    if e.own {
      OwnAlike(c, d, leg, e, proven);
    } else {
      ForeignAlike(c, d, leg, e, proven);
    }
  }

  lemma OwnAlike(c: Core, d: Core, leg: int, e: LegEvent, proven: bool)
    requires SameCore(c, d)
    ensures var a, b := OwnStep(c, leg, e, proven), OwnStep(d, leg, e, proven);
            a.outs == b.outs && a.leg == b.leg && SameCore(a.core, b.core)
  {
    hide SameGaps, CapDoubt, Bounded, Capped;
    var journal := c.journal + e.share;
    var wanted := Bounded(c.share + e.share, journal);
    var share := if proven then Bounded(Capped(c.share + e.share, leg + e.delta), journal) else wanted;
    CapAlike(c.(journal := journal, share := share), d.(journal := journal, share := share));
  }

  lemma ForeignAlike(c: Core, d: Core, leg: int, e: LegEvent, proven: bool)
    requires SameCore(c, d)
    ensures var a, b := ForeignStep(c, leg, e, proven), ForeignStep(d, leg, e, proven);
            a.outs == b.outs && a.leg == b.leg && SameCore(a.core, b.core)
  {
    hide SameGaps, CapDoubt, Charge, Charged, ForeignStep;
    assert Charge(c, leg, e, proven) == Charge(d, leg, e, proven) by { ChargeAlike(c, d, leg, e, proven); }
    var dir := Direction(c.share);
    var charge := Charge(c, leg, e, proven);
    ChargedAlike(c, d, charge, dir);
    CapAlike(Charged(c, charge, dir), Charged(d, charge, dir));
    ForeignIs(c, leg, e, proven);
    ForeignIs(d, leg, e, proven);
  }

  lemma ChargeAlike(c: Core, d: Core, leg: int, e: LegEvent, proven: bool)
    requires c.share == d.share && c.doubt == d.doubt
    ensures Charge(c, leg, e, proven) == Charge(d, leg, e, proven)
  {
  }

  /** The core of a foreign step before its doubt is capped. */
  function Charged(c: Core, charge: (int, int), dir: int): Core {
    var c1 := if charge.0 != 0
              then TakeJournal(c.(share := Along(Abs(c.share) - charge.0, dir)), charge.0, dir)
              else c;
    if charge.1 != 0
    then AddCredit(c1.(doubt := Max(0, c1.doubt - charge.1)), c1.doubtSeq, charge.1, dir)
    else c1
  }

  lemma ChargedAlike(c: Core, d: Core, charge: (int, int), dir: int)
    requires SameCore(c, d)
    ensures SameCore(Charged(c, charge, dir), Charged(d, charge, dir))
  {
    hide SameGaps;
  }

  lemma ForeignIs(c: Core, leg: int, e: LegEvent, proven: bool)
    ensures var charge := Charge(c, leg, e, proven);
            var c' := CapDoubt(Charged(c, charge, Direction(c.share)));
            var dir, leg' := Direction(c.share), leg + e.delta;
            ForeignStep(c, leg, e, proven)
            == Walked(if proven then NoteRoom(c', leg') else c', leg',
                      [Outcome(Some(e), charge.0, proven, Abs(c.share),
                               if dir != 0 then Along(leg', dir) else leg', e.at, 0, charge.1, 0, false)])
  {
    hide CapDoubt, Charge;
  }

  lemma {:induction false} EventsAlike(c: Core, d: Core, leg: int, due: seq<LegEvent>, proven: bool)
    requires SameCore(c, d)
    ensures var a, b := WalkEvents(c, leg, due, proven), WalkEvents(d, leg, due, proven);
            a.outs == b.outs && a.leg == b.leg && SameCore(a.core, b.core)
    decreases |due|
  {
    hide SameCore, StepOf;
    if due != [] {
      StepAlike(c, d, leg, due[0], proven);
      EventsAlike(StepOf(c, leg, due[0], proven).core, StepOf(d, leg, due[0], proven).core,
                  StepOf(c, leg, due[0], proven).leg, due[1..], proven);
    }
  }

  /** Executions in another order are walked to the same place with the same verdicts. */
  lemma WalkAlike(x: Book, y: Book, view: View, proven: bool)
    requires SameBook(x, y) && x.cursor.Some?
    ensures Walk(x, view, proven).1 == Walk(y, view, proven).1
    ensures SameBook(Walk(x, view, proven).0, Walk(y, view, proven).0)
  {
    hide SameEvents, SameGaps, CapDoubt, WalkEvents, Capped, SortDue, Between, Outside, AtLeast;
    var lo, hi, dir := x.cursor.value, view.at, Direction(x.core.share);
    PartsAlike(x.events, y.events, lo, hi);
    DueAlike(Between(x.events, lo, hi), Between(y.events, lo, hi), dir);
    var due := SortDue(Between(x.events, lo, hi), dir);
    EventsAlike(x.core, y.core, x.leg, due, proven);
    var c, d := WalkEvents(x.core, x.leg, due, proven).core, WalkEvents(y.core, y.leg, due, proven).core;
    var share := if proven then Capped(c.share, view.size) else c.share;
    CapAlike(c.(share := share), d.(share := share));
  }

  lemma DueAlike(s: seq<LegEvent>, t: seq<LegEvent>, dir: int)
    requires SameEvents(s, t)
    ensures SortDue(s, dir) == SortDue(t, dir) && SumDelta(s) == SumDelta(t)
  {
    hide Distinct, SortDue, SumDelta;
    SortAny(s, t, dir);
    SortSums(s, dir);
    SortSums(t, dir);
  }

  // ---- What giving up makes of them ----------------------------------------------------------------

  lemma {:induction false} MergeAlike(a: seq<LegGap>, b: seq<LegGap>)
    requires SameGaps(a, b)
    ensures SameGaps(MergeGaps(a), MergeGaps(b))
    decreases |a|
  {
    hide SameEvents;
    if |a| > MAX_GAPS {
      assert SameGap(a[0], b[0]) && SameGap(a[1], b[1]);
      NoEvents();
      MergeAlike([Merged(a[0], a[1])] + a[2..], [Merged(b[0], b[1])] + b[2..]);
    }
  }

  lemma NoEvents()
    ensures SameEvents([], [])
  {
  }

  lemma AddGapAlike(c: Core, d: Core, g: LegGap, h: LegGap)
    requires SameCore(c, d) && SameGap(g, h)
    ensures SameCore(AddGap(c, g), AddGap(d, h))
  {
    hide SameGap, MergeGaps;
    MergeAlike(c.gaps + [g], d.gaps + [h]);
  }

  lemma DoubtAlike(c: Core, d: Core, at: int, quantity: int)
    requires SameCore(c, d)
    ensures SameCore(AddDoubt(c, at, quantity), AddDoubt(d, at, quantity))
  {
    hide SameGaps, CapDoubt;
    var doubt, doubtSeq := c.doubt + quantity, Max(c.doubtSeq, at);
    CapAlike(c.(doubt := doubt, doubtSeq := doubtSeq), d.(doubt := doubt, doubtSeq := doubtSeq));
  }

  lemma ClampAlike(c: Core, d: Core, first: View, g: LegGap, h: LegGap)
    requires SameCore(c, d) && SameGap(g, h)
    ensures SameCore(ClampTo(c, first, g), ClampTo(d, first, h))
  {
    hide SameGaps, SameGap, AddDoubt, AddGap, Excess, NoteSides, AddCredit, TakeJournal;
    var dir, clamped := Direction(c.share), Excess(c.share, first.size);
    var c2, d2 := Clipped(c, first, clamped, dir), Clipped(d, first, clamped, dir);
    ClippedAlike(c, d, first, clamped, dir);
    DoubtAlike(c2, d2, first.at, Abs(c2.share));
    var c3, d3 := AddDoubt(c2, first.at, Abs(c2.share)), AddDoubt(d2, first.at, Abs(d2.share));
    AddGapAlike(c3, d3, g.(doubt := Abs(c3.share)), h.(doubt := Abs(d3.share))) by {
      GapDoubtAlike(g, h, Abs(c3.share));
    }
  }

  lemma GapDoubtAlike(g: LegGap, h: LegGap, doubt: int)
    requires SameGap(g, h)
    ensures SameGap(g.(doubt := doubt), h.(doubt := doubt))
  {
  }

  /** The share cut down to a view, the rest netted and credited. */
  function Clipped(c: Core, first: View, clamped: int, dir: int): Core {
    var c1 := if clamped > 0
              then TakeJournal(c.(share := Along(Max(Along(first.size, dir), 0), dir)), clamped, dir)
              else c;
    AddCredit(c1, first.at, clamped, dir)
  }

  lemma ClippedAlike(c: Core, d: Core, first: View, clamped: int, dir: int)
    requires SameCore(c, d)
    ensures SameCore(Clipped(c, first, clamped, dir), Clipped(d, first, clamped, dir))
  {
    hide SameGaps;
  }

  lemma ExpectedAlike(x: Book, y: Book, at: int)
    requires SameBook(x, y) && x.cursor.Some?
    ensures ExpectedLeg(x, at) == ExpectedLeg(y, at)
  {
    hide SameEvents, SameCore, Between, SumDelta, SortDue;
    PartsAlike(x.events, y.events, x.cursor.value, at);
    DueAlike(Between(x.events, x.cursor.value, at), Between(y.events, x.cursor.value, at), 0);
  }

  lemma GiveUpAlike(x: Book, y: Book, first: View)
    requires SameBook(x, y) && x.cursor.Some?
    ensures GiveUp(x, first).1 == GiveUp(y, first).1
    ensures SameBook(GiveUp(x, first).0, GiveUp(y, first).0)
  {
    hide SameEvents, SameGaps, Walk, ClampTo, ExpectedLeg, Between, Excess;
    WalkAlike(x, y, first, false);
    ExpectedAlike(x, y, first.at);
    PartsAlike(x.events, y.events, x.cursor.value, first.at);
    ClampAlike(Walk(x, first, false).0.core, Walk(y, first, false).0.core, first, OpenedGap(x, first),
               OpenedGap(y, first));
  }

  // ---- What judging makes of them -----------------------------------------------------------------

  lemma TargetAlike(x: Book, y: Book, later: seq<View>, known: set<int>)
    requires SameBook(x, y) && x.cursor.Some?
    ensures Target(x, later, known) == Target(y, later, known)
  {
    hide SameBook, ExpectedLeg;
    if later != [] {
      ExpectedAlike(x, y, later[0].at);
      TargetAlike(x, y, later[1..], known);
    }
  }

  lemma SinceAlike(x: Book, y: Book, since: Option<int>)
    requires SameBook(x, y)
    ensures SameBook(x.(gapSince := since), y.(gapSince := since))
    ensures x.views == y.views && x.cursor == y.cursor && x.gapSince == y.gapSince
  {
  }

  /** The judging loop on ledgers that keep the same executions in another order. */
  lemma {:induction false} JudgeAlike(
      x: Book, y: Book, now: int, grace: int, known: set<int>, provable: bool)
    requires SameBook(x, y) && x.cursor.Some?
    ensures var r, t := Judge(x, now, grace, known, provable), Judge(y, now, grace, known, provable);
            r.1 == t.1 && SameBook(r.0, t.0)
    decreases |Later(x.views, x.cursor.value)|
  {
    hide SameBook, Walk, GiveUp, Target, Later, AtLeast;
    SinceAlike(x, y, None);
    var later := Later(x.views, x.cursor.value);
    if later != [] {
      TargetAlike(x, y, later, known);
      var target := if provable then Target(x, later, known) else None;
      var x0, y0 := x.(gapSince := None), y.(gapSince := None);
      if target.Some? {
        LaterAtLeast(x.views, x.cursor.value, target.value.at);
        WalkAlike(x0, y0, target.value, true);
        WalkViews(x0, target.value, true);
        JudgeAlike(Walk(x0, target.value, true).0, Walk(y0, target.value, true).0, now, grace, known, provable);
      } else {
        var since := if x.gapSince.None? then now else x.gapSince.value;
        SinceAlike(x, y, Some(since));
        if now - since >= grace {
          LaterAtLeast(x.views, x.cursor.value, later[0].at);
          GiveUpAlike(x0, y0, later[0]);
          GiveUpViews(x0, later[0]);
          JudgeAlike(GiveUp(x0, later[0]).0, GiveUp(y0, later[0]).0, now, grace, known, provable);
        }
      }
    }
  }

  lemma WalkViews(b: Book, view: View, proven: bool)
    requires b.cursor.Some?
    ensures Walk(b, view, proven).0.views == AtLeast(b.views, view.at)
  {
  }

  lemma GiveUpViews(b: Book, first: View)
    requires b.cursor.Some?
    ensures GiveUp(b, first).0.views == AtLeast(b.views, first.at)
  {
    hide ClampTo;
    WalkViews(b, first, false);
  }

  // ---- Judging again ----------------------------------------------------------------------------

  /** An execution as a re-walk reads it. */
  function Uncredited(e: LegEvent): LegEvent {
    if e.own then e.(share := e.OwnShare(), credit := 0) else e
  }

  lemma RestatedInsert(e: LegEvent, s: seq<LegEvent>, dir: int)
    ensures Restated(Insert(e, s, dir)) == Insert(Uncredited(e), Restated(s), dir)
  {
    if s == [] {
    } else {
      var r := Restated(s);
      assert r[1..] == Restated(s[1..]) && r[0] == Uncredited(s[0]);
      if RankLeq(e, s[0], dir) {
        assert ([e] + s)[1..] == s;
      } else {
        RestatedInsert(e, s[1..], dir);
        assert ([s[0]] + Insert(e, s[1..], dir))[1..] == Insert(e, s[1..], dir);
      }
    }
  }

  lemma RestatedSort(s: seq<LegEvent>, dir: int)
    ensures Restated(SortDue(s, dir)) == SortDue(Restated(s), dir)
  {
    if s != [] {
      RestatedSort(s[1..], dir);
      RestatedInsert(s[0], SortDue(s[1..], dir), dir);
      assert Restated(s)[1..] == Restated(s[1..]) && Restated(s)[0] == Uncredited(s[0]);
    }
  }

  lemma RestatedBetween(s: seq<LegEvent>, lo: int, hi: int)
    ensures Restated(Between(s, lo, hi)) == Between(Restated(s), lo, hi)
  {
    if s != [] {
      RestatedBetween(s[1..], lo, hi);
      assert Restated(s)[1..] == Restated(s[1..]) && Restated(s)[0] == Uncredited(s[0]);
      var rest := Between(s[1..], lo, hi);
      assert ([s[0]] + rest)[1..] == rest;
    }
  }

  lemma RewalkAlike(g: LegGap, h: LegGap)
    requires SameGap(g, h) && g.startSeq.Some?
    ensures Rewalk(g) == Rewalk(h)
  {
    hide SameEvents, SortDue, Between, WalkEvents, CapDoubt, Capped, Outside, AtLeast, Restated;
    var lo, hi, dir := g.startSeq.value, g.endSeq, Direction(g.startShare);
    PartsAlike(g.events, h.events, lo, hi);
    DueAlike(Between(g.events, lo, hi), Between(h.events, lo, hi), dir);
    RestatedBetween(g.events, lo, hi);
    RestatedBetween(h.events, lo, hi);
    RestatedSort(Between(g.events, lo, hi), dir);
    RestatedSort(Between(h.events, lo, hi), dir);
  }

  lemma CompleteAlike(g: LegGap, h: LegGap, known: set<int>)
    requires SameGap(g, h)
    ensures Complete(g, known) == Complete(h, known) && g.doubt == h.doubt && g.settled == h.settled
  {
    hide SameEvents, SumDelta, SortDue;
    DueAlike(g.events, h.events, 0);
  }

  lemma GapsDoubtAlike(a: seq<LegGap>, b: seq<LegGap>)
    requires SameGaps(a, b)
    ensures GapDoubt(a) == GapDoubt(b)
  {
    hide SameEvents;
    if a != [] {
      assert SameGap(a[0], b[0]);
      assert forall i :: 0 <= i < |a| - 1 ==> SameGap(a[1..][i], b[1..][i]);
      GapsDoubtAlike(a[1..], b[1..]);
    }
  }

  /** A gap judged again and kept, or released. */
  lemma KeptAlike(c: Core, d: Core, i: nat)
    requires SameCore(c, d) && i < |c.gaps|
    ensures SameCore(c.(gaps := c.gaps[i := c.gaps[i].(settled := true)]),
                     d.(gaps := d.gaps[i := d.gaps[i].(settled := true)]))
  {
    hide SameEvents;
    assert SameGap(c.gaps[i], d.gaps[i]);
  }

  /** The ledger without a gap, its doubt what the others can hold. */
  function Released(c: Core, i: nat): Core
    requires i < |c.gaps|
  {
    var rest := c.gaps[..i] + c.gaps[i + 1..];
    CapDoubt(c.(gaps := rest, doubt := Min(c.doubt, GapDoubt(rest))))
  }

  lemma ReleasedAlike(c: Core, d: Core, i: nat)
    requires SameCore(c, d) && i < |c.gaps|
    ensures SameCore(Released(c, i), Released(d, i))
  {
    hide SameGap, CapDoubt, GapDoubt;
    var a, b := c.gaps[..i] + c.gaps[i + 1..], d.gaps[..i] + d.gaps[i + 1..];
    forall k | 0 <= k < |a|
      ensures SameGap(a[k], b[k])
    {
      assert SameGap(c.gaps[if k < i then k else k + 1], d.gaps[if k < i then k else k + 1]);
    }
    GapsDoubtAlike(a, b);
    var doubt := Min(c.doubt, GapDoubt(a));
    CapAlike(c.(gaps := a, doubt := doubt), d.(gaps := b, doubt := doubt));
  }

  lemma {:induction false} SettleFromAlike(c: Core, d: Core, known: set<int>, i: nat)
    requires SameCore(c, d)
    ensures var r, t := SettleFrom(c, known, i), SettleFrom(d, known, i);
            r.1 == t.1 && SameCore(r.0, t.0)
    decreases |c.gaps| - i
  {
    hide SameGap, CapDoubt, GapDoubt, Complete, Rewalk, Guessed, Settled;
    if i < |c.gaps| {
      var g, h := c.gaps[i], d.gaps[i];
      CompleteAlike(g, h, known);
      if g.settled || !Complete(g, known) {
        SettleFromAlike(c, d, known, i + 1);
      } else {
        RewalkAlike(g, h);
        if Guessed(Rewalk(g)) {
          KeptAlike(c, d, i);
          SettleFromAlike(c.(gaps := c.gaps[i := g.(settled := true)]),
                          d.(gaps := d.gaps[i := h.(settled := true)]), known, i + 1);
        } else {
          ReleasedAlike(c, d, i);
          SettleFromAlike(Released(c, i), Released(d, i), known, i);
        }
      }
    }
  }

  /** Judging everything on ledgers that keep the same executions in another order. */
  lemma AdvanceAlike(x: Book, y: Book, now: int, grace: int, known: set<int>, provable: bool)
    requires SameBook(x, y)
    ensures var r, t := Advance(x, now, grace, known, provable), Advance(y, now, grace, known, provable);
            r.1 == t.1 && SameBook(r.0, t.0)
  {
    hide SameEvents, SameGaps, Judge, SettleFrom;
    SettleFromAlike(x.core, y.core, known, 0);
    if x.cursor.Some? {
      JudgeAlike(if provable then SettleGaps(x, known).0 else x, if provable then SettleGaps(y, known).0 else y,
                 now, grace, known, provable);
    }
  }

  // ---- Recording --------------------------------------------------------------------------------

  function Record(b: Book, events: seq<LegEvent>): (r: Book)
    ensures r == b.(events := r.events)
    decreases |events|
  {
    if events == [] then b else Record(AddEvent(b, events[0]), events[1..])
  }

  /** Those of the executions the ledger records. */
  function Heard(b: Book, events: seq<LegEvent>): seq<LegEvent> {
    if b.cursor.Some? then EventsBeyond(events, b.cursor.value) else events
  }

  /** Executions of ids of their own, at most one of the run's and one foreign per sequence. */
  predicate Clean(all: seq<LegEvent>) {
    Distinct(all) && forall x, y :: x in all && y in all && x.execId == y.execId ==> x == y
  }

  /** No two executions share a sequence. */
  predicate Apart(s: seq<LegEvent>) {
    forall x, y :: x in s && y in s && x.at == y.at ==> x == y
  }

  /** Whichever of them the ledger has no place for, no other is as old. */
  predicate Clear(all: seq<LegEvent>) {
    && Clean(all)
    && (|all| <= MAX_EVENTS || Apart(all))
  }

  /** `kept` is as many of the newest of all executions as the ledger keeps. */
  predicate Newest(all: seq<LegEvent>, kept: seq<LegEvent>) {
    && multiset(kept) <= multiset(all) && |kept| <= MAX_EVENTS
    && (forall x, y :: x in all && x !in kept && y in kept ==> x.at < y.at)
    && (|kept| == MAX_EVENTS || forall x :: x in all ==> x in kept)
  }

  lemma Sizes(a: seq<LegEvent>, b: seq<LegEvent>)
    requires multiset(a) <= multiset(b)
    ensures |a| <= |b|
    ensures (exists x :: multiset(a)[x] < multiset(b)[x]) ==> |a| < |b|
  {
    assert |multiset(b) - multiset(a)| == |b| - |a|;
    if x :| multiset(a)[x] < multiset(b)[x] {
      assert x in multiset(b) - multiset(a);
    }
  }

  lemma InWhole(kept: seq<LegEvent>, all: seq<LegEvent>)
    requires multiset(kept) <= multiset(all)
    ensures forall x :: x in kept ==> x in all
  {
    forall x | x in kept
      ensures x in all
    {
      InBag(kept, x);
      InBag(all, x);
    }
  }

  lemma InAppended(all: seq<LegEvent>, e: LegEvent)
    ensures forall x :: x in all + [e] <==> x in all || x == e
    ensures multiset(all + [e]) == multiset(all) + multiset{e}
  {
  }

  lemma ClearIsClean(all: seq<LegEvent>)
    requires Clear(all)
    ensures Clean(all)
  {
  }

  lemma NewId(all: seq<LegEvent>, e: LegEvent)
    requires Clean(all + [e])
    ensures forall x :: x in all ==> x.execId != e.execId
  {
    InAppended(all, e);
    assert multiset(all + [e])[e] == 1;
    forall x | x in all
      ensures x.execId != e.execId
    {
      if x == e {
        InBag(all, e);
        assert false;
      }
    }
  }

  lemma CleanFirst(all: seq<LegEvent>, rest: seq<LegEvent>)
    requires Clear(all + rest)
    ensures Clear(all)
  {
    assert forall x :: x in all ==> x in all + rest;
    forall x | x in all
      ensures multiset(all)[x] == 1
    {
      InBag(all, x);
      assert multiset(all + rest) == multiset(all) + multiset(rest);
      assert multiset(all + rest)[x] == 1;
    }
  }

  lemma WithoutOne(s: seq<LegEvent>, i: nat)
    requires i < |s|
    ensures multiset(s[..i] + s[i + 1..]) == multiset(s) - multiset{s[i]}
    ensures |s[..i] + s[i + 1..]| == |s| - 1
  {
    assert s == s[..i] + [s[i]] + s[i + 1..];
  }

  /** One more execution, and the oldest dropped where there is no room. */
  lemma NewestStep(all: seq<LegEvent>, kept: seq<LegEvent>, e: LegEvent)
    requires Newest(all, kept) && Clear(all + [e])
    ensures Newest(all + [e], EvictEvents(Put(kept, e)))
  {
    hide Put, Clear, OldestIndex;
    assert Clean(all + [e]) by { ClearIsClean(all + [e]); }
    NewId(all, e);
    InWhole(kept, all);
    PutFresh(kept, e);
    InAppended(all, e);
    InAppended(kept, e);
    if |kept| == MAX_EVENTS {
      DropOldest(all, kept, e);
    }
  }

  lemma OldestLeast(s: seq<LegEvent>, y: LegEvent)
    requires y in s && Apart(s) && y != s[OldestIndex(s)]
    ensures s[OldestIndex(s)].at < y.at
  {
    hide OldestIndex;
    assert s[OldestIndex(s)].at <= y.at;
  }

  /** The oldest of executions of distinct sequences is older than all the others. */
  lemma OldestApart(s: seq<LegEvent>)
    requires s != [] && Once(s) && Apart(s)
    ensures var i := OldestIndex(s);
            var r := s[..i] + s[i + 1..];
            && multiset(r) <= multiset(s) && |r| == |s| - 1
            && (forall y :: y in r ==> y in s && s[i].at < y.at)
            && (forall x :: x in s && x !in r ==> x == s[i])
  {
    hide OldestIndex, Apart, Once;
    var i := OldestIndex(s);
    var r := s[..i] + s[i + 1..];
    WithoutOne(s, i);
    OthersStay(s, i);
    forall y | y in r
      ensures s[i].at < y.at
    {
      OldestLeast(s, y);
    }
  }

  lemma OthersStay(s: seq<LegEvent>, i: nat)
    requires i < |s| && Once(s)
    ensures var r := s[..i] + s[i + 1..];
            (forall y :: y in r ==> y in s && y != s[i]) && (forall x :: x in s && x !in r ==> x == s[i])
  {
    var r := s[..i] + s[i + 1..];
    WithoutOne(s, i);
    assert multiset(s)[s[i]] == 1;
    forall x
      ensures x in r <==> x in s && x != s[i]
    {
      InBag(r, x);
      InBag(s, x);
    }
  }

  lemma OnceIn(all: seq<LegEvent>, s: seq<LegEvent>)
    requires Once(all) && Apart(all) && multiset(s) <= multiset(all)
    ensures Once(s) && Apart(s)
  {
    hide Apart;
    InWhole(s, all);
    forall x | x in s
      ensures multiset(s)[x] == 1
    {
      InBag(s, x);
    }
    ApartIn(all, s);
  }

  lemma ApartIn(all: seq<LegEvent>, s: seq<LegEvent>)
    requires Apart(all) && forall x :: x in s ==> x in all
    ensures Apart(s)
  {
  }

  lemma DropOldest(all: seq<LegEvent>, kept: seq<LegEvent>, e: LegEvent)
    requires Newest(all, kept) && Clear(all + [e]) && |kept| == MAX_EVENTS
    ensures Newest(all + [e], EvictEvents(kept + [e]))
  {
    hide OldestIndex, Clean, Clear, Apart, Once;
    var s := kept + [e];
    var i := OldestIndex(s);
    Sizes(kept, all);
    InAppended(all, e);
    InAppended(kept, e);
    ClearIsApart(all + [e]);
    OnceIn(all + [e], s);
    OldestApart(s);
    var r := s[..i] + s[i + 1..];
    DroppedOlder(all, kept, e, s[i], r);
  }

  /** What was dropped before and what is dropped now are older than all that stays. */
  lemma DroppedOlder(all: seq<LegEvent>, kept: seq<LegEvent>, e: LegEvent, oldest: LegEvent, r: seq<LegEvent>)
    requires forall x, y :: x in all && x !in kept && y in kept ==> x.at < y.at
    requires oldest in kept + [e]
    requires forall y :: y in r ==> y in kept + [e] && oldest.at < y.at
    requires forall x :: x in kept + [e] && x !in r ==> x == oldest
    ensures forall x, y :: x in all + [e] && x !in r && y in r ==> x.at < y.at
  {
    InAppended(all, e);
    InAppended(kept, e);
    forall x, y | x in all + [e] && x !in r && y in r
      ensures x.at < y.at
    {
      if x !in kept + [e] && y !in kept {
        assert oldest in kept;
      }
    }
  }

  lemma ClearIsApart(all: seq<LegEvent>)
    requires Clear(all) && |all| > MAX_EVENTS
    ensures Once(all) && Apart(all)
  {
  }

  /** What is kept is settled by what came, not by the order it came in. */
  lemma NewestIsOne(all: seq<LegEvent>, other: seq<LegEvent>, a: seq<LegEvent>, b: seq<LegEvent>)
    requires Newest(all, a) && Newest(other, b) && Once(all) && multiset(all) == multiset(other)
    ensures multiset(a) == multiset(b)
  {
    hide Newest;
    forall x
      ensures multiset(a)[x] <= multiset(b)[x] && multiset(b)[x] <= multiset(a)[x]
    {
      NewestHas(all, other, a, b, x);
      SameBag(all, other);
      NewestHas(other, all, b, a, x);
    }
  }

  lemma SameBag(s: seq<LegEvent>, t: seq<LegEvent>)
    requires multiset(s) == multiset(t)
    ensures forall x :: x in s <==> x in t
    ensures Once(s) ==> Once(t)
  {
    forall x
      ensures x in s <==> x in t
    {
      InBag(s, x);
      InBag(t, x);
    }
  }

  lemma NewestHas(all: seq<LegEvent>, other: seq<LegEvent>, a: seq<LegEvent>, b: seq<LegEvent>, x: LegEvent)
    requires Newest(all, a) && Newest(other, b) && Once(all) && multiset(all) == multiset(other)
    ensures multiset(a)[x] <= multiset(b)[x]
  {
    SameBag(all, other);
    InWhole(a, all);
    InWhole(b, other);
    if x in a && x !in b {
      forall y | y in b
        ensures y in a
      {
        assert x.at < y.at;
      }
      PartOfOnce(all, b, a);
      InBag(a, x);
      InBag(b, x);
      Sizes(b, a);
      assert false;
    }
    InBag(a, x);
    InBag(b, x);
    InBag(all, x);
  }

  lemma PartOfOnce(all: seq<LegEvent>, b: seq<LegEvent>, a: seq<LegEvent>)
    requires Once(all) && multiset(a) <= multiset(all) && multiset(b) <= multiset(all)
    requires forall y :: y in b ==> y in a
    ensures multiset(b) <= multiset(a)
  {
    InWhole(b, all);
    forall y
      ensures multiset(b)[y] <= multiset(a)[y]
    {
      InBag(b, y);
      InBag(a, y);
    }
  }

  /** However many executions come, the ledger keeps the newest of them all. */
  lemma {:induction false} RecordNewest(b: Book, events: seq<LegEvent>, all: seq<LegEvent>)
    requires Newest(all, b.events) && Clear(all + Heard(b, events))
    ensures Newest(all + Heard(b, events), Record(b, events).events)
    decreases |events|
  {
    hide Newest, Clear, EvictEvents, Put;
    if events == [] {
      assert all + Heard(b, events) == all;
    } else if Beyond(b, events[0].at) {
      var e, rest := events[0], Heard(b, events[1..]);
      assert Heard(b, events) == [e] + rest;
      assert all + Heard(b, events) == (all + [e]) + rest;
      CleanFirst(all + [e], rest);
      NewestStep(all, b.events, e);
      RecordNewest(AddEvent(b, e), events[1..], all + [e]);
    } else {
      RecordNewest(b, events[1..], all);
    }
  }

  lemma BeyondCount(s: seq<LegEvent>, at: int, x: LegEvent)
    ensures multiset(EventsBeyond(s, at))[x] == if x.at > at then multiset(s)[x] else 0
  {
    if s != [] {
      BeyondCount(s[1..], at, x);
      assert s == [s[0]] + s[1..];
    }
  }

  lemma BeyondAlike(s: seq<LegEvent>, t: seq<LegEvent>, at: int)
    requires multiset(s) == multiset(t)
    ensures multiset(EventsBeyond(s, at)) == multiset(EventsBeyond(t, at))
    ensures Distinct(s) ==> Distinct(EventsBeyond(s, at))
  {
    hide EventsBeyond, Distinct;
    forall x
      ensures multiset(EventsBeyond(s, at))[x] == if x.at > at then multiset(s)[x] else 0
      ensures multiset(EventsBeyond(t, at))[x] == if x.at > at then multiset(t)[x] else 0
    {
      BeyondCount(s, at, x);
      BeyondCount(t, at, x);
    }
    if Distinct(s) {
      DistinctPart(s, EventsBeyond(s, at));
    }
  }

  lemma ClearAny(s: seq<LegEvent>, t: seq<LegEvent>)
    requires Clear(s) && multiset(s) == multiset(t)
    ensures Clear(t)
  {
    SameBag(s, t);
    assert |multiset(s)| == |multiset(t)|;
  }

  lemma NewestOfItself(s: seq<LegEvent>)
    requires |s| <= MAX_EVENTS
    ensures Newest(s, s)
  {
  }

  lemma DistinctKept(all: seq<LegEvent>, kept: seq<LegEvent>)
    requires Clear(all) && Newest(all, kept)
    ensures Distinct(kept)
  {
    InWhole(kept, all);
    forall x | x in kept
      ensures multiset(kept)[x] == 1
    {
      InBag(kept, x);
    }
  }

  /** Executions recorded in another order are kept alike, evictions included. */
  lemma RecordAlike(x: Book, y: Book, es: seq<LegEvent>, fs: seq<LegEvent>)
    requires SameBook(x, y) && |x.events| <= MAX_EVENTS && multiset(es) == multiset(fs)
    requires Clear(x.events + Heard(x, es))
    ensures SameBook(Record(x, es), Record(y, fs))
  {
    hide SameCore, Clear, Newest, Once, EventsBeyond, Record;
    var all, other := x.events + Heard(x, es), y.events + Heard(y, fs);
    if x.cursor.Some? {
      BeyondAlike(es, fs, x.cursor.value);
    }
    assert |multiset(x.events)| == |multiset(y.events)|;
    ClearAny(all, other);
    NewestOfItself(x.events);
    NewestOfItself(y.events);
    RecordNewest(x, es, x.events);
    RecordNewest(y, fs, y.events);
    ClearIsClean(all);
    NewestIsOne(all, other, Record(x, es).events, Record(y, fs).events);
    DistinctKept(all, Record(x, es).events);
  }

  // ---- Every other operation -----------------------------------------------------------------------

  lemma GapOfAlike(a: seq<LegGap>, b: seq<LegGap>, at: int)
    requires SameGaps(a, b)
    ensures GapOf(a, at) == GapOf(b, at)
  {
    hide SameEvents;
    if a != [] {
      assert SameGap(a[0], b[0]);
      assert forall i :: 0 <= i < |a| - 1 ==> SameGap(a[1..][i], b[1..][i]);
      GapOfAlike(a[1..], b[1..], at);
    }
  }

  lemma JoinAlike(g: LegGap, h: LegGap, e: LegEvent)
    requires SameGap(g, h) && Clean(g.events + [e])
    ensures SameGap(JoinGap(g, e), JoinGap(h, e))
  {
    hide Put;
    NewId(g.events, e);
    SameBag(g.events, h.events);
    PutFresh(g.events, e);
    PutFresh(h.events, e);
  }

  /** The gaps with an execution entered into the first that holds it. */
  function Joined(gaps: seq<LegGap>, e: LegEvent): seq<LegGap> {
    var i := GapOf(gaps, e.at);
    if i.Some? then gaps[i.value := JoinGap(gaps[i.value], e)] else gaps
  }

  /** A gap that holds the execution does not know it, nor one of its sequence and owner. */
  predicate NewInGap(gaps: seq<LegGap>, e: LegEvent) {
    var i := GapOf(gaps, e.at);
    i.Some? ==> Clean(gaps[i.value].events + [e])
  }

  lemma JoinedAlike(a: seq<LegGap>, b: seq<LegGap>, e: LegEvent)
    requires SameGaps(a, b) && NewInGap(a, e)
    ensures SameGaps(Joined(a, e), Joined(b, e))
    ensures GapOf(a, e.at) == GapOf(b, e.at)
  {
    hide SameEvents, Clean, JoinGap;
    GapOfAlike(a, b, e.at);
    var i := GapOf(a, e.at);
    if i.Some? {
      JoinAlike(a[i.value], b[i.value], e) by { assert SameGap(a[i.value], b[i.value]); }
    }
  }

  /** One gap's doubt changed in both. */
  lemma GapDoubtSet(a: seq<LegGap>, b: seq<LegGap>, i: nat, doubt: int)
    requires SameGaps(a, b) && i < |a|
    ensures SameGaps(a[i := a[i].(doubt := doubt)], b[i := b[i].(doubt := doubt)])
    ensures a[i].doubt == b[i].doubt && a[i].startSeq == b[i].startSeq && a[i].endSeq == b[i].endSeq
  {
    hide SameEvents;
    assert SameGap(a[i], b[i]);
  }

  lemma ResolveAlike(c: Core, d: Core, e: LegEvent)
    requires SameCore(c, d) && NewInGap(c.gaps, e)
    ensures SameCore(LateResolve(c, e), LateResolve(d, e))
  {
    hide SameGaps, NewInGap, JoinGap;
    JoinedAlike(c.gaps, d.gaps, e);
    var i := GapOf(c.gaps, e.at);
    var resolved := Max(0, -Along(e.share, Direction(c.share)));
    if i.Some? {
      var a, b := Joined(c.gaps, e), Joined(d.gaps, e);
      GapDoubtSet(a, b, i.value, Max(0, a[i.value].doubt - resolved));
    }
  }

  lemma LateDoubtAlike(c: Core, d: Core, leg: int, cursor: int, blind: int, e: LegEvent, kept: int)
    requires SameCore(c, d)
    ensures SameCore(LateDoubt(c, leg, cursor, blind, e, kept), LateDoubt(d, leg, cursor, blind, e, kept))
  {
    hide SameGaps, AddDoubt, AddGap;
    GapOfAlike(c.gaps, d.gaps, e.at);
    if kept > 0 && e.at != blind {
      var i := GapOf(c.gaps, e.at);
      if i.Some? {
        GapDoubtSet(c.gaps, d.gaps, i.value, c.gaps[i.value].doubt + kept);
      }
      if i.Some? && c.gaps[i.value].startSeq.Some? && c.gaps[i.value].endSeq == blind {
        DoubtAlike(c.(gaps := c.gaps[i.value := c.gaps[i.value].(doubt := c.gaps[i.value].doubt + kept)]),
                   d.(gaps := d.gaps[i.value := d.gaps[i.value].(doubt := d.gaps[i.value].doubt + kept)]),
                   blind, kept);
      } else {
        var g := LegGap(None, cursor, leg, leg, c.share, c.journal, c.doubt, [], {}, kept, false);
        EmptyGap(g);
        AddGapAlike(c, d, g, g);
        DoubtAlike(AddGap(c, g), AddGap(d, g), blind, kept);
      }
    }
  }

  lemma EmptyGap(g: LegGap)
    requires g.events == []
    ensures SameGap(g, g)
  {
  }

  lemma LateAlike(x: Book, y: Book, e: LegEvent)
    requires SameBook(x, y) && x.cursor.Some? && x.blindSeq.Some? && NewInGap(x.core.gaps, e)
    ensures LateOwn(x, e).1 == LateOwn(y, e).1 && SameBook(LateOwn(x, e).0, LateOwn(y, e).0)
  {
    hide SameGaps, SameEvents, NewInGap, LateResolve, LateGrow, LateDoubt, CapDoubt, Kept, Bounded, LateShrink;
    var c, d, leg, cursor, blind := x.core, y.core, x.leg, x.cursor.value, x.blindSeq.value;
    var before := c.share;
    var wanted := Bounded(before + e.share, c.journal + e.share);
    var newSide := Direction(wanted);
    var move := ShareMove(before, wanted);
    ShrinkAlike(c.(journal := c.journal + e.share), d.(journal := d.journal + e.share),
                Direction(before), move.0, e.at <= blind);
    var c1 := LateShrink(c.(journal := c.journal + e.share), Direction(before), move.0, e.at <= blind);
    var d1 := LateShrink(d.(journal := d.journal + e.share), Direction(before), move.0, e.at <= blind);
    ResolveAlike(c1, d1, e);
    var c2, d2 := LateResolve(c1, e), LateResolve(d1, e);
    var kept := Kept(c2.room, newSide, move.1);
    GrowAlike(c2, d2, cursor, newSide, move.1);
    var c3, d3 := LateGrow(c2, cursor, newSide, move.1), LateGrow(d2, cursor, newSide, move.1);
    var share := before - Along(move.0, Direction(before)) + Along(kept, newSide);
    var c4, d4 := c3.(share := share), d3.(share := share);
    LateDoubtAlike(c4, d4, leg, cursor, blind, e, kept);
    CapAlike(LateDoubt(c4, leg, cursor, blind, e, kept), LateDoubt(d4, leg, cursor, blind, e, kept));
  }

  lemma ShrinkAlike(c: Core, d: Core, side: int, shrunk: int, late: bool)
    requires SameCore(c, d)
    ensures SameCore(LateShrink(c, side, shrunk, late), LateShrink(d, side, shrunk, late))
    ensures LateShrink(c, side, shrunk, late).gaps == c.gaps
  {
    hide SameGaps;
  }

  lemma GrowAlike(c: Core, d: Core, cursor: int, side: int, grown: int)
    requires SameCore(c, d)
    ensures SameCore(LateGrow(c, cursor, side, grown), LateGrow(d, cursor, side, grown))
  {
    hide SameGaps;
  }

  lemma LateForeignAlike(x: Book, y: Book, e: LegEvent)
    requires SameBook(x, y) && NewInGap(x.core.gaps, e)
    ensures LateForeign(x, e).1 == LateForeign(y, e).1 && SameBook(LateForeign(x, e).0, LateForeign(y, e).0)
  {
    hide SameEvents, SameGaps, NewInGap, JoinGap;
    JoinedAlike(x.core.gaps, y.core.gaps, e);
    var i := GapOf(x.core.gaps, e.at);
    if i.Some? {
      GapDoubtSet(x.core.gaps, y.core.gaps, i.value, 0);
    }
  }

  lemma OwnBeyondAlike(s: seq<LegEvent>, t: seq<LegEvent>, at: int)
    requires SameEvents(s, t)
    ensures OwnBeyond(s, at) == OwnBeyond(t, at)
    ensures SameEvents(EventsBeyond(s, at), EventsBeyond(t, at))
  {
    hide Distinct, SortDue;
    BeyondAlike(s, t, at);
    OwnOfBeyond(s, at);
    OwnOfBeyond(t, at);
    SortAny(EventsBeyond(s, at), EventsBeyond(t, at), 0);
    OwnSort(EventsBeyond(s, at), 0);
    OwnSort(EventsBeyond(t, at), 0);
  }

  lemma SyncAlike(x: Book, y: Book, share: int)
    requires SameBook(x, y)
    ensures SameBook(SyncJournal(x, share), SyncJournal(y, share))
  {
    hide SameEvents, SameGaps, CapDoubt, Bounded, OwnBeyond;
    if x.cursor.Some? {
      OwnBeyondAlike(x.events, y.events, x.cursor.value);
      var journal := share - OwnBeyond(x.events, x.cursor.value);
      var s := Bounded(x.core.share, journal);
      CapAlike(x.core.(journal := journal, share := s), y.core.(journal := journal, share := s));
    }
  }

  lemma ClampAtStartAlike(c: Core, v: View, clamped: int, dir: int)
    requires c.gaps == []
    ensures SameCore(ClampAtStart(c, v, clamped, dir), ClampAtStart(c, v, clamped, dir))
  {
    hide AddGap, SameGap;
    var c1 := TakeJournal(c, clamped, dir);
    var c2 := AddCredit(AddDoubt(c1, v.at, Abs(c.share)), v.at, clamped, dir);
    var g := LegGap(None, v.at, v.size, v.size, c2.share, c2.journal, 0, [], {}, c2.doubt, false);
    EmptyGap(g);
    assert c2.gaps == [];
    AddGapAlike(c2, c2, g, g);
  }

  lemma StartAlike(x: Book, y: Book, share: int)
    requires SameBook(x, y)
    ensures Start(x, share).1 == Start(y, share).1 && SameBook(Start(x, share).0, Start(y, share).0)
  {
    hide SameEvents, ClampAtStart, OwnBeyond, EventsBeyond, Capped, NoteSides;
    if x.views != [] {
      var v := x.views[|x.views| - 1];
      OwnBeyondAlike(x.events, y.events, v.at);
      var s := share - OwnBeyond(x.events, v.at);
      var b := AnchorOn(x, v, s);
      assert b.core == AnchorOn(y, v, s).core;
      ClampAtStartAlike(b.core, v, Abs(s) - Abs(b.core.share), Direction(s));
    }
  }

  /** An execution the ledger, or the gap it falls into, does not know. */
  predicate News(b: Book, e: LegEvent) {
    if Beyond(b, e.at) then Clear(b.events + [e]) else NewInGap(b.core.gaps, e)
  }

  predicate Fits(b: Book, op: Op) {
    (op.Own? ==> News(b, op.own)) && (op.Other? ==> News(b, op.other))
  }

  lemma OneAlike(x: Book, y: Book, e: LegEvent)
    requires SameBook(x, y) && Inv(x) && Beyond(x, e.at) && News(x, e)
    ensures SameBook(AddEvent(x, e), AddEvent(y, e))
  {
    hide SameBook, AddEvent, Clear, CoreInv;
    SameStand(x, y);
    HeardOne(x, e);
    RecordAlike(x, y, [e], [e]);
  }

  lemma HeardOne(b: Book, e: LegEvent)
    requires Beyond(b, e.at)
    ensures Heard(b, [e]) == [e]
  {
    var s := [e];
    assert s[0] == e && s[1..] == [];
    if b.cursor.Some? {
      assert EventsBeyond(s[1..], b.cursor.value) == [];
    }
  }

  lemma SameStand(x: Book, y: Book)
    requires SameBook(x, y)
    ensures x.cursor == y.cursor && x.blindSeq == y.blindSeq && x.anchor == y.anchor && x.leg == y.leg
    ensures x.core == y.core.(gaps := x.core.gaps)
  {
  }

  /** Every operation keeps ledgers alike and reports the same. */
  lemma ApplyAlike(x: Book, y: Book, op: Op)
    requires SameBook(x, y) && Inv(x) && Fits(x, op)
    ensures x.cursor.Some? ==> x.blindSeq.Some?
    ensures y.cursor.Some? ==> y.blindSeq.Some?
    ensures Apply(x, op).1 == Apply(y, op).1 && SameBook(Apply(x, op).0, Apply(y, op).0)
  {
    hide SameBook, Inv, AddView, AddEvent, LateOwn, LateForeign, ReduceOp, Start, SyncJournal, Advance, NewInGap, Clear;
    Standing(x);
    SameStand(x, y);
    match op
    case Push(at, size, updated) => ViewAlike(x, y, at, size, updated);
    case Own(e) =>
      if Beyond(x, e.at) {
        OneAlike(x, y, e);
      } else {
        LateAlike(x, y, e);
      }
    case Other(e) =>
      if Beyond(x, e.at) {
        OneAlike(x, y, e);
      } else {
        LateForeignAlike(x, y, e);
      }
    case Reduce(at, quantity, dir) => ReduceAlike(x, y, at, quantity, dir);
    case Net => NetAlike(x, y);
    case Judging(share, now, grace, known, provable) =>
      if x.cursor.None? {
        StartAlike(x, y, share);
        AdvanceAlike(Start(x, share).0, Start(y, share).0, now, grace, known, provable);
      } else {
        SyncAlike(x, y, share);
        AdvanceAlike(SyncJournal(x, share), SyncJournal(y, share), now, grace, known, provable);
      }
  }

  lemma ViewAlike(x: Book, y: Book, at: int, size: int, updated: Option<int>)
    requires SameBook(x, y)
    ensures SameBook(AddView(x, at, size, updated), AddView(y, at, size, updated))
  {
    hide SameEvents, SameCore, SortViews, NewestViews, DropAt;
  }

  lemma ReduceAlike(x: Book, y: Book, at: int, quantity: int, dir: int)
    requires SameBook(x, y)
    ensures SameBook(ReduceOp(x, at, quantity, dir), ReduceOp(y, at, quantity, dir))
  {
    hide SameEvents, SameGaps, TakeCredit;
  }

  lemma NetAlike(x: Book, y: Book)
    requires SameBook(x, y)
    ensures SameBook(x.(core := x.core.(toNet := map[])), y.(core := y.core.(toNet := map[])))
  {
    hide SameEvents, SameGaps;
  }

  // ---- Whole runs ----------------------------------------------------------------------------------

  /** Executions that reach the ledger together, then whatever the program does. */
  datatype Wave = Wave(recorded: seq<LegEvent>, ops: seq<Op>)

  lemma RecordInv(b: Book, events: seq<LegEvent>)
    requires Inv(b)
    ensures Inv(Record(b, events))
    decreases |events|
  {
    hide CoreInv, Placed, AddEvent;
    if events != [] {
      EventPlaced(b, events[0]);
      EventOnly(b, events[0]);
      RecordInv(AddEvent(b, events[0]), events[1..]);
    }
  }

  /** The ledger after the waves, and all it reported. */
  function RunWaves(b: Book, waves: seq<Wave>): (Book, seq<Outcome>)
    requires Inv(b)
    decreases |waves|
  {
    if waves == [] then (b, [])
    else
      RecordInv(b, waves[0].recorded);
      var b' := Record(b, waves[0].recorded);
      RunInv(b', waves[0].ops);
      var r := RunWaves(Run(b', waves[0].ops), waves[1..]);
      (r.0, Outs(b', waves[0].ops) + r.1)
  }

  predicate AllFit(b: Book, ops: seq<Op>)
    requires Inv(b)
    decreases |ops|
  {
    ops == [] || (Fits(b, ops[0]) && (ApplyInv(b, ops[0]); AllFit(Apply(b, ops[0]).0, ops[1..])))
  }

  /** Every execution comes for the first time, and no other of its sequence is as old as it is. */
  predicate Orderly(b: Book, waves: seq<Wave>)
    requires Inv(b)
    decreases |waves|
  {
    waves == []
    || (Clear(b.events + Heard(b, waves[0].recorded))
        && (RecordInv(b, waves[0].recorded);
            var b' := Record(b, waves[0].recorded);
            AllFit(b', waves[0].ops)
            && (RunInv(b', waves[0].ops); Orderly(Run(b', waves[0].ops), waves[1..]))))
  }

  /** The same waves, the executions of each in another order. */
  predicate Reordered(ws: seq<Wave>, vs: seq<Wave>) {
    |ws| == |vs|
    && forall i :: 0 <= i < |ws| ==>
         ws[i].ops == vs[i].ops && multiset(ws[i].recorded) == multiset(vs[i].recorded)
  }

  lemma {:induction false} OpsAlike(x: Book, y: Book, ops: seq<Op>)
    requires SameBook(x, y) && Inv(x) && Inv(y) && AllFit(x, ops)
    ensures SameBook(Run(x, ops), Run(y, ops)) && Outs(x, ops) == Outs(y, ops)
    decreases |ops|
  {
    hide SameBook, Inv, Apply, Fits;
    if ops != [] {
      ApplyInv(x, ops[0]);
      ApplyInv(y, ops[0]);
      ApplyAlike(x, y, ops[0]);
      OpsAlike(Apply(x, ops[0]).0, Apply(y, ops[0]).0, ops[1..]);
    }
  }

  lemma SmallBook(b: Book)
    requires Inv(b)
    ensures |b.events| <= MAX_EVENTS
  {
  }

  lemma {:induction false} WavesAlike(x: Book, y: Book, ws: seq<Wave>, vs: seq<Wave>)
    requires SameBook(x, y) && Inv(x) && Inv(y) && Orderly(x, ws) && Reordered(ws, vs)
    ensures SameBook(RunWaves(x, ws).0, RunWaves(y, vs).0) && RunWaves(x, ws).1 == RunWaves(y, vs).1
    decreases |ws|
  {
    hide SameBook, Inv, Run, Outs, AllFit, Clear, Record, Heard;
    if ws != [] {
      var w, v := ws[0], vs[0];
      SmallBook(x);
      RecordInv(x, w.recorded);
      RecordInv(y, v.recorded);
      RecordAlike(x, y, w.recorded, v.recorded);
      var x', y' := Record(x, w.recorded), Record(y, v.recorded);
      OpsAlike(x', y', w.ops);
      RunInv(x', w.ops);
      RunInv(y', w.ops);
      assert Reordered(ws[1..], vs[1..]);
      WavesAlike(Run(x', w.ops), Run(y', w.ops), ws[1..], vs[1..]);
    }
  }

  /** Of no sequence does the ledger, or a gap of it, keep two executions of one owner. */
  predicate Untied(b: Book) {
    Distinct(b.events) && forall i :: 0 <= i < |b.core.gaps| ==> Distinct(b.core.gaps[i].events)
  }

  /** Over any run, the order executions reach the ledger in changes no verdict, and of the
      ledger only the order it keeps them in. */
  lemma ArrivalIsFree(b: Book, ws: seq<Wave>, vs: seq<Wave>)
    requires Inv(b) && Untied(b) && Orderly(b, ws) && Reordered(ws, vs)
    ensures RunWaves(b, ws).1 == RunWaves(b, vs).1
    ensures SameBook(RunWaves(b, ws).0, RunWaves(b, vs).0)
  {
    hide RunWaves, Orderly, Reordered, Distinct, Inv;
    WavesAlike(b, b, ws, vs);
  }

  /** Two foreign reduces of one sequence: the one that came last is charged with the share. */
  lemma TieIsAsItCame(b: Book, view: View, e: LegEvent, f: LegEvent)
    requires b.cursor == Some(0) && b.leg == 2 && b.core.share == 1 && b.core.doubt == 0
    requires view == View(1, 0) && e.at == 1 && f.at == 1 && !e.own && !f.own && e.delta == -1 && f.delta == -1
    ensures var w := Walk(b.(events := [e, f]), view, true).1;
            |w| == 2 && w[0].consumed == 0 && w[1].event == Some(f) && w[1].consumed == 1
  {
    hide ForeignStep, WalkEvents, SortDue, CapDoubt;
    var s := [e, f];
    assert s[0] == e && s[1..] == [f] && [f][1..] == [];
    assert Between([f], 0, 1) == [f];
    assert Between(s, 0, 1) == s;
    TwoSorted(e, f);
    ReduceByOne(b.core, 2, e);
    var first := StepOf(b.core, 2, e, true);
    ReduceByOne(first.core, 1, f);
    var second := StepOf(first.core, 1, f, true);
    WalkFirst(b.core, 2, s, true);
    WalkFirst(first.core, 1, [f], true);
    WalkNone(second.core, 0, true);
  }

  lemma ReduceByOne(c: Core, leg: int, e: LegEvent)
    requires !e.own && e.delta == -1 && c.share == 1 && c.doubt == 0 && 1 <= leg <= 2
    ensures var w := StepOf(c, leg, e, true);
            && w.leg == leg - 1 && |w.outs| == 1 && w.outs[0].event == Some(e)
            && w.outs[0].consumed == (if leg == 1 then 1 else 0)
            && (leg == 2 ==> w.core.share == 1 && w.core.doubt == 0)
  {
    hide ForeignStep;
    ForeignIs(c, leg, e, true);
  }

  lemma TwoSorted(e: LegEvent, f: LegEvent)
    requires e.at == f.at && !e.own && !f.own && e.delta == -1 && f.delta == -1
    ensures SortDue([e, f], 1) == [e, f]
  {
    var s := [e, f];
    assert s[1..] == [f] && [f][1..] == [];
    assert SortDue([f], 1) == [f];
  }
}

// What the ledger reports: every outcome of a walk, a give-up, a start and a judgement again, in
// terms of the leg, the share and the doubt as the executions move them.

module LegReports {
  import opened Common
  import opened LegTypes
  import opened LegBook
  import opened LegFold
  import opened LegOrder
  import opened LegInvariant
  import opened LegDoubt
  import opened LegRuns
  import opened LegRelease

  // ---- A proven walk ---------------------------------------------------------------------------------

  /** The report of one execution: a foreign one always, with what it took of the share, what of
      that was in doubt, and the leg behind it as the run sees it; an own one if the leg does not
      hold what the run wants. */
  function Report(r: Ref, d: int, e: LegEvent): seq<Outcome> {
    var next := RefStep(r, e);
    if e.own then
      var wanted := Toward(r.share + e.share, r.journal + e.share);
      if InHull(wanted, next.leg) then []
      else [Outcome(Some(e), 0, true, Abs(r.share), Along(next.leg, Direction(wanted)), e.at, 0, 0,
                    Abs(wanted) - Abs(next.share), false)]
    else [Outcome(Some(e), Abs(r.share) - Abs(next.share), true, Abs(r.share),
                  if r.share == 0 then next.leg else Along(next.leg, Direction(r.share)), e.at, 0, Drawn(r, d, e), 0,
                  false)]
  }

  function Reports(r: Ref, d: int, due: seq<LegEvent>): seq<Outcome>
    decreases |due|
  {
    if due == [] then [] else Report(r, d, due[0]) + Reports(RefStep(r, due[0]), Left(r, d, due[0]), due[1..])
  }

  lemma OwnReports(c: Core, leg: int, e: LegEvent)
    requires Held(c, leg) && e.own
    ensures OwnStep(c, leg, e, true).outs == Report(RefOf(c, leg), c.doubt, e)
  {
    hide NoteRoom, CapDoubt, Drawn, Toward, InHull;
    OwnClips(c, leg, e);
    OwnRefines(c, leg, e);
    LimitsAreToward(c.share + e.share, c.journal + e.share);
  }

  lemma ForeignReports(c: Core, leg: int, e: LegEvent)
    requires Held(c, leg) && !e.own
    ensures ForeignStep(c, leg, e, true).outs == Report(RefOf(c, leg), c.doubt, e)
  {
    hide NoteRoom, CapDoubt, AddCredit, TakeJournal, Charge, Drawn, Toward, InHull;
    ChargeDrawn(c, leg, e);
    ForeignRefines(c, leg, e);
    ForeignLimits(c, leg, e);
    var taken := Charge(c, leg, e, true).0;
    assert Abs(Along(Abs(c.share) - taken, Direction(c.share))) == Abs(c.share) - taken;
  }

  /** A proven walk of any executions reports exactly this, in their order. */
  lemma {:induction false} WalkReports(c: Core, leg: int, due: seq<LegEvent>)
    requires Held(c, leg)
    ensures WalkEvents(c, leg, due, true).outs == Reports(RefOf(c, leg), c.doubt, due)
    decreases |due|
  {
    hide StepOf, RefStep, Left, Report, Held, WalkEvents;
    if due == [] {
      WalkNone(c, leg, true);
    } else {
      var e, s := due[0], StepOf(c, leg, due[0], true);
      WalkFirst(c, leg, due, true);
      StepRefines(c, leg, e);
      StepDoubt(c, leg, e);
      StepReports(c, leg, e);
      WalkReports(s.core, s.leg, due[1..]);
    }
  }

  lemma StepReports(c: Core, leg: int, e: LegEvent)
    requires Held(c, leg)
    ensures StepOf(c, leg, e, true).outs == Report(RefOf(c, leg), c.doubt, e)
  {
    hide OwnStep, ForeignStep, Report;
    if e.own {
      OwnReports(c, leg, e);
    } else {
      ForeignReports(c, leg, e);
    }
  }

  // ---- An unproven walk --------------------------------------------------------------------------------

  /** Unproven, an own execution moves the share as far as the journal bounds it, and a foreign one
      takes nothing of it. */
  function Unproven(r: Ref, e: LegEvent): Ref {
    var journal := r.journal + e.share;
    if e.own then Ref(r.leg + e.delta, Toward(r.share + e.share, journal), journal) else r.(leg := r.leg + e.delta)
  }

  function UnprovenFold(r: Ref, due: seq<LegEvent>): Ref
    decreases |due|
  {
    if due == [] then r else UnprovenFold(Unproven(r, due[0]), due[1..])
  }

  /** A foreign execution of it is reported as having taken nothing, own ones not at all. */
  function UnprovenReports(r: Ref, due: seq<LegEvent>): seq<Outcome>
    decreases |due|
  {
    if due == [] then []
    else
      var e, next := due[0], Unproven(r, due[0]);
      (if e.own then []
       else [Outcome(Some(e), 0, false, Abs(r.share),
                     if r.share == 0 then next.leg else Along(next.leg, Direction(r.share)), e.at, 0, 0, 0, false)])
      + UnprovenReports(next, due[1..])
  }

  /** The least share, and what it bounds the doubt to. */
  function UnprovenDoubt(r: Ref, d: int, due: seq<LegEvent>): int
    decreases |due|
  {
    if due == [] then d
    else
      var next := Unproven(r, due[0]);
      UnprovenDoubt(next, Max(0, Min(d, Abs(next.share))), due[1..])
  }

  lemma UnprovenStep(c: Core, leg: int, e: LegEvent)
    ensures var s, next := StepOf(c, leg, e, false), Unproven(RefOf(c, leg), e);
            && RefOf(s.core, s.leg) == next && s.outs == UnprovenReports(RefOf(c, leg), [e])
            && s.core == c.(share := s.core.share, journal := s.core.journal, doubt := s.core.doubt,
                            gaps := s.core.gaps)
            && s.core.doubt == Max(0, Min(c.doubt, Abs(next.share)))
  {
    hide CapGaps, Toward;
    LimitsAreToward(c.share + e.share, c.journal + e.share);
    assert [e][1..] == [] && UnprovenReports(Unproven(RefOf(c, leg), e), []) == [];
  }

  /** An unproven walk of any executions: leg, share, journal, doubt and reports, and nothing else. */
  lemma {:induction false} UnprovenWalk(c: Core, leg: int, due: seq<LegEvent>)
    ensures var w, r := WalkEvents(c, leg, due, false), RefOf(c, leg);
            && RefOf(w.core, w.leg) == UnprovenFold(r, due) && w.outs == UnprovenReports(r, due)
            && w.core.doubt == UnprovenDoubt(r, c.doubt, due)
            && w.core == c.(share := w.core.share, journal := w.core.journal, doubt := w.core.doubt,
                            gaps := w.core.gaps)
    decreases |due|
  {
    hide StepOf, Unproven, WalkEvents;
    if due == [] {
      WalkNone(c, leg, false);
    } else {
      WalkFirst(c, leg, due, false);
      UnprovenStep(c, leg, due[0]);
      var s := StepOf(c, leg, due[0], false);
      UnprovenWalk(s.core, s.leg, due[1..]);
      assert [due[0]][1..] == [] && UnprovenReports(Unproven(RefOf(c, leg), due[0]), []) == [];
    }
  }

  /** So does an unproven walk up to a view, which it is not capped to. */
  lemma UnprovenInterval(b: Book, view: View)
    requires b.cursor.Some?
    ensures var w := Walk(b, view, false);
            var due := SortDue(Between(b.events, b.cursor.value, view.at), Direction(b.core.share));
            var c, r := w.0.core, UnprovenFold(RefOf(b.core, b.leg), due);
            && c.share == r.share && c.journal == r.journal && w.1 == UnprovenReports(RefOf(b.core, b.leg), due)
            && c == b.core.(share := c.share, journal := c.journal, doubt := c.doubt, gaps := c.gaps)
  {
    hide WalkEvents, SortDue, Between, Outside, AtLeast, CapGaps;
    UnprovenWalk(b.core, b.leg, SortDue(Between(b.events, b.cursor.value, view.at), Direction(b.core.share)));
  }

  /** A walk stands on its view: the executions up to there are gone, and of the views only those
      before it. */
  lemma WalkLeaves(b: Book, view: View, proven: bool)
    requires b.cursor.Some?
    ensures var r := Walk(b, view, proven).0;
            && r.cursor == Some(view.at) && r.leg == view.size
            && (forall v :: v in r.views <==> v in b.views && v.at >= view.at)
            && (forall e :: e in r.events <==> e in b.events && !(b.cursor.value < e.at <= view.at))
  {
    hide WalkEvents, SortDue, CapDoubt, NoteRoom;
    ViewsAtLeast(b.views, view.at);
    EventsOutside(b.events, b.cursor.value, view.at);
  }

  lemma ViewsAtLeast(views: seq<View>, at: int)
    ensures forall v :: v in AtLeast(views, at) <==> v in views && v.at >= at
  {
  }

  lemma EventsOutside(s: seq<LegEvent>, lo: int, hi: int)
    ensures forall e :: e in Outside(s, lo, hi) <==> e in s && !(lo < e.at <= hi)
  {
  }

  // ---- The order of a walk ----------------------------------------------------------------------------

  /** Executions are walked by sequence; of one sequence the run's own come first, then the foreign
      ones that do not reduce the side it holds, then those that do. */
  lemma WalkOrder(s: seq<LegEvent>, dir: int, i: nat, j: nat)
    requires i < j < |SortDue(s, dir)|
    ensures var a, b := SortDue(s, dir)[i], SortDue(s, dir)[j];
            || a.at < b.at
            || (a.at == b.at && (a.own || (!b.own && (Along(a.delta, dir) >= 0 || Along(b.delta, dir) < 0))))
  {
    hide SortDue;
    SortSorted(s, dir);
    assert RankLeq(SortDue(s, dir)[i], SortDue(s, dir)[j], dir);
  }

  // ---- Judging a gap again ----------------------------------------------------------------------------

  /** The re-walk of a gap reports what a proven walk of its executions would have. */
  lemma RewalkReports(g: LegGap)
    requires GapOk(g) && g.startSeq.Some?
    ensures Rewalk(g) == Reports(GapRef(g), g.startDoubt, GapDue(g))
  {
    hide SortDue, Between, Restated, WalkEvents, CapDoubt, Capped, Outside, AtLeast, Reports;
    WalkReports(Scratch(g).core, g.startLeg, GapDue(g));
  }

  /** A gap kept by a give-up, judged again with all its executions, reports what the ledger would
      have if it had had them, as the venue made them, and proven the interval. */
  lemma RewalkIsProof(b: Book, first: View, all: seq<LegEvent>)
    requires Inv(b) && b.cursor.Some?
    ensures var g := OpenedGap(b, first).(events := all);
            GapOk(g) && Rewalk(g) == Walk(b.(events := Restated(all)), first, true).1
  {
    hide SortDue, Between, Restated, WalkEvents, CapDoubt, Capped, Outside, AtLeast, Reports, CreditsOk, NetOk, Covered;
    OpenedOk(b, first);
    var g := OpenedGap(b, first).(events := all);
    RewalkReports(g);
    WalkReports(b.core, b.leg, GapDue(g));
  }

  // ---- A give-up and a start ---------------------------------------------------------------------------

  /** A give-up reports what it clamped off the share its unproven walk left, what of the leg's
      change no known execution explains, and all that is left of the share as doubtful. */
  lemma GiveUpReports(b: Book, first: View)
    requires Inv(b) && b.cursor.Some?
    ensures var r, before := GiveUp(b, first), Walk(b, first, false).0.core.share;
            var after := r.0.core.share;
            && after == Toward(before, first.size)
            && r.1 == Walk(b, first, false).1
                      + [Outcome(None, Abs(before) - Abs(after), false, Abs(before),
                                 Along(first.size, Direction(before)), first.at,
                                 first.size - b.leg - SumDelta(Between(b.events, b.cursor.value, first.at)),
                                 Abs(after), 0, false)]
  {
    hide Walk, Between, SumDelta, AddDoubt, AddGap, AddCredit, NoteSides, TakeJournal;
    var c := Walk(b, first, false).0.core;
    ClampShare(c, first, OpenedGap(b, first));
  }

  lemma ClampShare(c: Core, first: View, gap: LegGap)
    ensures var after := ClampTo(c, first, gap).share;
            after == Toward(c.share, first.size) && Excess(c.share, first.size) == Abs(c.share) - Abs(after)
  {
    hide AddDoubt, AddGap, AddCredit, NoteSides;
  }

  /** A start holds what the newest view shows of the journal read less what is still to be walked.
      Where that is less, the rest is netted, credited and reported, and all that is left is in
      doubt, behind one gap that never completes; else nothing is in doubt. */
  lemma StartExact(b: Book, journalShare: int)
    requires b.views != [] && b.cursor.None? && b.core == EMPTY.core
    ensures var v := b.views[|b.views| - 1];
            var read := journalShare - OwnBeyond(b.events, v.at);
            var r := Start(b, journalShare);
            var c, share := r.0.core, Toward(read, v.size);
            && r.0.anchor == r.0.cursor == r.0.blindSeq == Some(v.at) && r.0.leg == v.size && r.0.views == [v]
            && r.0.events == EventsBeyond(b.events, v.at)
            && c.share == c.journal == share
            && (if share == read then r.1.None? && c.doubt == 0 && c.gaps == [] && c.credits == []
                else r.1 == Some(Outcome(None, Abs(read) - Abs(share), false, Abs(read),
                                         Max(Along(v.size, Direction(read)), 0), v.at, 0, Abs(share), 0, false))
                     && c.doubt == Abs(share) && (share != 0 ==> c.doubtSeq >= v.at)
                     && c.credits == [Credit(v.at, Abs(read) - Abs(share), Direction(read))]
                     && c.gaps == if share == 0 then []
                                  else [LegGap(None, v.at, v.size, v.size, share, share, 0, [], {}, Abs(share), false)])
  {
    hide OwnBeyond, EventsBeyond, NoteSides, ClampAtStart, Capped, Toward;
    var v := b.views[|b.views| - 1];
    var read := journalShare - OwnBeyond(b.events, v.at);
    LimitsAreToward(read, v.size);
    TowardLess(read, v.size);
    var c := AnchorOn(b, v, read).core;
    if Abs(read) > Abs(c.share) {
      ClampedStart(c, v, Abs(read) - Abs(c.share), Direction(read));
    }
  }

  lemma TowardLess(x: int, h: int)
    ensures var r := Toward(x, h);
            && Abs(r) <= Abs(x) && (Abs(r) == Abs(x) <==> r == x) && x - Along(Abs(x) - Abs(r), Direction(x)) == r
  {
  }

  lemma ClampedStart(c: Core, v: View, clamped: int, dir: int)
    requires c.doubt == 0 && c.gaps == [] && c.credits == [] && clamped > 0 && Sign(dir)
    ensures var r := ClampAtStart(c, v, clamped, dir);
            && r.share == c.share && r.journal == c.journal - Along(clamped, dir)
            && r.doubt == Abs(c.share) && (c.share != 0 ==> r.doubtSeq >= v.at)
            && r.credits == [Credit(v.at, clamped, dir)]
            && r.gaps == if c.share == 0 then []
                         else [LegGap(None, v.at, v.size, v.size, r.share, r.journal, 0, [], {}, Abs(c.share), false)]
  {
    assert [] + [Credit(v.at, clamped, dir)] == [Credit(v.at, clamped, dir)];
  }

  // ---- Bookkeeping -------------------------------------------------------------------------------------

  /** The two oldest gaps of seventeen become one that never completes, reaches to the end of the
      later and holds the doubt of both; the others stay. */
  lemma MergedNeverCompletes(c: Core, gap: LegGap)
    requires |c.gaps| == MAX_GAPS
    ensures var r := AddGap(c, gap).gaps;
            && |r| == MAX_GAPS && r[1..] == (c.gaps + [gap])[2..]
            && r[0].startSeq.None? && r[0].doubt == c.gaps[0].doubt + c.gaps[1].doubt
            && (forall at :: Holds(r[0], at) <==> at <= c.gaps[1].endSeq)
            && (forall known :: !Judgeable(r[0], known))
  {
    var all := c.gaps + [gap];
    var one := [Merged(all[0], all[1])] + all[2..];
    assert MergeGaps(one) == one;
  }

  /** What recording a view makes of the views kept: it replaces one of its sequence, and the oldest
      goes where there are more than are kept. One that only repeats the newest position with an
      unchanged time stamp, and one at or behind the cursor, is not kept. */
  lemma ViewKept(b: Book, at: int, size: int, updated: Option<int>)
    requires Placed(b)
    ensures var r, v := AddView(b, at, size, updated), View(at, size);
            var n := b.newestView;
            var echo := n.Some? && updated == Some(n.value.1) && at > n.value.0.at && size == n.value.0.size;
            && r.latestViewSeq == Max(b.latestViewSeq, at)
            && r == b.(views := r.views, latestViewSeq := r.latestViewSeq, newestView := r.newestView)
            && r.newestView == (if echo || (n.Some? && at < n.value.0.at) then n
                                else if updated.Some? then Some((v, updated.value)) else None)
            && (if echo || (b.cursor.Some? && at <= b.cursor.value) then r.views == b.views
                else NewestOf(r.views, v, b.views))
  {
    hide SortViews, NewestViews, DropAt;
    if b.cursor.None? || at > b.cursor.value {
      ViewsOf(b, at, size);
    }
  }

  /** Of one view and those of other sequences, the newest that are kept. */
  ghost predicate NewestOf(kept: seq<View>, v: View, others: seq<View>) {
    && |kept| <= MAX_VIEWS
    && (forall w :: w in kept ==> w == v || (w in others && w.at != v.at))
    && (forall w :: (w == v || (w in others && w.at != v.at)) && w !in kept
                    ==> |kept| == MAX_VIEWS && forall x :: x in kept ==> w.at < x.at)
  }

  lemma InsertExact(v: View, views: seq<View>)
    ensures forall w :: w in InsertView(v, views) <==> w == v || w in views
  {
  }

  lemma SortExact(views: seq<View>)
    ensures forall w :: w in SortViews(views) <==> w in views
  {
    if views != [] {
      var front := views[..|views| - 1];
      SortExact(front);
      InsertExact(views[|views| - 1], SortViews(front));
      assert views == front + [views[|views| - 1]];
    }
  }

  lemma NewestExact(all: seq<View>)
    requires Increasing(all)
    ensures var kept := NewestViews(all);
            && |kept| <= MAX_VIEWS && (forall w :: w in kept ==> w in all)
            && forall w :: w in all && w !in kept ==> |kept| == MAX_VIEWS && forall x :: x in kept ==> w.at < x.at
  {
    var kept := NewestViews(all);
    var cut := |all| - |kept|;
    assert kept == all[cut..];
    forall w | w in all && w !in kept
      ensures forall x :: x in kept ==> w.at < x.at
    {
      var i :| 0 <= i < |all| && all[i] == w;
      LateIsKept(all, cut, i);
    }
  }

  lemma LateIsKept(all: seq<View>, cut: nat, i: nat)
    requires cut <= |all| && i < |all|
    ensures i >= cut ==> all[i] in all[cut..]
  {
    if i >= cut {
      assert all[cut..][i - cut] == all[i];
    }
  }

  lemma ViewsOf(b: Book, at: int, size: int)
    requires Placed(b)
    ensures NewestOf(NewestViews(SortViews(DropAt(b.views, at) + [View(at, size)])), View(at, size), b.views)
  {
    hide SortViews, DropAt, Increasing, NewestViews;
    var v := View(at, size);
    var rest := DropAt(b.views, at);
    DropAtKeeps(b.views, at);
    SortAppended(rest, v);
    SortExact(rest + [v]);
    NewestExact(SortViews(rest + [v]));
  }
}

// What judging the kept gaps again makes of the doubt: which gaps it releases, in terms of what
// their executions did to the run's holding, and what is left, all gaps at once.

module LegRelease {
  import opened Common
  import opened LegTypes
  import opened LegBook
  import opened LegFold
  import opened LegInvariant

  // ---- Whether an interval cost the run anything ---------------------------------------------------

  /** The leg behind every own execution holds what the run wants of it. */
  predicate OwnFits(r: Ref, due: seq<LegEvent>)
    decreases |due|
  {
    due == []
    || ((due[0].own ==> InHull(Toward(r.share + due[0].share, r.journal + due[0].share), r.leg + due[0].delta))
        && OwnFits(RefStep(r, due[0]), due[1..]))
  }

  predicate NoCharge(charges: seq<(LegEvent, int)>) {
    forall i :: 0 <= i < |charges| ==> charges[i].1 == 0
  }

  /** No foreign execution took of the run's holding, and no own one was limited by the leg. */
  predicate Undisturbed(r: Ref, due: seq<LegEvent>) {
    NoCharge(Charges(r, due)) && OwnFits(r, due)
  }

  /** An own execution is reported exactly when the leg does not hold what the run wants, with the
      difference. */
  lemma OwnClips(c: Core, leg: int, e: LegEvent)
    requires Held(c, leg) && e.own
    ensures var wanted := Toward(c.share + e.share, c.journal + e.share);
            var s := OwnStep(c, leg, e, true);
            if InHull(wanted, leg + e.delta) then s.outs == []
            else |s.outs| == 1 && s.outs[0].event == Some(e) && s.outs[0].consumed == 0 && !s.outs[0].settled
                 && s.outs[0].clipped == Abs(wanted) - Abs(s.core.share) > 0
  {
    hide NoteRoom, CapDoubt, Toward, Bounded, Capped, InHull;
    LimitsAreToward(c.share + e.share, leg + e.delta);
    LimitsAreToward(Capped(c.share + e.share, leg + e.delta), c.journal + e.share);
    LimitsAreToward(c.share + e.share, c.journal + e.share);
    LegLimits(c.share + e.share, leg + e.delta, c.journal + e.share);
    var got := Toward(Toward(c.share + e.share, leg + e.delta), c.journal + e.share);
    assert OwnStep(c, leg, e, true).core.share == got by {
      CapKeepsShare(c.(journal := c.journal + e.share, share := got));
    }
  }

  /** The leg costs the run nothing exactly when it holds what is wanted of the journal. */
  lemma LegLimits(x: int, leg: int, journal: int)
    ensures var wanted, got := Toward(x, journal), Toward(Toward(x, leg), journal);
            if InHull(wanted, leg) then got == wanted else Abs(got) < Abs(wanted)
  {
  }

  lemma CapKeepsShare(c: Core)
    ensures CapDoubt(c).share == c.share
  {
  }

  lemma GuessedSum(a: seq<Outcome>, b: seq<Outcome>)
    ensures Guessed(a + b) <==> Guessed(a) || Guessed(b)
  {
    var all := a + b;
    if i :| 0 <= i < |a| && GuessedOne(a[i]) {
      assert all[i] == a[i];
    }
    if i :| 0 <= i < |b| && GuessedOne(b[i]) {
      assert all[|a| + i] == b[i];
    }
  }

  lemma StepGuesses(c: Core, leg: int, e: LegEvent)
    requires Held(c, leg)
    ensures Guessed(StepOf(c, leg, e, true).outs)
            <==> if e.own then !InHull(Toward(c.share + e.share, c.journal + e.share), leg + e.delta)
                 else Abs(c.share - StepOf(c, leg, e, true).core.share) != 0
  {
    hide OwnStep, Toward;
    if e.own {
      OwnClips(c, leg, e);
    } else {
      ForeignGuesses(c, leg, e);
    }
  }

  lemma ForeignGuesses(c: Core, leg: int, e: LegEvent)
    requires Held(c, leg) && !e.own
    ensures var s := ForeignStep(c, leg, e, true);
            Guessed(s.outs) <==> Abs(c.share - s.core.share) != 0
  {
    hide ForeignStep;
    ForeignRefines(c, leg, e);
    var s := ForeignStep(c, leg, e, true);
    assert |s.outs| == 1 && s.outs[0].event == Some(e) by { OneVerdict(c, leg, e); }
    assert Verdicts(s.outs)[0] == (e, s.outs[0].consumed);
    assert s.outs[0].consumed == Abs(c.share - s.core.share);
  }

  lemma OneVerdict(c: Core, leg: int, e: LegEvent)
    ensures var s := ForeignStep(c, leg, e, true); |s.outs| == 1 && s.outs[0].event == Some(e)
  {
  }

  lemma UndisturbedFirst(r: Ref, due: seq<LegEvent>)
    requires due != []
    ensures var e, next := due[0], RefStep(r, due[0]);
            Undisturbed(r, due)
            <==> (if e.own then InHull(Toward(r.share + e.share, r.journal + e.share), r.leg + e.delta)
                  else Abs(r.share - next.share) == 0)
                 && Undisturbed(next, due[1..])
  {
    hide RefStep, Toward;
    var rest := Charges(RefStep(r, due[0]), due[1..]);
    if !due[0].own {
      var all := Charges(r, due);
      assert all == [all[0]] + rest;
      assert forall i :: 0 <= i < |rest| ==> all[i + 1] == rest[i];
      if NoCharge(rest) && all[0].1 == 0 {
        assert forall i :: 1 <= i < |all| ==> all[i] == rest[i - 1];
      }
    }
  }

  /** A proven walk takes or clips something exactly when its executions disturb the run. */
  lemma {:induction false} WalkGuesses(c: Core, leg: int, due: seq<LegEvent>)
    requires Held(c, leg)
    ensures Guessed(WalkEvents(c, leg, due, true).outs) <==> !Undisturbed(RefOf(c, leg), due)
    decreases |due|
  {
    hide StepOf, RefStep, Toward, Held, Undisturbed, Guessed;
    if due == [] {
      NothingDisturbs(RefOf(c, leg));
    } else {
      StepGuesses(c, leg, due[0]);
      StepRefines(c, leg, due[0]);
      UndisturbedFirst(RefOf(c, leg), due);
      var s := StepOf(c, leg, due[0], true);
      WalkGuesses(s.core, s.leg, due[1..]);
      GuessedSum(s.outs, WalkEvents(s.core, s.leg, due[1..], true).outs);
    }
  }

  lemma NothingDisturbs(r: Ref)
    ensures Undisturbed(r, []) && !Guessed([])
  {
  }

  // ---- Which gaps are released ---------------------------------------------------------------------

  function GapRef(g: LegGap): Ref {
    Ref(g.startLeg, g.startShare, g.startJournal)
  }

  /** The gap's executions as the venue made them, in the order they are walked. */
  function GapDue(g: LegGap): seq<LegEvent>
    requires g.startSeq.Some?
  {
    SortDue(Between(Restated(g.events), g.startSeq.value, g.endSeq), Direction(g.startShare))
  }

  /** Every execution of the gap is known, as far as its end and its sum can tell. */
  predicate Judgeable(g: LegGap, known: set<int>): (r: bool)
    ensures r ==> g.startSeq.Some?
  {
    && !g.settled && g.startSeq.Some? && g.endSeq in known
    && g.startLeg + SumDelta(g.events) == g.endLeg
  }

  /** Such a gap whose executions cost the run nothing. */
  predicate Freed(g: LegGap, known: set<int>) {
    Judgeable(g, known) && Undisturbed(GapRef(g), GapDue(g))
  }

  /** The re-walk of a gap reports what the fold of its executions says it took, and guessed
      nothing exactly when they cost the run nothing. */
  lemma RewalkIsFold(g: LegGap)
    requires GapOk(g) && g.startSeq.Some?
    ensures Guessed(Rewalk(g)) <==> !Undisturbed(GapRef(g), GapDue(g))
    ensures Verdicts(Rewalk(g)) == Charges(GapRef(g), GapDue(g))
  {
    hide SortDue, Between, Restated, WalkEvents, CapDoubt, Capped, Outside, AtLeast, Charges, Fold;
    hide Undisturbed, Guessed, Verdicts;
    var c := Scratch(g).core;
    WalkGuesses(c, g.startLeg, GapDue(g));
    WalkRefinesFold(c, g.startLeg, GapDue(g));
  }

  // ---- All gaps at once -------------------------------------------------------------------------------

  /** The gaps that stay; one judged and not released is not judged again. */
  function Staying(gaps: seq<LegGap>, known: set<int>): seq<LegGap> {
    if gaps == [] then []
    else
      var rest := Staying(gaps[1..], known);
      if Freed(gaps[0], known) then rest
      else [gaps[0].(settled := gaps[0].settled || Judgeable(gaps[0], known))] + rest
  }

  /** The gaps from `i` on judged at once: the doubt is at most what the gaps that stay hold. */
  function Rejudged(c: Core, known: set<int>, i: nat): Core
    requires i <= |c.gaps|
  {
    var stay := c.gaps[..i] + Staying(c.gaps[i..], known);
    if |stay| == |c.gaps| then c.(gaps := stay)
    else CapDoubt(c.(gaps := stay, doubt := Min(c.doubt, GapDoubt(stay))))
  }

  lemma StayingFirst(gaps: seq<LegGap>, known: set<int>, i: nat)
    requires i < |gaps|
    ensures var g := gaps[i];
            Staying(gaps[i..], known)
            == (if Freed(g, known) then [] else [g.(settled := g.settled || Judgeable(g, known))])
               + Staying(gaps[i + 1..], known)
  {
    hide Freed, Judgeable;
    assert gaps[i..][0] == gaps[i] && gaps[i..][1..] == gaps[i + 1..];
  }

  lemma StayingFewer(gaps: seq<LegGap>, known: set<int>)
    requires GapsOk(gaps)
    ensures var r := Staying(gaps, known);
            && |r| <= |gaps| && GapsOk(r) && 0 <= GapDoubt(r) <= GapDoubt(gaps)
            && (|r| == |gaps| ==> GapDoubt(r) == GapDoubt(gaps))
  {
    hide Freed, Judgeable;
    if gaps != [] {
      var g, rest := gaps[0], gaps[1..];
      assert forall i :: 0 <= i < |rest| ==> rest[i] == gaps[i + 1];
      StayingFewer(rest, known);
      var t := Staying(rest, known);
      if !Freed(g, known) {
        var h := g.(settled := g.settled || Judgeable(g, known));
        assert ([h] + t)[1..] == t;
        assert forall i :: 1 <= i <= |t| ==> ([h] + t)[i] == t[i - 1];
      }
    }
  }

  lemma DoubtFree(g: LegGap, doubt: int, known: set<int>)
    ensures Freed(g.(doubt := doubt), known) == Freed(g, known)
    ensures Judgeable(g.(doubt := doubt), known) == Judgeable(g, known)
  {
  }

  lemma StayingCapped(gaps: seq<LegGap>, limit: int, known: set<int>)
    ensures Staying(CapGaps(gaps, limit), known) == CapGaps(Staying(gaps, known), limit)
  {
    hide Freed, Judgeable;
    if gaps != [] {
      var g := gaps[0];
      DoubtFree(g, Min(g.doubt, limit), known);
      StayingCapped(gaps[1..], limit, known);
      assert CapGaps(gaps, limit)[1..] == CapGaps(gaps[1..], limit);
      var t := Staying(gaps[1..], known);
      var h := g.(settled := g.settled || Judgeable(g, known));
      assert ([h] + t)[1..] == t;
    }
  }

  lemma CapGapsSum2(a: seq<LegGap>, b: seq<LegGap>, limit: int)
    ensures CapGaps(a + b, limit) == CapGaps(a, limit) + CapGaps(b, limit)
  {
    if a == [] {
      assert a + b == b;
    } else {
      assert (a + b)[1..] == a[1..] + b;
    }
  }

  lemma CapGapsAgain(gaps: seq<LegGap>, limit: int)
    ensures CapGaps(CapGaps(gaps, limit), limit) == CapGaps(gaps, limit)
  {
  }

  lemma CapGapsFewer(gaps: seq<LegGap>, limit: int)
    requires GapsOk(gaps) && limit >= 0
    ensures Min(GapDoubt(CapGaps(gaps, limit)), limit) == Min(GapDoubt(gaps), limit)
  {
    CapGapsSum(gaps, limit);
    CapGapsLess(gaps, limit);
  }

  lemma CapGapsLess(gaps: seq<LegGap>, limit: int)
    ensures GapDoubt(CapGaps(gaps, limit)) <= GapDoubt(gaps)
  {
  }

  lemma GapDoubtSum(a: seq<LegGap>, b: seq<LegGap>)
    requires GapsOk(a) && GapsOk(b)
    ensures GapsOk(a + b) && GapDoubt(a + b) == GapDoubt(a) + GapDoubt(b)
  {
    GapDoubtAppend(a, b);
  }

  /** A gap released: judging the others is judging all at once. */
  lemma ReleasedOne(c: Core, known: set<int>, i: nat)
    requires Covered(c) && i < |c.gaps| && Freed(c.gaps[i], known)
    ensures var rest := c.gaps[..i] + c.gaps[i + 1..];
            var r := CapDoubt(c.(gaps := rest, doubt := Min(c.doubt, GapDoubt(rest))));
            && Covered(r)
            && (if r.gaps == [] then Rejudged(c, known, i) == r
                else i <= |r.gaps| && Rejudged(r, known, i) == Rejudged(c, known, i))
  {
    hide Freed, Judgeable, GapOk, GapDoubt, CapGaps, Staying;
    var a, b, limit := c.gaps[..i], c.gaps[i + 1..], Abs(c.share);
    var rest := a + b;
    assert GapsOk(a) && GapsOk(b);
    StayingFirst(c.gaps, known, i);
    StayingFewer(b, known);
    GapDoubtSum(a, b);
    GapDoubtNonneg(rest);
    var t := Staying(b, known);
    GapDoubtSum(a, t);
    var stay := a + t;
    assert c.gaps[..i] + Staying(c.gaps[i..], known) == stay;
    assert |stay| < |c.gaps|;
    var c1 := c.(gaps := rest, doubt := Min(c.doubt, GapDoubt(rest)));
    CapCovers(c1);
    var r := CapDoubt(c1);
    GapDoubtNonneg(stay);
    if r.doubt > 0 {
      CapGapsSum2(a, b, limit);
      CapGapsSum2(a, t, limit);
      assert |CapGaps(a, limit)| == i;
      assert r.gaps[..i] == CapGaps(a, limit) && r.gaps[i..] == CapGaps(b, limit);
      StayingCapped(b, limit, known);
      assert r.gaps[..i] + Staying(r.gaps[i..], known) == CapGaps(stay, limit);
      CapGapsAgain(stay, limit);
      CapGapsFewer(stay, limit);
    }
  }

  /** Judging the gaps one after the other, whatever the doubt is capped to in between, is judging
      them all at once. */
  lemma {:induction false} SettleIs(c: Core, known: set<int>, i: nat)
    requires Covered(c) && i <= |c.gaps|
    ensures SettleFrom(c, known, i).0 == Rejudged(c, known, i)
    decreases |c.gaps| - i
  {
    hide Rewalk, Guessed, CapDoubt, GapDoubt, Settled, Undisturbed, Rejudged, GapDue, GapRef;
    if i == |c.gaps| {
      NothingJudged(c, known);
    } else {
      var g := c.gaps[i];
      assert GapOk(g);
      if g.startSeq.Some? {
        RewalkIsFold(g);
      }
      if !Judgeable(g, known) {
        StaysAsItIs(c, known, i);
        SettleIs(c, known, i + 1);
      } else if Guessed(Rewalk(g)) {
        var c' := c.(gaps := c.gaps[i := g.(settled := true)]);
        SetGap(c.gaps, i, g.(settled := true));
        StaysMarked(c, known, i);
        SettleIs(c', known, i + 1);
      } else {
        var rest := c.gaps[..i] + c.gaps[i + 1..];
        var r := CapDoubt(c.(gaps := rest, doubt := Min(c.doubt, GapDoubt(rest))));
        ReleasedOne(c, known, i);
        if r.gaps == [] {
          assert SettleFrom(r, known, i) == (r, []);
        } else {
          SettleIs(r, known, i);
        }
      }
    }
  }

  lemma NothingJudged(c: Core, known: set<int>)
    ensures Rejudged(c, known, |c.gaps|) == c
  {
    assert c.gaps[..|c.gaps|] + Staying(c.gaps[|c.gaps|..], known) == c.gaps;
  }

  lemma StaysAsItIs(c: Core, known: set<int>, i: nat)
    requires i < |c.gaps| && !Judgeable(c.gaps[i], known)
    ensures Rejudged(c, known, i) == Rejudged(c, known, i + 1)
  {
    hide Judgeable;
    var g := c.gaps[i];
    StayingFirst(c.gaps, known, i);
    assert g.(settled := g.settled) == g;
    assert c.gaps[..i] + ([g] + Staying(c.gaps[i + 1..], known)) == c.gaps[..i + 1] + Staying(c.gaps[i + 1..], known);
  }

  lemma StaysMarked(c: Core, known: set<int>, i: nat)
    requires i < |c.gaps| && Judgeable(c.gaps[i], known) && !Freed(c.gaps[i], known)
    ensures Rejudged(c, known, i)
            == Rejudged(c.(gaps := c.gaps[i := c.gaps[i].(settled := true)]), known, i + 1)
  {
    hide Judgeable, Freed, GapDoubt, CapDoubt;
    var g := c.gaps[i].(settled := true);
    var marked := c.gaps[i := g];
    StayingFirst(c.gaps, known, i);
    assert marked[i + 1..] == c.gaps[i + 1..] && marked[..i + 1] == c.gaps[..i] + [g];
    assert c.gaps[..i] + ([g] + Staying(c.gaps[i + 1..], known)) == marked[..i + 1] + Staying(marked[i + 1..], known);
  }

  /** A kept gap is released if and only if its end is known, its executions account for the leg,
      and they cost the run nothing: none charged it and none of its own was limited by the leg.
      With any released, the doubt is at most the share and what the others hold, and once there
      is none no gap is kept. */
  lemma SettleAtOnce(c: Core, known: set<int>)
    requires Covered(c)
    ensures var r, stay := SettleFrom(c, known, 0).0, Staying(c.gaps, known);
            && (|stay| == |c.gaps| ==> r == c.(gaps := stay))
            && (|stay| < |c.gaps| ==>
                  && r.doubt == Min(Min(c.doubt, GapDoubt(stay)), Abs(c.share))
                  && r == c.(doubt := r.doubt, gaps := if r.doubt == 0 then [] else CapGaps(stay, Abs(c.share))))
    ensures forall k :: 0 <= k < |c.gaps| ==>
              Freed(c.gaps[k], known) || c.gaps[k].(settled := c.gaps[k].settled || Judgeable(c.gaps[k], known))
                                         in Staying(c.gaps, known)
  {
    hide Freed, Judgeable, CapGaps, GapDoubt, GapOk;
    SettleIs(c, known, 0);
    assert c.gaps[0..] == c.gaps && c.gaps[..0] + Staying(c.gaps, known) == Staying(c.gaps, known);
    StayingFewer(c.gaps, known);
    StayingHas(c.gaps, known);
  }

  lemma StayingHas(gaps: seq<LegGap>, known: set<int>)
    ensures forall k :: 0 <= k < |gaps| ==>
              || Freed(gaps[k], known)
              || gaps[k].(settled := gaps[k].settled || Judgeable(gaps[k], known)) in Staying(gaps, known)
  {
    hide Freed, Judgeable;
    if gaps != [] {
      StayingHas(gaps[1..], known);
      assert forall k :: 1 <= k < |gaps| ==> gaps[k] == gaps[1..][k - 1];
    }
  }

  predicate SameInterval(a: LegGap, b: LegGap) {
    a.(doubt := 0, settled := false) == b.(doubt := 0, settled := false)
  }

  /** A gap whose executions cost the run something, or are not all known, stays until no doubt is
      left at all. */
  lemma SettleSpares(c: Core, known: set<int>, k: nat)
    requires Covered(c) && k < |c.gaps| && !Freed(c.gaps[k], known)
    ensures var r := SettleFrom(c, known, 0).0.gaps;
            r == [] || exists j :: 0 <= j < |r| && SameInterval(r[j], c.gaps[k])
  {
    hide Freed, Judgeable, GapDoubt, GapOk, CapDoubt, SettleFrom;
    SettleAtOnce(c, known);
    StayingFewer(c.gaps, known);
    var g := c.gaps[k].(settled := c.gaps[k].settled || Judgeable(c.gaps[k], known));
    var stay, r := Staying(c.gaps, known), SettleFrom(c, known, 0).0.gaps;
    var j :| 0 <= j < |stay| && stay[j] == g;
    CapGapsAt(stay, Abs(c.share), j);
    if |stay| == |c.gaps| {
      assert SameInterval(r[j], c.gaps[k]);
    } else if r != [] {
      assert r == CapGaps(stay, Abs(c.share)) && |r| == |stay|;
      assert SameInterval(r[j], c.gaps[k]);
    }
  }

  /** What the released gaps hold. */
  function FreedDoubt(gaps: seq<LegGap>, known: set<int>): int {
    if gaps == [] then 0
    else (if Freed(gaps[0], known) then gaps[0].doubt else 0) + FreedDoubt(gaps[1..], known)
  }

  lemma StayingHolds(gaps: seq<LegGap>, known: set<int>)
    ensures GapDoubt(Staying(gaps, known)) == GapDoubt(gaps) - FreedDoubt(gaps, known)
  {
    hide Freed, Judgeable;
    if gaps != [] {
      StayingHolds(gaps[1..], known);
      var t := Staying(gaps[1..], known);
      var h := gaps[0].(settled := gaps[0].settled || Judgeable(gaps[0], known));
      assert ([h] + t)[1..] == t;
    }
  }

  /** No more doubt is released than the released gaps hold. */
  lemma SettleReleases(c: Core, known: set<int>)
    requires Covered(c) && c.doubt <= Abs(c.share)
    ensures SettleFrom(c, known, 0).0.doubt >= c.doubt - FreedDoubt(c.gaps, known)
  {
    hide Staying, GapDoubt, FreedDoubt, CapGaps;
    SettleAtOnce(c, known);
    StayingHolds(c.gaps, known);
    assert GapsOk(c.gaps);
    StayingFewer(c.gaps, known);
  }

  // ---- What is reported ------------------------------------------------------------------------------

  /** What the foreign executions of the judged gaps took, gap by gap. */
  function JudgedCharges(gaps: seq<LegGap>, known: set<int>): seq<(LegEvent, int)> {
    if gaps == [] then []
    else (if Judgeable(gaps[0], known) then Charges(GapRef(gaps[0]), GapDue(gaps[0])) else [])
         + JudgedCharges(gaps[1..], known)
  }

  predicate AsSettled(outs: seq<Outcome>) {
    forall i :: 0 <= i < |outs| ==>
      outs[i].settled && !outs[i].proven && !(outs[i].event.Some? && outs[i].event.value.own)
  }

  lemma SettledOnly(outs: seq<Outcome>)
    ensures AsSettled(Settled(outs)) && Verdicts(Settled(outs)) == Verdicts(outs)
  {
    if outs != [] {
      SettledOnly(outs[1..]);
      var t := Settled(outs[1..]);
      if !(outs[0].event.Some? && outs[0].event.value.own) {
        var o := outs[0].(proven := false, settled := true);
        assert ([o] + t)[1..] == t;
      }
    }
  }

  lemma AsSettledSum(a: seq<Outcome>, b: seq<Outcome>)
    requires AsSettled(a) && AsSettled(b)
    ensures AsSettled(a + b)
  {
  }

  lemma JudgedChargesFirst(gaps: seq<LegGap>, known: set<int>, i: nat)
    requires i < |gaps|
    ensures JudgedCharges(gaps[i..], known)
            == (if Judgeable(gaps[i], known) then Charges(GapRef(gaps[i]), GapDue(gaps[i])) else [])
               + JudgedCharges(gaps[i + 1..], known)
  {
    hide Judgeable, GapDue, Charges;
    assert gaps[i..][0] == gaps[i] && gaps[i..][1..] == gaps[i + 1..];
  }

  lemma JudgedChargesCapped(gaps: seq<LegGap>, limit: int, known: set<int>)
    ensures JudgedCharges(CapGaps(gaps, limit), known) == JudgedCharges(gaps, known)
  {
    hide Charges, Restated, SortDue, Between;
    if gaps != [] {
      JudgedChargesCapped(gaps[1..], limit, known);
      assert CapGaps(gaps, limit)[1..] == CapGaps(gaps[1..], limit);
    }
  }

  /** Judging again reports only verdicts of foreign executions, marked so, and while any doubt is
      left exactly what the executions of every judged gap took. */
  lemma {:induction false} SettleReports(c: Core, known: set<int>, i: nat)
    requires Covered(c) && i <= |c.gaps|
    ensures var r := SettleFrom(c, known, i);
            && AsSettled(r.1)
            && (r.0.doubt > 0 ==> Verdicts(r.1) == JudgedCharges(c.gaps[i..], known))
    decreases |c.gaps| - i
  {
    hide Rewalk, Guessed, CapDoubt, GapDoubt, Settled, Undisturbed, GapDue, GapRef, AsSettled, Verdicts, Charges;
    hide JudgedCharges;
    if i == |c.gaps| {
      NoneJudged(c, known);
    } else {
      var g := c.gaps[i];
      assert GapOk(g);
      JudgedChargesFirst(c.gaps, known, i);
      if !Judgeable(g, known) {
        assert [] + JudgedCharges(c.gaps[i + 1..], known) == JudgedCharges(c.gaps[i + 1..], known);
        SettleReports(c, known, i + 1);
      } else {
        RewalkIsFold(g);
        SettledOnly(Rewalk(g));
        var next: Core, j: nat;
        if Guessed(Rewalk(g)) {
          next, j := c.(gaps := c.gaps[i := g.(settled := true)]), i + 1;
          SetGap(c.gaps, i, g.(settled := true));
          assert next.gaps[i + 1..] == c.gaps[i + 1..];
          SettleReports(next, known, j);
        } else {
          var rest := c.gaps[..i] + c.gaps[i + 1..];
          next, j := CapDoubt(c.(gaps := rest, doubt := Min(c.doubt, GapDoubt(rest)))), i;
          ReleasedOne(c, known, i);
          if next.gaps == [] {
            Emptied(next);
            assert SettleFrom(next, known, i) == (next, []);
            NoneJudged(next, known);
          } else {
            SettleReports(next, known, j);
            Rest(c, i, known);
          }
        }
        var t := SettleFrom(next, known, j).1;
        VerdictsOfSum(Settled(Rewalk(g)), t);
        AsSettledSum(Settled(Rewalk(g)), t);
      }
    }
  }

  lemma NoneJudged(c: Core, known: set<int>)
    ensures AsSettled([]) && Verdicts([]) == [] && JudgedCharges(c.gaps[|c.gaps|..], known) == []
  {
  }

  lemma Emptied(c: Core)
    requires Covered(c) && c.gaps == []
    ensures c.doubt == 0
  {
  }

  lemma Rest(c: Core, i: nat, known: set<int>)
    requires i < |c.gaps|
    requires var rest := c.gaps[..i] + c.gaps[i + 1..];
             CapDoubt(c.(gaps := rest, doubt := Min(c.doubt, GapDoubt(rest)))).gaps != []
    ensures var rest := c.gaps[..i] + c.gaps[i + 1..];
            var r := CapDoubt(c.(gaps := rest, doubt := Min(c.doubt, GapDoubt(rest))));
            i <= |r.gaps| && JudgedCharges(r.gaps[i..], known) == JudgedCharges(c.gaps[i + 1..], known)
  {
    hide GapDoubt, CapGaps, JudgedCharges;
    var a, b, limit := c.gaps[..i], c.gaps[i + 1..], Abs(c.share);
    CapGapsSum2(a, b, limit);
    assert CapGaps(a + b, limit)[i..] == CapGaps(b, limit);
    JudgedChargesCapped(b, limit, known);
  }
}

// The doubt of a proven walk, as a figure beside the fold: what verdicts draw of it, what is
// left of it, and what the gaps that account for it still hold. Hence what it costs to cap
// the doubt before a walk instead of in its course.

module LegDoubt {
  import opened Common
  import opened LegTypes
  import opened LegBook
  import opened LegFold
  import opened LegInvariant

  /** What a foreign execution draws of a doubt `d`: what it took beyond the share's proven part. */
  function Drawn(r: Ref, d: int, e: LegEvent): int {
    var next := RefStep(r, e);
    var taken := Abs(r.share) - Abs(next.share);
    if e.own || taken <= 0 then 0
    else Max(0, Min(taken, d - Max(0, -Along(next.leg, Direction(r.share)))))
  }

  /** What is left of a doubt behind one execution. */
  function Left(r: Ref, d: int, e: LegEvent): int {
    Max(0, Min(d - Drawn(r, d, e), Abs(RefStep(r, e).share)))
  }

  function Doubts(r: Ref, d: int, due: seq<LegEvent>): int
    decreases |due|
  {
    if due == [] then d else Doubts(RefStep(r, due[0]), Left(r, d, due[0]), due[1..])
  }

  /** All that is drawn of a doubt on the way. */
  function Draws(r: Ref, d: int, due: seq<LegEvent>): int
    decreases |due|
  {
    if due == [] then 0
    else Drawn(r, d, due[0]) + Draws(RefStep(r, due[0]), Left(r, d, due[0]), due[1..])
  }

  /** The least share any of the executions leaves. */
  function LeastShare(r: Ref, due: seq<LegEvent>): int
    requires due != []
    decreases |due|
  {
    var next := RefStep(r, due[0]);
    if |due| == 1 then Abs(next.share) else Min(Abs(next.share), LeastShare(next, due[1..]))
  }

  /** The part of the verdicts that was in doubt. */
  function Doubtful(outs: seq<Outcome>): int {
    if outs == [] then 0 else outs[0].doubtful + Doubtful(outs[1..])
  }

  lemma DoubtfulSum(a: seq<Outcome>, b: seq<Outcome>)
    ensures Doubtful(a + b) == Doubtful(a) + Doubtful(b)
  {
    if a == [] {
      assert a + b == b;
    } else {
      assert (a + b)[1..] == a[1..] + b;
    }
  }

  lemma DrawsNonneg(r: Ref, d: int, due: seq<LegEvent>)
    ensures Draws(r, d, due) >= 0
    decreases |due|
  {
    if due == [] {
    } else {
      hide RefStep;
      DrawsNonneg(RefStep(r, due[0]), Left(r, d, due[0]), due[1..]);
    }
  }

  // ---- The walk refines it -------------------------------------------------------------------

  lemma OwnDoubt(c: Core, leg: int, e: LegEvent)
    requires Held(c, leg) && e.own
    ensures var s := OwnStep(c, leg, e, true);
            && s.core.doubt == Left(RefOf(c, leg), c.doubt, e) && Doubtful(s.outs) == 0
            && s.core.gaps == if s.core.doubt == 0 then [] else CapGaps(c.gaps, Abs(s.core.share))
  {
    hide NoteRoom, Bounded, Capped, Toward;
    OwnRefines(c, leg, e);
  }

  lemma ChargeDrawn(c: Core, leg: int, e: LegEvent)
    requires Held(c, leg) && !e.own
    ensures Charge(c, leg, e, true).1 == Drawn(RefOf(c, leg), c.doubt, e)
  {
  }

  lemma ForeignDoubt(c: Core, leg: int, e: LegEvent)
    requires Held(c, leg) && !e.own
    ensures var s := ForeignStep(c, leg, e, true);
            && s.core.doubt == Left(RefOf(c, leg), c.doubt, e)
            && Doubtful(s.outs) == Drawn(RefOf(c, leg), c.doubt, e)
            && s.core.gaps == if s.core.doubt == 0 then [] else CapGaps(c.gaps, Abs(s.core.share))
  {
    hide NoteRoom, AddCredit, TakeJournal, Charge, Drawn, RefStep;
    ForeignRefines(c, leg, e);
    ChargeDrawn(c, leg, e);
  }

  lemma StepDoubt(c: Core, leg: int, e: LegEvent)
    requires Held(c, leg)
    ensures var s := StepOf(c, leg, e, true);
            && s.core.doubt == Left(RefOf(c, leg), c.doubt, e)
            && Doubtful(s.outs) == Drawn(RefOf(c, leg), c.doubt, e)
            && s.core.gaps == if s.core.doubt == 0 then [] else CapGaps(c.gaps, Abs(s.core.share))
  {
    hide OwnStep, ForeignStep, Left, CapGaps;
    if e.own {
      OwnDoubt(c, leg, e);
    } else {
      ForeignDoubt(c, leg, e);
    }
  }

  /** The doubt a proven walk leaves, and what its verdicts drew of it, are those of the fold. */
  lemma {:induction false} WalkDoubt(c: Core, leg: int, due: seq<LegEvent>)
    requires Held(c, leg)
    ensures var w := WalkEvents(c, leg, due, true);
            && w.core.doubt == Doubts(RefOf(c, leg), c.doubt, due)
            && Doubtful(w.outs) == Draws(RefOf(c, leg), c.doubt, due)
    decreases |due|
  {
    if due == [] {
      WalkNone(c, leg, true);
    } else {
      hide StepOf, RefStep, Left, Drawn, Held, WalkEvents;
      var s := StepOf(c, leg, due[0], true);
      WalkFirst(c, leg, due, true);
      StepRefines(c, leg, due[0]);
      StepDoubt(c, leg, due[0]);
      WalkDoubt(s.core, s.leg, due[1..]);
      DoubtfulSum(s.outs, WalkEvents(s.core, s.leg, due[1..], true).outs);
    }
  }

  lemma CapGapsAgain(gaps: seq<LegGap>, a: int, b: int)
    ensures CapGaps(CapGaps(gaps, a), b) == CapGaps(gaps, Min(a, b))
  {
  }

  lemma NoDoubtLeft(r: Ref, due: seq<LegEvent>)
    ensures Doubts(r, 0, due) == 0
    decreases |due|
  {
    if due == [] {
    } else {
      hide RefStep;
      NoDoubtLeft(RefStep(r, due[0]), due[1..]);
    }
  }

  /** While any doubt is left, each gap holds at most the least share on the way. */
  lemma {:induction false} WalkGaps(c: Core, leg: int, due: seq<LegEvent>)
    requires Held(c, leg) && due != []
    ensures WalkEvents(c, leg, due, true).core.gaps
            == if Doubts(RefOf(c, leg), c.doubt, due) == 0 then []
               else CapGaps(c.gaps, LeastShare(RefOf(c, leg), due))
    decreases |due|
  {
    hide StepOf, RefStep, Left, Drawn, Held, WalkEvents, CapGaps;
    var s := StepOf(c, leg, due[0], true);
    WalkFirst(c, leg, due, true);
    StepRefines(c, leg, due[0]);
    StepDoubt(c, leg, due[0]);
    if |due| == 1 {
      assert due[1..] == [];
      WalkNone(s.core, s.leg, true);
    } else {
      WalkGaps(s.core, s.leg, due[1..]);
      if s.core.doubt == 0 {
        NoDoubtLeft(RefOf(s.core, s.leg), due[1..]);
      } else {
        CapGapsAgain(c.gaps, Abs(s.core.share), LeastShare(RefOf(s.core, s.leg), due[1..]));
      }
    }
  }

  // ---- Two ledgers that differ in their doubt alone --------------------------------------------

  function Plainly(c: Core): Core { c.(doubt := 0, gaps := []) }

  lemma OwnBeside(a: Core, b: Core, leg: int, e: LegEvent)
    requires Plainly(a) == Plainly(b)
    ensures var s, t := OwnStep(a, leg, e, true), OwnStep(b, leg, e, true);
            s.outs == t.outs && s.leg == t.leg && Plainly(s.core) == Plainly(t.core)
  {
    hide NoteSides, Bounded, Capped, CapDoubt;
    assert a.share == b.share && a.journal == b.journal && a.room == b.room;
    assert a == b.(doubt := a.doubt, gaps := a.gaps) by { Beside(a, b); }
  }

  lemma Beside(a: Core, b: Core)
    requires Plainly(a) == Plainly(b)
    ensures a == b.(doubt := a.doubt, gaps := a.gaps)
  {
  }

  lemma ForeignBeside(a: Core, b: Core, leg: int, e: LegEvent)
    requires Plainly(a) == Plainly(b) && Charge(a, leg, e, true) == Charge(b, leg, e, true)
    ensures var s, t := ForeignStep(a, leg, e, true), ForeignStep(b, leg, e, true);
            s.outs == t.outs && s.leg == t.leg && Plainly(s.core) == Plainly(t.core)
  {
    hide NoteSides, Charge, CapDoubt, LastCredits;
    Beside(a, b);
  }

  lemma ChargeBeside(a: Core, b: Core, leg: int, e: LegEvent)
    requires Plainly(a) == Plainly(b) && Held(a, leg) && !e.own
    requires Drawn(RefOf(a, leg), a.doubt, e) == Drawn(RefOf(a, leg), b.doubt, e)
    ensures Charge(a, leg, e, true) == Charge(b, leg, e, true)
  {
    hide Charge, Drawn;
    Beside(a, b);
    ChargeDrawn(a, leg, e);
    ChargeDrawn(b, leg, e);
    ForeignLimits(a, leg, e);
    ForeignLimits(b, leg, e);
  }

  lemma StepBeside(a: Core, b: Core, leg: int, e: LegEvent)
    requires Plainly(a) == Plainly(b) && Held(a, leg)
    requires Drawn(RefOf(a, leg), a.doubt, e) == Drawn(RefOf(a, leg), b.doubt, e)
    ensures var s, t := StepOf(a, leg, e, true), StepOf(b, leg, e, true);
            s.outs == t.outs && s.leg == t.leg && Plainly(s.core) == Plainly(t.core)
  {
    hide OwnStep, ForeignStep, Drawn, Charge;
    if e.own {
      OwnBeside(a, b, leg, e);
    } else {
      ChargeBeside(a, b, leg, e);
      ForeignBeside(a, b, leg, e);
    }
  }

  /** Nothing is drawn of no doubt, and none comes back. */
  lemma DrawnOfNone(r: Ref, e: LegEvent)
    ensures Drawn(r, 0, e) == 0 && Left(r, 0, e) == 0
  {
  }

  /** They walk alike when their doubt is the same, or the one has none and nothing is drawn
      of the other's. */
  lemma {:induction false} WalkBeside(a: Core, b: Core, leg: int, due: seq<LegEvent>)
    requires Plainly(a) == Plainly(b) && Held(a, leg)
    requires a.doubt == b.doubt || (b.doubt == 0 && Draws(RefOf(a, leg), a.doubt, due) == 0)
    ensures var v, w := WalkEvents(a, leg, due, true), WalkEvents(b, leg, due, true);
            v.outs == w.outs && v.leg == w.leg && Plainly(v.core) == Plainly(w.core)
    decreases |due|
  {
    if due == [] {
      WalkNone(a, leg, true);
      WalkNone(b, leg, true);
    } else {
      hide StepOf, RefStep, Left, Drawn, Held, WalkEvents, Plainly;
      var e, r := due[0], RefOf(a, leg);
      var s, t := StepOf(a, leg, e, true), StepOf(b, leg, e, true);
      WalkFirst(a, leg, due, true);
      WalkFirst(b, leg, due, true);
      DrawnOfNone(r, e);
      DrawsNonneg(RefStep(r, e), Left(r, a.doubt, e), due[1..]);
      assert Drawn(r, a.doubt, e) >= 0 by { DrawnNonneg(r, a.doubt, e); }
      StepBeside(a, b, leg, e);
      StepRefines(a, leg, e);
      StepDoubt(a, leg, e);
      assert Held(b, leg) && RefOf(b, leg) == r by { HeldBeside(a, b, leg); }
      StepDoubt(b, leg, e);
      WalkBeside(s.core, t.core, s.leg, due[1..]);
    }
  }

  lemma DrawnNonneg(r: Ref, d: int, e: LegEvent)
    ensures Drawn(r, d, e) >= 0
  {
  }

  lemma HeldBeside(a: Core, b: Core, leg: int)
    requires Plainly(a) == Plainly(b) && Held(a, leg)
    ensures Held(b, leg) && RefOf(b, leg) == RefOf(a, leg)
  {
  }

  // ---- Capping first -------------------------------------------------------------------------------

  /** Some execution leaves the run no share before any foreign one draws on a doubt of `d`. */
  predicate Forgets(r: Ref, d: int, due: seq<LegEvent>)
    decreases |due|
  {
    due != []
    && (var next := RefStep(r, due[0]);
        Drawn(r, d, due[0]) == 0
        && (next.share == 0 || Forgets(next, Min(d, Abs(next.share)), due[1..])))
  }

  lemma ForgetsFirst(r: Ref, d: int, due: seq<LegEvent>)
    requires due != []
    ensures var next := RefStep(r, due[0]);
            Forgets(r, d, due) <==> Drawn(r, d, due[0]) == 0
                                    && (next.share == 0 || Forgets(next, Min(d, Abs(next.share)), due[1..]))
    ensures Doubts(r, d, due) == Doubts(RefStep(r, due[0]), Left(r, d, due[0]), due[1..])
    ensures Draws(r, d, due) == Drawn(r, d, due[0]) + Draws(RefStep(r, due[0]), Left(r, d, due[0]), due[1..])
  {
  }

  lemma LeftUndrawn(r: Ref, d: int, e: LegEvent)
    requires d > 0 && Drawn(r, d, e) == 0
    ensures var next := RefStep(r, e);
            Left(r, d, e) == Min(d, Abs(next.share)) && (next.share != 0 ==> Left(r, d, e) > 0)
  {
    hide RefStep, Drawn;
  }

  /** That is when nothing is drawn of the doubt and none of it is left. */
  lemma {:induction false} ForgetsWhen(r: Ref, d: int, due: seq<LegEvent>)
    requires d > 0
    ensures Forgets(r, d, due) <==> Draws(r, d, due) == 0 && Doubts(r, d, due) == 0
    decreases |due|
  {
    hide RefStep, Drawn, Left, Forgets, Draws, Doubts;
    if due == [] {
      NeverForgotten(r, d);
    } else {
      var e, next := due[0], RefStep(r, due[0]);
      ForgetsFirst(r, d, due);
      DrawnNonneg(r, d, e);
      DrawsNonneg(next, Left(r, d, e), due[1..]);
      if Drawn(r, d, e) == 0 {
        LeftUndrawn(r, d, e);
        if next.share == 0 {
          NoDoubtLeft(next, due[1..]);
          NoDraws(next, due[1..]);
        } else {
          ForgetsWhen(next, Left(r, d, e), due[1..]);
        }
      }
    }
  }

  lemma NeverForgotten(r: Ref, d: int)
    ensures !Forgets(r, d, []) && Doubts(r, d, []) == d
  {
  }

  /** Capping the doubt before the executions changes nothing they would not: either they leave
      the run no share before they draw on the doubt, or they use the doubt up, or none of the
      gaps comes to hold more than the share did. */
  predicate Idle(c: Core, leg: int, due: seq<LegEvent>) {
    var r := RefOf(c, leg);
    due == []
    || (if c.doubt > Abs(c.share) then Forgets(r, c.doubt, due)
        else Doubts(r, c.doubt, due) == 0
             || forall i :: 0 <= i < |c.gaps| ==> Min(c.gaps[i].doubt, LeastShare(r, due)) <= Abs(c.share))
  }

  lemma CapGapsSame(gaps: seq<LegGap>, least: int, share: int)
    ensures CapGaps(gaps, least) == CapGaps(gaps, Min(share, least))
            <==> forall i :: 0 <= i < |gaps| ==> Min(gaps[i].doubt, least) <= share
  {
    hide CapGaps;
    var a, b := CapGaps(gaps, least), CapGaps(gaps, Min(share, least));
    forall i | 0 <= i < |gaps|
      ensures a[i] == b[i] <==> Min(gaps[i].doubt, least) <= share
    {
      CapGapsAt(gaps, least, i);
      CapGapsAt(gaps, Min(share, least), i);
      assert a[i].doubt == Min(gaps[i].doubt, least);
    }
  }

  lemma CapShape(c: Core)
    requires CoreInvDoubt(c)
    ensures var r := CapDoubt(c);
            && Plainly(r) == Plainly(c)
            && r.doubt == Min(c.doubt, Abs(c.share))
            && r.gaps == if r.doubt == 0 then [] else CapGaps(c.gaps, Abs(c.share))
  {
  }

  /** What the invariant says of the doubt. */
  predicate CoreInvDoubt(c: Core) {
    0 <= c.doubt && (c.doubt <= Abs(c.share) || c.share == 0)
  }

  /** The doubt outlived a share that is gone: capping it first forgets it. */
  lemma CapOutlived(c: Core, leg: int, due: seq<LegEvent>)
    requires Held(c, leg) && CoreInvDoubt(c) && due != [] && c.doubt > Abs(c.share)
    ensures WalkEvents(c, leg, due, true) == WalkEvents(CapDoubt(c), leg, due, true) <==> Idle(c, leg, due)
  {
    hide WalkEvents, Held, LeastShare, CapDoubt, Forgets;
    var r, k := RefOf(c, leg), CapDoubt(c);
    ForgetsWhen(r, c.doubt, due);
    CapShape(c);
    HeldBeside(c, k, leg);
    var v, w := WalkEvents(c, leg, due, true), WalkEvents(k, leg, due, true);
    WalkDoubt(c, leg, due);
    WalkDoubt(k, leg, due);
    WalkGaps(c, leg, due);
    WalkGaps(k, leg, due);
    NoDoubtLeft(r, due);
    NoDraws(r, due);
    if Idle(c, leg, due) {
      WalkBeside(c, k, leg, due);
      Beside(v.core, w.core);
    }
  }

  lemma NoDraws(r: Ref, due: seq<LegEvent>)
    ensures Draws(r, 0, due) == 0
    decreases |due|
  {
    if due == [] {
    } else {
      hide RefStep;
      NoDraws(RefStep(r, due[0]), due[1..]);
    }
  }

  /** The doubt is within the share: capping it first only bounds the gaps. */
  lemma CapWithin(c: Core, leg: int, due: seq<LegEvent>)
    requires Held(c, leg) && CoreInvDoubt(c) && due != [] && c.doubt <= Abs(c.share)
    ensures WalkEvents(c, leg, due, true) == WalkEvents(CapDoubt(c), leg, due, true) <==> Idle(c, leg, due)
  {
    hide WalkEvents, Held, LeastShare, CapDoubt, Draws;
    var r, k := RefOf(c, leg), CapDoubt(c);
    CapShape(c);
    HeldBeside(c, k, leg);
    var v, w := WalkEvents(c, leg, due, true), WalkEvents(k, leg, due, true);
    WalkDoubt(c, leg, due);
    WalkDoubt(k, leg, due);
    WalkGaps(c, leg, due);
    WalkGaps(k, leg, due);
    WalkBeside(c, k, leg, due);
    Beside(v.core, w.core);
    if c.doubt == 0 {
      NoDoubtLeft(r, due);
    } else {
      CapGapsAgain(c.gaps, Abs(c.share), LeastShare(r, due));
      CapGapsSame(c.gaps, LeastShare(r, due), Abs(c.share));
    }
  }

  /** Capping the doubt first is idle exactly as stated. */
  lemma CapFirst(c: Core, leg: int, due: seq<LegEvent>)
    requires Held(c, leg) && CoreInvDoubt(c) && due != []
    ensures WalkEvents(c, leg, due, true) == WalkEvents(CapDoubt(c), leg, due, true) <==> Idle(c, leg, due)
  {
    hide Idle, WalkEvents, CapDoubt;
    if c.doubt > Abs(c.share) {
      CapOutlived(c, leg, due);
    } else {
      CapWithin(c, leg, due);
    }
  }
}

// A proven walk is a small fold: the run holds the exposure nearest to what it
// wants that both the leg and its own journal can hold, and a foreign execution
// is charged exactly what it left the leg short of the share.

module LegFold {
  import opened Common
  import opened LegTypes
  import opened LegBook

  /** Both of the ledger's limits are the same one, taken against the journal and the leg. */
  lemma LimitsAreToward(x: int, h: int)
    ensures Bounded(x, h) == Toward(x, h) && Capped(x, h) == Toward(x, h)
  {
  }

  datatype Ref = Ref(leg: int, share: int, journal: int)

  /** What one execution makes of the run's holding. */
  function RefStep(r: Ref, e: LegEvent): Ref {
    var leg := r.leg + e.delta;
    if e.own then
      var journal := r.journal + e.share;
      Ref(leg, Toward(Toward(r.share + e.share, leg), journal), journal)
    else
      var share := Toward(r.share, leg);
      Ref(leg, share, r.journal - (r.share - share))
  }

  function Fold(r: Ref, due: seq<LegEvent>): Ref
    decreases |due|
  {
    if due == [] then r else Fold(RefStep(r, due[0]), due[1..])
  }

  /** What the foreign executions took of the run's holding, one figure each. */
  function Charges(r: Ref, due: seq<LegEvent>): seq<(LegEvent, int)>
    decreases |due|
  {
    if due == [] then []
    else
      var next := RefStep(r, due[0]);
      if due[0].own then Charges(next, due[1..])
      else [(due[0], Abs(r.share - next.share))] + Charges(next, due[1..])
  }

  /** The verdicts among a walk's outcomes: foreign executions and what each took. */
  function Verdicts(outs: seq<Outcome>): seq<(LegEvent, int)> {
    if outs == [] then []
    else if outs[0].event.Some? && !outs[0].event.value.own
    then [(outs[0].event.value, outs[0].consumed)] + Verdicts(outs[1..])
    else Verdicts(outs[1..])
  }

  lemma VerdictsOfSum(a: seq<Outcome>, b: seq<Outcome>)
    ensures Verdicts(a + b) == Verdicts(a) + Verdicts(b)
  {
    if a == [] {
      assert a + b == b;
    } else {
      assert (a + b)[1..] == a[1..] + b;
    }
  }

  /** What holds of a run's holding between any two steps of a proven walk. */
  predicate Held(c: Core, leg: int) {
    InHull(c.share, c.journal) && InHull(c.share, leg)
  }

  function RefOf(c: Core, leg: int): Ref {
    Ref(leg, c.share, c.journal)
  }

  lemma OwnRefines(c: Core, leg: int, e: LegEvent)
    requires Held(c, leg) && e.own
    ensures var s := OwnStep(c, leg, e, true);
            && RefOf(s.core, s.leg) == RefStep(RefOf(c, leg), e)
            && Verdicts(s.outs) == []
  {
    hide NoteRoom, CapDoubt, Bounded, Capped, Toward;
    LimitsAreToward(c.share + e.share, leg + e.delta);
    LimitsAreToward(Capped(c.share + e.share, leg + e.delta), c.journal + e.share);
  }

  lemma ForeignRefines(c: Core, leg: int, e: LegEvent)
    requires Held(c, leg) && !e.own
    ensures var s := ForeignStep(c, leg, e, true);
            && RefOf(s.core, s.leg) == RefStep(RefOf(c, leg), e)
            && Verdicts(s.outs) == [(e, Abs(c.share - s.core.share))]
  {
    hide NoteRoom, CapDoubt, AddCredit, Toward, Charge;
    ForeignLimits(c, leg, e);
  }

  lemma RefHolds(r: Ref, e: LegEvent)
    requires InHull(r.share, r.journal) && InHull(r.share, r.leg)
    ensures var s := RefStep(r, e); InHull(s.share, s.journal) && InHull(s.share, s.leg)
  {
  }

  lemma StepRefines(c: Core, leg: int, e: LegEvent)
    requires Held(c, leg)
    ensures var s := StepOf(c, leg, e, true);
            && Held(s.core, s.leg)
            && RefOf(s.core, s.leg) == RefStep(RefOf(c, leg), e)
            && Verdicts(s.outs) == if e.own then [] else [(e, Abs(c.share - s.core.share))]
  {
    hide OwnStep, ForeignStep, Toward;
    RefHolds(RefOf(c, leg), e);
    if e.own {
      OwnRefines(c, leg, e);
    } else {
      ForeignRefines(c, leg, e);
    }
  }

  lemma {:induction false} WalkRefinesFold(c: Core, leg: int, due: seq<LegEvent>)
    requires Held(c, leg)
    ensures var w := WalkEvents(c, leg, due, true);
            && Held(w.core, w.leg)
            && RefOf(w.core, w.leg) == Fold(RefOf(c, leg), due)
            && Verdicts(w.outs) == Charges(RefOf(c, leg), due)
    decreases |due|
  {
    if due == [] {
    } else {
      hide StepOf;
      var s := StepOf(c, leg, due[0], true);
      StepRefines(c, leg, due[0]);
      WalkRefinesFold(s.core, s.leg, due[1..]);
      VerdictsOfSum(s.outs, WalkEvents(s.core, s.leg, due[1..], true).outs);
    }
  }

  /** A foreign execution brings the share to what the leg still holds. */
  lemma ForeignLimits(c: Core, leg: int, e: LegEvent)
    requires Held(c, leg)
    ensures var taken := Charge(c, leg, e, true).0;
            && 0 <= taken <= Abs(c.share)
            && Along(Abs(c.share) - taken, Direction(c.share)) == Toward(c.share, leg + e.delta)
  {
  }

  /** A foreign execution is charged if and only if the share no longer fits the leg behind it. */
  lemma ChargedIffBelow(c: Core, leg: int, e: LegEvent)
    requires Held(c, leg) && !e.own && c.share != 0
    ensures var out := ForeignStep(c, leg, e, true).outs[0];
            && (out.consumed > 0 <==> Along(leg + e.delta, Direction(c.share)) < Abs(c.share))
            && 0 <= out.doubtful <= out.consumed <= Abs(c.share)
  {
    hide NoteSides, CapGaps, LastCredits;
  }

  lemma FoldFirst(r: Ref, due: seq<LegEvent>)
    requires due != []
    ensures Fold(r, due) == Fold(RefStep(r, due[0]), due[1..])
  {
  }

  lemma SumFirst(s: seq<LegEvent>)
    requires s != []
    ensures SumDelta(s) == s[0].delta + SumDelta(s[1..])
  {
  }

  /** A walk is its first step and the walk of the rest. */
  lemma WalkFirst(c: Core, leg: int, due: seq<LegEvent>, proven: bool)
    requires due != []
    ensures var s := StepOf(c, leg, due[0], proven);
            var r := WalkEvents(s.core, s.leg, due[1..], proven);
            WalkEvents(c, leg, due, proven) == Walked(r.core, r.leg, s.outs + r.outs)
  {
  }

  lemma WalkNone(c: Core, leg: int, proven: bool)
    ensures WalkEvents(c, leg, [], proven) == Walked(c, leg, [])
  {
  }

  lemma {:induction false} WalkAppend(c: Core, leg: int, a: seq<LegEvent>, b: seq<LegEvent>, proven: bool)
    ensures var w := WalkEvents(c, leg, a, proven);
            var r := WalkEvents(w.core, w.leg, b, proven);
            WalkEvents(c, leg, a + b, proven) == Walked(r.core, r.leg, w.outs + r.outs)
    decreases |a|
  {
    hide StepOf;
    if a == [] {
      assert a + b == b;
      assert [] + WalkEvents(c, leg, b, proven).outs == WalkEvents(c, leg, b, proven).outs;
    } else {
      var s := StepOf(c, leg, a[0], proven);
      assert (a + b)[0] == a[0] && (a + b)[1..] == a[1..] + b;
      WalkAppend(s.core, s.leg, a[1..], b, proven);
    }
  }

  lemma WalkLeg(c: Core, leg: int, due: seq<LegEvent>, proven: bool)
    ensures WalkEvents(c, leg, due, proven).leg == leg + SumDelta(due)
    decreases |due|
  {
    if due == [] {
    } else {
      hide OwnStep, ForeignStep;
      var s := StepOf(c, leg, due[0], proven);
      assert s.leg == leg + due[0].delta by { StepLeg(c, leg, due[0], proven); }
      WalkLeg(s.core, s.leg, due[1..], proven);
    }
  }

  lemma StepLeg(c: Core, leg: int, e: LegEvent, proven: bool)
    ensures StepOf(c, leg, e, proven).leg == leg + e.delta
  {
  }

  // ---- Sorting keeps what it sorts -----------------------------------------------------

  lemma InsertSums(e: LegEvent, s: seq<LegEvent>, dir: int)
    ensures SumDelta(Insert(e, s, dir)) == e.delta + SumDelta(s)
    ensures multiset(Insert(e, s, dir)) == multiset{e} + multiset(s)
  {
    if s == [] {
    } else if RankLeq(e, s[0], dir) {
      assert ([e] + s)[1..] == s;
    } else {
      InsertSums(e, s[1..], dir);
      assert s == [s[0]] + s[1..];
      assert ([s[0]] + Insert(e, s[1..], dir))[1..] == Insert(e, s[1..], dir);
    }
  }

  lemma SortSums(s: seq<LegEvent>, dir: int)
    ensures SumDelta(SortDue(s, dir)) == SumDelta(s)
    ensures multiset(SortDue(s, dir)) == multiset(s)
  {
    if s == [] {
    } else {
      SortSums(s[1..], dir);
      InsertSums(s[0], SortDue(s[1..], dir), dir);
      assert s == [s[0]] + s[1..];
    }
  }

  predicate Sorted(s: seq<LegEvent>, dir: int) {
    forall i, j :: 0 <= i < j < |s| ==> RankLeq(s[i], s[j], dir)
  }

  lemma InsertSorted(e: LegEvent, s: seq<LegEvent>, dir: int)
    requires Sorted(s, dir)
    ensures Sorted(Insert(e, s, dir), dir)
  {
    if s == [] || RankLeq(e, s[0], dir) {
    } else {
      InsertSorted(e, s[1..], dir);
      InsertSums(e, s[1..], dir);
      var t := Insert(e, s[1..], dir);
      forall k | 0 <= k < |t|
        ensures RankLeq(s[0], t[k], dir)
      {
        assert t[k] in multiset(t);
        assert t[k] == e || t[k] in s[1..];
      }
    }
  }

  lemma SortSorted(s: seq<LegEvent>, dir: int)
    ensures Sorted(SortDue(s, dir), dir)
  {
    if s == [] {
    } else {
      SortSorted(s[1..], dir);
      InsertSorted(s[0], SortDue(s[1..], dir), dir);
    }
  }

  /** The executions of one sequence and rank, in the order they stand. */
  function OfRank(s: seq<LegEvent>, at: int, rank: int, dir: int): seq<LegEvent> {
    if s == [] then []
    else if s[0].at == at && Rank(s[0], dir) == rank then [s[0]] + OfRank(s[1..], at, rank, dir)
    else OfRank(s[1..], at, rank, dir)
  }

  lemma InsertStable(e: LegEvent, s: seq<LegEvent>, at: int, rank: int, dir: int)
    ensures OfRank(Insert(e, s, dir), at, rank, dir)
            == (if e.at == at && Rank(e, dir) == rank then [e] else []) + OfRank(s, at, rank, dir)
  {
  }

  /** Executions of one sequence and rank are walked in the order they were recorded. */
  lemma SortStable(s: seq<LegEvent>, at: int, rank: int, dir: int)
    ensures OfRank(SortDue(s, dir), at, rank, dir) == OfRank(s, at, rank, dir)
  {
    if s == [] {
    } else {
      SortStable(s[1..], at, rank, dir);
      InsertStable(s[0], SortDue(s[1..], dir), at, rank, dir);
    }
  }

  // ---- The walk of a whole interval -------------------------------------------------------

  function Due(b: Book, view: View): seq<LegEvent>
    requires b.cursor.Some?
  {
    SortDue(Between(b.events, b.cursor.value, view.at), Direction(b.core.share))
  }

  predicate Matches(b: Book, view: View)
    requires b.cursor.Some?
  {
    b.cursor.value < view.at && ExpectedLeg(b, view.at) == view.size
  }

  /** A proven walk onto a matching view: the fold over its executions, charged where
      they took the leg below the share; the cap to the view changes nothing. */
  lemma ProvenWalkIsFold(b: Book, view: View)
    requires b.cursor.Some? && Held(b.core, b.leg) && Matches(b, view)
    ensures var w := Walk(b, view, true);
            var r := Fold(RefOf(b.core, b.leg), Due(b, view));
            && RefOf(w.0.core, w.0.leg) == r && r.leg == view.size
            && Held(w.0.core, w.0.leg)
            && Verdicts(w.1) == Charges(RefOf(b.core, b.leg), Due(b, view))
  {
    hide Between, SortDue, NoteSides, CapGaps, StepOf, Fold, Charges;
    var due := Due(b, view);
    WalkRefinesFold(b.core, b.leg, due);
    WalkLeg(b.core, b.leg, due, true);
    SortSums(Between(b.events, b.cursor.value, view.at), Direction(b.core.share));
    var c := WalkEvents(b.core, b.leg, due, true).core;
    LimitsAreToward(c.share, view.size);
  }
}

// What every reachable state of a started ledger keeps, one operation at a time.

module LegInvariant {
  import opened Common
  import opened LegTypes
  import opened LegBook
  import opened LegFold

  // ---- The parts of the invariant ---------------------------------------------------------

  /** A gap that can still complete started with a share within the journal and the leg. */
  predicate GapOk(g: LegGap) {
    && g.doubt >= 0
    && (g.startSeq.Some? ==> InHull(g.startShare, g.startJournal) && InHull(g.startShare, g.startLeg))
  }

  predicate GapsOk(gaps: seq<LegGap>) {
    forall i :: 0 <= i < |gaps| ==> GapOk(gaps[i])
  }

  /** The doubt is covered by the gaps that account for it. */
  predicate Covered(c: Core) {
    GapsOk(c.gaps) && 0 <= c.doubt <= GapDoubt(c.gaps) && |c.gaps| <= MAX_GAPS
  }

  predicate Sign(dir: int) { dir == 1 || dir == -1 }

  predicate CreditsOk(credits: seq<Credit>) {
    |credits| <= MAX_CREDITS && forall i :: 0 <= i < |credits| ==> credits[i].qty > 0 && Sign(credits[i].dir)
  }

  predicate NetOk(toNet: map<int, int>) {
    forall k :: k in toNet ==> Sign(k) && toNet[k] > 0
  }

  predicate RoomOk(c: Core, leg: int) {
    && 1 in c.room && -1 in c.room
    && 0 <= c.room[1] <= Foreign(leg, c.share, 1)
    && 0 <= c.room[-1] <= Foreign(leg, c.share, -1)
  }

  /** What holds of the accounts whatever is proven. */
  predicate Books(c: Core) {
    InHull(c.share, c.journal) && Covered(c) && CreditsOk(c.credits) && NetOk(c.toNet)
  }

  /** The invariant of a started ledger. The doubt may outlast a share clamped to nothing. */
  predicate CoreInv(c: Core, leg: int) {
    && Books(c) && InHull(c.share, leg) && RoomOk(c, leg)
    && (c.doubt <= Abs(c.share) || c.share == 0)
  }

  /** The journal as it was before the verdicts still to net. */
  function Bal(c: Core): int {
    c.journal + Get(c.toNet, 1) - Get(c.toNet, -1)
  }

  function NetTotal(c: Core): int {
    Get(c.toNet, 1) + Get(c.toNet, -1)
  }

  /** What outcomes took of the run's journal; a verdict of a re-walk took nothing. */
  function Taken(outs: seq<Outcome>): int {
    if outs == [] then 0 else (if outs[0].settled then 0 else outs[0].consumed) + Taken(outs[1..])
  }

  lemma TakenSum(a: seq<Outcome>, b: seq<Outcome>)
    ensures Taken(a + b) == Taken(a) + Taken(b)
  {
    if a == [] {
      assert a + b == b;
    } else {
      assert (a + b)[1..] == a[1..] + b;
    }
  }

  // ---- Bookkeeping ---------------------------------------------------------------------------

  lemma GapDoubtNonneg(gaps: seq<LegGap>)
    requires GapsOk(gaps)
    ensures GapDoubt(gaps) >= 0
  {
  }

  lemma CapGapsSum(gaps: seq<LegGap>, limit: int)
    requires GapsOk(gaps) && limit >= 0
    ensures GapsOk(CapGaps(gaps, limit))
    ensures GapDoubt(CapGaps(gaps, limit)) >= Min(GapDoubt(gaps), limit)
  {
    if gaps == [] {
    } else {
      var rest := gaps[1..];
      assert forall i :: 0 <= i < |rest| ==> rest[i] == gaps[i + 1];
      CapGapsSum(rest, limit);
      GapDoubtNonneg(rest);
      GapDoubtNonneg(CapGaps(rest, limit));
      var one := gaps[0].(doubt := Min(gaps[0].doubt, limit));
      assert ([one] + CapGaps(rest, limit))[1..] == CapGaps(rest, limit);
    }
  }

  /** Capping keeps the cover, and never holds more doubt than the share. */
  lemma CapCovers(c: Core)
    requires Covered(c)
    ensures var r := CapDoubt(c); Covered(r) && r.doubt == Min(c.doubt, Abs(c.share))
  {
    CapGapsSum(c.gaps, Abs(c.share));
  }

  lemma GapDoubtAppend(a: seq<LegGap>, b: seq<LegGap>)
    ensures GapDoubt(a + b) == GapDoubt(a) + GapDoubt(b)
  {
    if a == [] {
      assert a + b == b;
    } else {
      assert (a + b)[1..] == a[1..] + b;
    }
  }

  /** Merging the oldest gaps loses none of their doubt. */
  lemma MergeKeeps(gaps: seq<LegGap>)
    requires GapsOk(gaps)
    ensures var r := MergeGaps(gaps);
            GapsOk(r) && GapDoubt(r) == GapDoubt(gaps) && |r| <= MAX_GAPS
            && (|gaps| > 0 ==> |r| > 0)
    decreases |gaps|
  {
    if |gaps| > MAX_GAPS {
      var m := [Merged(gaps[0], gaps[1])] + gaps[2..];
      assert forall i :: 1 <= i < |m| ==> m[i] == gaps[i + 1];
      assert gaps[1..][1..] == gaps[2..] && m[1..] == gaps[2..];
      MergeKeeps(m);
    }
  }

  lemma CreditKept(c: Core, at: int, quantity: int, dir: int)
    requires CreditsOk(c.credits) && (quantity > 0 && dir != 0 ==> Sign(dir))
    ensures CreditsOk(AddCredit(c, at, quantity, dir).credits)
  {
  }

  lemma JournalTaken(c: Core, quantity: int, dir: int)
    requires NetOk(c.toNet) && (quantity > 0 && dir != 0 ==> Sign(dir))
    ensures var r := TakeJournal(c, quantity, dir);
            && NetOk(r.toNet) && Bal(r) == Bal(c)
            && NetTotal(r) == NetTotal(c) + (if quantity > 0 && dir != 0 then quantity else 0)
            && r.journal == c.journal - (if quantity > 0 then Along(quantity, dir) else 0)
  {
  }

  lemma NotedRoom(c: Core, leg: int)
    requires InHull(c.share, leg)
    requires forall k :: k in c.room && Sign(k) ==> c.room[k] >= 0
    ensures RoomOk(NoteRoom(c, leg), leg)
  {
  }

  // ---- One step ----------------------------------------------------------------------------------

  lemma OwnKeeps(c: Core, leg: int, e: LegEvent, proven: bool)
    requires Books(c) && e.own && (proven ==> CoreInv(c, leg))
    ensures var s := OwnStep(c, leg, e, proven);
            && Books(s.core) && (proven ==> CoreInv(s.core, s.leg))
            && Bal(s.core) == Bal(c) + e.share && s.core.toNet == c.toNet && Taken(s.outs) == 0
            && s.core.doubt <= Abs(s.core.share) && s.core.doubtSeq == c.doubtSeq
            && s.core.credits == c.credits
  {
    hide Bounded, Capped, CapDoubt, Toward, GapDoubt, NoteRoom;
    var leg' := leg + e.delta;
    var journal := c.journal + e.share;
    LimitsAreToward(c.share + e.share, journal);
    LimitsAreToward(c.share + e.share, leg');
    LimitsAreToward(Capped(c.share + e.share, leg'), journal);
    var share := if proven then Bounded(Capped(c.share + e.share, leg'), journal)
                 else Bounded(c.share + e.share, journal);
    var c' := c.(journal := journal, share := share);
    CapCovers(c');
    if proven {
      TowardInside(Toward(c.share + e.share, leg'), journal, leg');
      NotedRoom(CapDoubt(c'), leg');
    }
  }

  /** The accounts once a foreign execution's charge was taken. */
  function ChargedCore(c: Core, charge: (int, int)): Core {
    var dir := Direction(c.share);
    var c1 := if charge.0 != 0
              then TakeJournal(c.(share := Along(Abs(c.share) - charge.0, dir)), charge.0, dir)
              else c;
    if charge.1 != 0 then AddCredit(c1.(doubt := Max(0, c1.doubt - charge.1)), c1.doubtSeq, charge.1, dir)
    else c1
  }

  lemma ForeignStepIs(c: Core, leg: int, e: LegEvent, proven: bool)
    ensures var s := ForeignStep(c, leg, e, proven);
            var charge := Charge(c, leg, e, proven);
            var c3 := CapDoubt(ChargedCore(c, charge));
            s.leg == leg + e.delta && s.core == (if proven then NoteRoom(c3, s.leg) else c3)
            && Taken(s.outs) == charge.0
  {
    hide CapDoubt, NoteRoom, TakeJournal, AddCredit, Charge;
    var out := ForeignStep(c, leg, e, proven).outs;
    assert out[1..] == [];
  }

  lemma ChargedKeeps(c: Core, charge: (int, int))
    requires Books(c) && 0 <= charge.1 <= charge.0 <= Abs(c.share)
    ensures var r := ChargedCore(c, charge);
            && Books(r) && Bal(r) == Bal(c) && NetTotal(r) == NetTotal(c) + charge.0
            && r.share == Along(Abs(c.share) - charge.0, Direction(c.share))
            && r.room == c.room && r.doubtSeq == c.doubtSeq
  {
    hide TakeJournal, AddCredit, GapDoubt, NetOk, CreditsOk;
    var dir := Direction(c.share);
    JournalTaken(c.(share := Along(Abs(c.share) - charge.0, dir)), charge.0, dir);
    var c1 := if charge.0 != 0
              then TakeJournal(c.(share := Along(Abs(c.share) - charge.0, dir)), charge.0, dir)
              else c;
    CreditKept(c1.(doubt := Max(0, c1.doubt - charge.1)), c1.doubtSeq, charge.1, dir);
    GapDoubtNonneg(c.gaps);
  }

  lemma ForeignKeeps(c: Core, leg: int, e: LegEvent, proven: bool)
    requires Books(c) && !e.own && (proven ==> CoreInv(c, leg))
    ensures var s := ForeignStep(c, leg, e, proven);
            && Books(s.core) && (proven ==> CoreInv(s.core, s.leg))
            && Bal(s.core) == Bal(c) && NetTotal(s.core) == NetTotal(c) + Taken(s.outs)
            && s.core.doubt <= Abs(s.core.share) && s.core.doubtSeq == c.doubtSeq
  {
    hide CapDoubt, NoteRoom, Toward, Charge, ChargedCore, GapDoubt, ForeignStep, CreditsOk, NetOk, Taken;
    ForeignStepIs(c, leg, e, proven);
    var charge := Charge(c, leg, e, proven);
    ChargeBounds(c, leg, e, proven);
    ChargedKeeps(c, charge);
    var r := ChargedCore(c, charge);
    CapCovers(r);
    if proven {
      ForeignLimits(c, leg, e);
      NotedRoom(CapDoubt(r), leg + e.delta);
    }
  }

  lemma TowardInside(x: int, journal: int, h: int)
    requires InHull(x, h)
    ensures InHull(Toward(x, journal), h)
  {
  }

  lemma ChargeBounds(c: Core, leg: int, e: LegEvent, proven: bool)
    ensures var charge := Charge(c, leg, e, proven);
            0 <= charge.1 <= charge.0 <= Abs(c.share) && (!proven ==> charge.0 == 0)
  {
  }

  function OwnShares(s: seq<LegEvent>): int {
    if s == [] then 0 else (if s[0].own then s[0].share else 0) + OwnShares(s[1..])
  }

  /** A walk keeps the accounts, moves the journal by the own changes it applied less the
      verdicts, and reports exactly the verdicts it took. */
  lemma {:induction false} WalkKeeps(c: Core, leg: int, due: seq<LegEvent>, proven: bool)
    requires Books(c) && (proven ==> CoreInv(c, leg))
    ensures var w := WalkEvents(c, leg, due, proven);
            && Books(w.core) && (proven ==> CoreInv(w.core, w.leg))
            && Bal(w.core) == Bal(c) + OwnShares(due)
            && NetTotal(w.core) == NetTotal(c) + Taken(w.outs)
            && w.core.doubtSeq == c.doubtSeq
    decreases |due|
  {
    if due != [] {
      hide OwnStep, ForeignStep, Books, CoreInv, Bal, NetTotal, Taken;
      var s := StepOf(c, leg, due[0], proven);
      if due[0].own {
        OwnKeeps(c, leg, due[0], proven);
        assert NetTotal(s.core) == NetTotal(c) by { SameNet(s.core, c); }
      } else {
        ForeignKeeps(c, leg, due[0], proven);
      }
      WalkKeeps(s.core, s.leg, due[1..], proven);
      TakenSum(s.outs, WalkEvents(s.core, s.leg, due[1..], proven).outs);
    } else {
      assert Taken([]) == 0;
    }
  }

  lemma SameNet(a: Core, b: Core)
    requires a.toNet == b.toNet
    ensures NetTotal(a) == NetTotal(b)
  {
  }

  // ---- Late fills ------------------------------------------------------------------------------------

  lemma SetGap(gaps: seq<LegGap>, i: nat, g: LegGap)
    requires i < |gaps|
    ensures GapDoubt(gaps[i := g]) == GapDoubt(gaps) - gaps[i].doubt + g.doubt
  {
    if i == 0 {
      assert gaps[0 := g][1..] == gaps[1..];
    } else {
      assert gaps[i := g][1..] == gaps[1..][i - 1 := g];
      SetGap(gaps[1..], i - 1, g);
    }
  }

  /** Entering a late fill resolves no more doubt than its gap is freed of. */
  lemma ResolveKeeps(c: Core, e: LegEvent)
    requires Covered(c)
    ensures var r := LateResolve(c, e);
            Covered(r) && r.doubt <= c.doubt
  {
    var i := GapOf(c.gaps, e.at);
    var resolved := Max(0, -Along(e.share, Direction(c.share)));
    if i.Some? {
      var g := JoinGap(c.gaps[i.value], e);
      var h := g.(doubt := Max(0, g.doubt - resolved));
      SetGap(c.gaps, i.value, g);
      SetGap(c.gaps, i.value, h);
      assert c.gaps[i.value := g][i.value := h] == c.gaps[i.value := h];
      GapDoubtNonneg(c.gaps[i.value := h]);
    }
  }

  lemma GapAdded(c: Core, gap: LegGap)
    requires GapsOk(c.gaps) && GapOk(gap)
    ensures var r := AddGap(c, gap);
            GapsOk(r.gaps) && GapDoubt(r.gaps) == GapDoubt(c.gaps) + gap.doubt && |r.gaps| <= MAX_GAPS
  {
    GapDoubtAppend(c.gaps, [gap]);
    MergeKeeps(c.gaps + [gap]);
  }

  lemma LateDoubtKeeps(c: Core, leg: int, cursor: int, blind: int, e: LegEvent, kept: int)
    requires Covered(c)
    ensures var r := LateDoubt(c, leg, cursor, blind, e, kept);
            Covered(r)
  {
    hide CapDoubt, AddGap, GapDoubt;
    if kept > 0 && e.at != blind {
      var i := GapOf(c.gaps, e.at);
      var held;
      if i.Some? && c.gaps[i.value].startSeq.Some? && c.gaps[i.value].endSeq == blind {
        var g := c.gaps[i.value].(doubt := c.gaps[i.value].doubt + kept);
        SetGap(c.gaps, i.value, g);
        held := c.(gaps := c.gaps[i.value := g]);
      } else {
        var g := LegGap(None, cursor, leg, leg, c.share, c.journal, c.doubt, [], {}, kept, false);
        GapAdded(c, g);
        held := AddGap(c, g);
      }
      CapCovers(held.(doubt := held.doubt + kept, doubtSeq := Max(held.doubtSeq, blind)));
    }
  }

  /** The share a late fill leaves, and the room: what it shrinks gives room back, what it
      grows uses it. */
  lemma LateRoom(c: Core, leg: int, cursor: int, wanted: int, late: bool)
    requires CoreInv(c, leg)
    ensures var move := ShareMove(c.share, wanted);
            var c1 := LateShrink(c, Direction(c.share), move.0, late);
            var kept := Kept(c1.room, Direction(wanted), move.1);
            var room := if move.1 > 0 then c1.room[Direction(wanted) := Get(c1.room, Direction(wanted)) - kept]
                        else c1.room;
            var share := c.share - Along(move.0, Direction(c.share)) + Along(kept, Direction(wanted));
            && RoomOk(c.(room := room, share := share), leg) && InHull(share, leg)
            && 0 <= kept <= Max(move.1, 0) && move.1 >= 0
            && (move.1 > 0 ==> wanted != 0) && wanted - share == Along(move.1 - kept, Direction(wanted))
            && InHull(share, wanted)
  {
    hide Covered, CreditsOk, NetOk;
  }

  /** What a growth finds no room for is taken off the journal and credited. */
  lemma GrowKeeps(c: Core, cursor: int, side: int, grown: int)
    requires CreditsOk(c.credits) && NetOk(c.toNet) && (grown > 0 ==> Sign(side))
    ensures var r := LateGrow(c, cursor, side, grown);
            var kept := Kept(c.room, side, grown);
            && CreditsOk(r.credits) && NetOk(r.toNet) && Bal(r) == Bal(c)
            && NetTotal(r) == NetTotal(c) + (if grown > 0 then grown - kept else 0)
            && r.journal == c.journal - (if grown > 0 then Along(grown - kept, side) else 0)
            && r.room == (if grown > 0 then c.room[side := Get(c.room, side) - kept] else c.room)
            && r.gaps == c.gaps && r.doubt == c.doubt && r.share == c.share
  {
    hide AddCredit, TakeJournal, CreditsOk, NetOk, Get;
    var kept := Kept(c.room, side, grown);
    var c1 := c.(room := c.room[side := Get(c.room, side) - kept]);
    JournalTaken(c1, grown - kept, side);
    CreditKept(TakeJournal(c1, grown - kept, side), cursor, grown - kept, side);
  }

  /** A late fill's accounts. */
  lemma LateShareRoom(c: Core, leg: int, cursor: int, blind: int, e: LegEvent)
    requires CoreInv(c, leg)
    ensures var wanted := Bounded(c.share + e.share, c.journal + e.share);
            var move := ShareMove(c.share, wanted);
            var c1 := LateShrink(c.(journal := c.journal + e.share), Direction(c.share), move.0, e.at <= blind);
            var kept := Kept(c1.room, Direction(wanted), move.1);
            var c3 := LateGrow(c1, cursor, Direction(wanted), move.1);
            var share := c.share - Along(move.0, Direction(c.share)) + Along(kept, Direction(wanted));
            && RoomOk(c3.(share := share), leg) && InHull(share, leg) && InHull(share, c3.journal)
            && CreditsOk(c3.credits) && NetOk(c3.toNet)
            && Bal(c3) == Bal(c) + e.share
            && NetTotal(c3) == NetTotal(c) + (if move.1 > 0 then move.1 - kept else 0)
            && (move.1 > 0 ==> 0 <= kept <= move.1)
            && c3.gaps == c.gaps && c3.doubt == c.doubt
  {
    hide Bounded, Toward, Covered, LateGrow, ShareMove, RoomOk, CreditsOk, NetOk, Kept, Get;
    var wanted := Bounded(c.share + e.share, c.journal + e.share);
    LimitsAreToward(c.share + e.share, c.journal + e.share);
    var move := ShareMove(c.share, wanted);
    var side := Direction(wanted);
    LateRoom(c, leg, cursor, wanted, e.at <= blind);
    var c1 := LateShrink(c.(journal := c.journal + e.share), Direction(c.share), move.0, e.at <= blind);
    GrowKeeps(c1, cursor, side, move.1);
    var c3 := LateGrow(c1, cursor, side, move.1);
    var share := c.share - Along(move.0, Direction(c.share)) + Along(Kept(c1.room, side, move.1), side);
    RoomSame(c.(room := c3.room, share := share), c3.(share := share), leg);
  }

  /** Late fills keep the invariant; the journal moves by the fill less what is booked gone. */
  lemma LateKeeps(c: Core, leg: int, cursor: int, blind: int, e: LegEvent)
    requires CoreInv(c, leg)
    ensures var r := LateCore(c, leg, cursor, blind, e);
            && CoreInv(r.0, leg) && r.0.doubt <= Abs(r.0.share)
            && Bal(r.0) == Bal(c) + e.share
            && NetTotal(r.0) == NetTotal(c) + Taken(if r.1.Some? then [r.1.value] else [])
  {
    hide Bounded, CapDoubt, GapDoubt, LateResolve, LateDoubt, LateGrow, Kept, ShareMove, Get;
    hide RoomOk, CreditsOk, NetOk, Covered, InHull;
    var wanted := Bounded(c.share + e.share, c.journal + e.share);
    var move := ShareMove(c.share, wanted);
    var side := Direction(wanted);
    LateShareRoom(c, leg, cursor, blind, e);
    var c1 := LateShrink(c.(journal := c.journal + e.share), Direction(c.share), move.0, e.at <= blind);
    ResolveKeeps(c1, e) by { assert Covered(c1) by { CoveredSame(c, c1); } }
    var c2 := LateResolve(c1, e);
    var kept := Kept(c2.room, side, move.1);
    GrowIgnores(c1, c2.doubt, c2.gaps, cursor, side, move.1);
    var c3 := LateGrow(c2, cursor, side, move.1);
    var c4 := c3.(share := c.share - Along(move.0, Direction(c.share)) + Along(kept, side));
    assert Covered(c4) by { CoveredSame(c2, c4); }
    LateDoubtKeeps(c4, leg, cursor, blind, e, kept);
    var c5 := LateDoubt(c4, leg, cursor, blind, e, kept);
    CapCovers(c5);
    var r := CapDoubt(c5);
    RoomSame(LateGrow(c1, cursor, side, move.1).(share := c4.share), r, leg);
    assert Bal(r) == Bal(c4) == Bal(c3) && NetTotal(r) == NetTotal(c3);
  }

  lemma CoveredSame(a: Core, b: Core)
    requires Covered(a) && a.gaps == b.gaps && a.doubt == b.doubt
    ensures Covered(b)
  {
  }

  lemma RoomSame(a: Core, b: Core, leg: int)
    requires RoomOk(a, leg) && a.room == b.room && a.share == b.share
    ensures RoomOk(b, leg)
  {
  }

  lemma GrowIgnores(c: Core, doubt: int, gaps: seq<LegGap>, cursor: int, side: int, grown: int)
    ensures LateGrow(c.(doubt := doubt, gaps := gaps), cursor, side, grown)
            == LateGrow(c, cursor, side, grown).(doubt := doubt, gaps := gaps)
  {
  }

  // ---- Judging a gap again -----------------------------------------------------------------------------

  lemma SettledTakeNothing(outs: seq<Outcome>)
    ensures Taken(Settled(outs)) == 0
  {
  }

  lemma CapGapsAt(gaps: seq<LegGap>, limit: int, j: nat)
    requires j < |gaps|
    ensures CapGaps(gaps, limit)[j] == gaps[j].(doubt := Min(gaps[j].doubt, limit))
  {
    if j > 0 {
      CapGapsAt(gaps[1..], limit, j - 1);
    }
  }

  /** Judging gaps again books nothing, keeps the doubt covered and never raises it. */
  lemma {:induction false} SettleKeeps(c: Core, known: set<int>, i: nat)
    requires Covered(c)
    ensures var r := SettleFrom(c, known, i);
            && Covered(r.0) && r.0 == c.(doubt := r.0.doubt, gaps := r.0.gaps) && r.0.doubt <= c.doubt
            && Taken(r.1) == 0
    decreases |c.gaps| - i
  {
    hide Complete, Rewalk, Guessed, CapDoubt, GapDoubt, Settled;
    if i < |c.gaps| {
      var g := c.gaps[i];
      if g.settled || !Complete(g, known) {
        SettleKeeps(c, known, i + 1);
      } else if Guessed(Rewalk(g)) {
        var c' := c.(gaps := c.gaps[i := g.(settled := true)]);
        SetGap(c.gaps, i, g.(settled := true));
        SettleKeeps(c', known, i + 1);
        TakenSum(Settled(Rewalk(g)), SettleFrom(c', known, i + 1).1);
        SettledTakeNothing(Rewalk(g));
      } else {
        var rest := c.gaps[..i] + c.gaps[i + 1..];
        var c1 := c.(gaps := rest, doubt := Min(c.doubt, GapDoubt(rest)));
        assert forall k :: 0 <= k < |rest| ==> rest[k] == if k < i then c.gaps[k] else c.gaps[k + 1];
        GapDoubtNonneg(rest);
        CapCovers(c1);
        SettleKeeps(CapDoubt(c1), known, i);
        TakenSum(Settled(Rewalk(g)), SettleFrom(CapDoubt(c1), known, i).1);
        SettledTakeNothing(Rewalk(g));
      }
    }
  }

}

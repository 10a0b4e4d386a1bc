// What an execution that arrives late for its interval makes of the ledger: the doubt it
// resolves or leaves, the gap it completes, the room it gives back, and what is reported of it.

module LegResolve {
  import opened Common
  import opened LegTypes
  import opened LegBook
  import opened LegFold
  import opened LegInvariant
  import opened LegRuns

  /** What a late own fill takes off the side the run holds. */
  function Reduced(c: Core, e: LegEvent): int {
    Max(0, -Along(e.share, Direction(c.share)))
  }

  /** What of the doubt it resolves: all it takes, while executions of the doubt may be missing. */
  function Resolved(c: Core, e: LegEvent): int {
    if c.share != 0 && e.at <= c.doubtSeq then Reduced(c, e) else 0
  }

  /** What a share that became `after` gained on its side. */
  function Gained(before: int, after: int): int {
    if Direction(after) == Direction(before) then Max(0, Abs(after) - Abs(before)) else Abs(after)
  }

  /** Of a gain, what is held in doubt: all, unless the fill is stamped with the blind view. */
  function Doubted(c: Core, after: int, blind: int, e: LegEvent): int {
    if e.at == blind then 0 else Gained(c.share, after)
  }

  /** The gap is the one the blind view ended, and can complete. */
  predicate EndsBlind(g: LegGap, blind: int) {
    g.startSeq.Some? && g.endSeq == blind
  }

  /** The share move of a late fill, in terms of the share it leaves. */
  lemma LateMove(c: Core, leg: int, cursor: int, blind: int, e: LegEvent) returns (wanted: int, kept: int)
    requires CoreInv(c, leg)
    ensures var r := LateCore(c, leg, cursor, blind, e);
            && wanted == Toward(c.share + e.share, c.journal + e.share)
            && kept == Gained(c.share, r.0.share) && InHull(r.0.share, wanted) && InHull(r.0.share, leg)
            && Abs(wanted) - Abs(r.0.share) == ShareMove(c.share, wanted).1 - kept && kept >= 0
            && r.1 == (if r.0.share == wanted then None
                       else Some(Outcome(Some(e), Abs(wanted) - Abs(r.0.share), false, Abs(wanted),
                                         Max(Along(leg, Direction(wanted)), 0), e.at, 0, 0, 0, false)))
    ensures var move := ShareMove(c.share, wanted);
            var c1 := LateShrink(c.(journal := c.journal + e.share), Direction(c.share), move.0, e.at <= blind);
            var c2 := LateResolve(c1, e);
            var c3 := LateGrow(c2, cursor, Direction(wanted), move.1);
            var c4 := c3.(share := LateCore(c, leg, cursor, blind, e).0.share);
            && LateCore(c, leg, cursor, blind, e).0 == CapDoubt(LateDoubt(c4, leg, cursor, blind, e, kept))
            && c4.doubt == c2.doubt && c4.gaps == c2.gaps && c4.doubtSeq == c2.doubtSeq
  {
    hide CapDoubt, LateDoubt, LateResolve, LateGrow, CoreInv, Toward, Bounded, Kept, Gained, ShareMove;
    hide RoomOk, InHull, Along, Direction;
    wanted := Bounded(c.share + e.share, c.journal + e.share);
    LimitsAreToward(c.share + e.share, c.journal + e.share);
    LateRoom(c, leg, cursor, wanted, e.at <= blind);
    var move := ShareMove(c.share, wanted);
    var c1 := LateShrink(c.(journal := c.journal + e.share), Direction(c.share), move.0, e.at <= blind);
    var c2 := LateResolve(c1, e);
    kept := Kept(c2.room, Direction(wanted), move.1);
    GrowLeaves(c2, cursor, Direction(wanted), move.1);
    var c3 := LateGrow(c2, cursor, Direction(wanted), move.1);
    var share := c.share - Along(move.0, Direction(c.share)) + Along(kept, Direction(wanted));
    CapLeavesShare(LateDoubt(c3.(share := share), leg, cursor, blind, e, kept));
    MoveGains(c.share, wanted, kept);
  }

  lemma GrowLeaves(c: Core, cursor: int, side: int, grown: int)
    ensures var r := LateGrow(c, cursor, side, grown);
            r.doubt == c.doubt && r.gaps == c.gaps && r.doubtSeq == c.doubtSeq && r.share == c.share
  {
  }

  lemma CapLeavesShare(c: Core)
    ensures CapDoubt(c).share == c.share
  {
  }

  lemma MoveGains(before: int, wanted: int, kept: int)
    requires 0 <= kept <= ShareMove(before, wanted).1
    ensures var move := ShareMove(before, wanted);
            var share := before - Along(move.0, Direction(before)) + Along(kept, Direction(wanted));
            && kept == Gained(before, share)
            && (share == wanted <==> kept == move.1) && Abs(wanted) - Abs(share) == move.1 - kept
  {
  }

  // ---- The doubt -------------------------------------------------------------------------------------

  /** Entering a late fill: the doubt and the gap it falls into lose what it resolves, every other
      gap stays. */
  lemma ResolveExact(c: Core, e: LegEvent)
    requires Covered(c)
    ensures var r, i := LateResolve(c, e), GapOf(c.gaps, e.at);
            && r == c.(doubt := Max(0, c.doubt - Resolved(c, e)), gaps := r.gaps) && |r.gaps| == |c.gaps|
            && forall k :: 0 <= k < |c.gaps| ==>
                 r.gaps[k] == if i == Some(k)
                              then JoinGap(c.gaps[k], e).(doubt := Max(0, c.gaps[k].doubt - Resolved(c, e)))
                              else c.gaps[k]
  {
    hide Put;
  }

  lemma CapExact(c: Core)
    requires c.doubt >= 0
    ensures var r := CapDoubt(c);
            r == c.(doubt := Min(c.doubt, Abs(c.share)),
                    gaps := if r.doubt == 0 then [] else CapGaps(c.gaps, Abs(c.share)))
  {
  }

  /** What of the doubt a late own fill leaves: what it does not resolve, and what of its own is
      doubted, at most the share. */
  lemma LateDoubtExact(c: Core, leg: int, cursor: int, blind: int, e: LegEvent)
    requires CoreInv(c, leg)
    ensures var r := LateCore(c, leg, cursor, blind, e).0;
            r.doubt == Min(Max(0, c.doubt - Resolved(c, e)) + Doubted(c, r.share, blind, e), Abs(r.share))
  {
    hide CapDoubt, LateResolve, LateGrow, LateShrink, LateCore, CoreInv, Toward, ShareMove, AddGap, Gained, Resolved;
    var wanted, kept := LateMove(c, leg, cursor, blind, e);
    var move := ShareMove(c.share, wanted);
    var c1 := LateShrink(c.(journal := c.journal + e.share), Direction(c.share), move.0, e.at <= blind);
    assert Covered(c1) && Resolved(c1, e) == Resolved(c, e) && c1.doubt == c.doubt >= 0 by {
      ShrinkLeaves(c, leg, e, wanted, blind);
    }
    ResolveExact(c1, e);
    var c2 := LateResolve(c1, e);
    var share := LateCore(c, leg, cursor, blind, e).0.share;
    var c4 := LateGrow(c2, cursor, Direction(wanted), move.1).(share := share);
    var c5 := LateDoubt(c4, leg, cursor, blind, e, kept);
    assert c4.doubt == Max(0, c.doubt - Resolved(c, e)) && c4.share == share;
    DoubtAdded(c4, leg, cursor, blind, e, kept);
    CapExact(c5);
    assert kept >= 0 by { GainedNonneg(c.share, share); }
  }

  lemma GainedNonneg(before: int, after: int)
    ensures Gained(before, after) >= 0
  {
  }

  lemma ShrinkLeaves(c: Core, leg: int, e: LegEvent, wanted: int, blind: int)
    requires CoreInv(c, leg)
    ensures var move := ShareMove(c.share, wanted);
            var c1 := LateShrink(c.(journal := c.journal + e.share), Direction(c.share), move.0, e.at <= blind);
            && Covered(c1) && Resolved(c1, e) == Resolved(c, e) && c1.gaps == c.gaps && c1.doubt == c.doubt
            && c1.share == c.share && c1.doubtSeq == c.doubtSeq && c.doubt >= 0
  {
  }

  /** The doubt of a kept part, and the share it is capped to. */
  lemma DoubtAdded(c: Core, leg: int, cursor: int, blind: int, e: LegEvent, kept: int)
    requires c.doubt >= 0
    ensures var r := LateDoubt(c, leg, cursor, blind, e, kept);
            && r.share == c.share && r.doubt >= 0
            && Min(r.doubt, Abs(c.share))
               == Min(c.doubt + (if kept > 0 && e.at != blind then kept else 0), Abs(c.share))
  {
    hide CapDoubt, AddGap, CapGaps;
    if kept > 0 && e.at != blind {
      var i := GapOf(c.gaps, e.at);
      var held :=
        if i.Some? && c.gaps[i.value].startSeq.Some? && c.gaps[i.value].endSeq == blind
        then c.(gaps := c.gaps[i.value := c.gaps[i.value].(doubt := c.gaps[i.value].doubt + kept)])
        else AddGap(c, LegGap(None, cursor, leg, leg, c.share, c.journal, c.doubt, [], {}, kept, false));
      CapExact(held.(doubt := held.doubt + kept, doubtSeq := Max(held.doubtSeq, blind)));
    }
  }

  /** A late own reduce the share covers leaves the share lower by what it took. Of an interval in
      doubt it resolves just that much; behind it, nothing. */
  lemma LateReduceDoubt(c: Core, leg: int, cursor: int, blind: int, e: LegEvent)
    requires CoreInv(c, leg) && c.share != 0 && 0 < Reduced(c, e) <= Abs(c.share)
    ensures var r, taken := LateCore(c, leg, cursor, blind, e), Reduced(c, e);
            && r.0.share == c.share + e.share && r.1.None?
            && r.0.doubt == if e.at <= c.doubtSeq then Min(Max(0, c.doubt - taken), Abs(r.0.share))
                            else Min(c.doubt, Abs(r.0.share))
  {
    hide LateCore, CreditsOk, NetOk, GapDoubt;
    var wanted, kept := LateMove(c, leg, cursor, blind, e);
    LateDoubtExact(c, leg, cursor, blind, e);
    CoveredReduce(c, leg, e);
  }

  lemma CoveredReduce(c: Core, leg: int, e: LegEvent)
    requires InHull(c.share, c.journal) && c.share != 0 && 0 < Reduced(c, e) <= Abs(c.share)
    ensures Toward(c.share + e.share, c.journal + e.share) == c.share + e.share
    ensures Abs(c.share + e.share) == Abs(c.share) - Reduced(c, e)
    ensures ShareMove(c.share, c.share + e.share) == (Reduced(c, e), 0)
            && Gained(c.share, c.share + e.share) == 0
  {
  }

  // ---- The gaps --------------------------------------------------------------------------------------

  lemma GapOfSame(a: seq<LegGap>, b: seq<LegGap>, at: int)
    requires |a| == |b| && forall k :: 0 <= k < |a| ==> a[k].startSeq == b[k].startSeq && a[k].endSeq == b[k].endSeq
    ensures GapOf(a, at) == GapOf(b, at)
  {
    if a != [] {
      assert forall k :: 0 <= k < |a| - 1 ==> a[1..][k] == a[k + 1] && b[1..][k] == b[k + 1];
      GapOfSame(a[1..], b[1..], at);
    }
  }

  /** The gap once the fill joined it, gave up what it resolves and took on what of it is doubted. */
  function Entered(c: Core, g: LegGap, e: LegEvent, doubted: int): LegGap {
    JoinGap(g, e).(doubt := Max(0, g.doubt - Resolved(c, e)) + doubted)
  }

  /** The gaps with a doubted part entered, before they are capped. */
  lemma DoubtEntered(c: Core, leg: int, cursor: int, blind: int, e: LegEvent, kept: int)
    requires |c.gaps| <= MAX_GAPS && kept > 0 && e.at != blind
    ensures var r, i := LateDoubt(c, leg, cursor, blind, e, kept), GapOf(c.gaps, e.at);
            && r.share == c.share
            && (if i.Some? && EndsBlind(c.gaps[i.value], blind)
                then var t := c.gaps[i.value := c.gaps[i.value].(doubt := c.gaps[i.value].doubt + kept)];
                     r.gaps == if r.doubt == 0 then [] else CapGaps(t, Abs(c.share))
                else exists t :: t != [] && t[|t| - 1] == NewGap(c, leg, cursor, kept)
                                 && r.gaps == if r.doubt == 0 then [] else CapGaps(t, Abs(c.share)))
  {
    hide CapDoubt, CapGaps, MergeGaps;
    var i := GapOf(c.gaps, e.at);
    if i.Some? && EndsBlind(c.gaps[i.value], blind) {
      var held := c.(gaps := c.gaps[i.value := c.gaps[i.value].(doubt := c.gaps[i.value].doubt + kept)]);
      CapIs(held.(doubt := held.doubt + kept, doubtSeq := Max(held.doubtSeq, blind)));
    } else {
      var held := AddGap(c, NewGap(c, leg, cursor, kept));
      CapIs(held.(doubt := held.doubt + kept, doubtSeq := Max(held.doubtSeq, blind)));
      MergeKeepsLast(c.gaps + [NewGap(c, leg, cursor, kept)]);
      assert held.gaps != [] && held.gaps[|held.gaps| - 1] == NewGap(c, leg, cursor, kept);
    }
  }

  /** A gap that never completes, for a part whose interval is not kept. */
  function NewGap(c: Core, leg: int, cursor: int, kept: int): LegGap {
    LegGap(None, cursor, leg, leg, c.share, c.journal, c.doubt, [], {}, kept, false)
  }

  lemma CapIs(c: Core)
    ensures var r := CapDoubt(c);
            r.share == c.share && r.gaps == if r.doubt == 0 then [] else CapGaps(c.gaps, Abs(c.share))
  {
  }

  lemma MergeKeepsLast(gaps: seq<LegGap>)
    requires gaps != []
    ensures var r := MergeGaps(gaps); r != [] && r[|r| - 1] == gaps[|gaps| - 1]
    decreases |gaps|
  {
    hide Merged;
    if |gaps| > MAX_GAPS {
      var rest := [Merged(gaps[0], gaps[1])] + gaps[2..];
      assert rest[|rest| - 1] == gaps[|gaps| - 1];
      MergeKeepsLast(rest);
    }
  }

  lemma CapTwice(gaps: seq<LegGap>, limit: int)
    ensures CapGaps(CapGaps(gaps, limit), limit) == CapGaps(gaps, limit)
  {
  }

  /** The ledger before what is kept of the fill is doubted. */
  lemma BeforeDoubt(c: Core, leg: int, cursor: int, blind: int, e: LegEvent) returns (d: Core, kept: int)
    requires CoreInv(c, leg)
    ensures var r, i := LateCore(c, leg, cursor, blind, e).0, GapOf(c.gaps, e.at);
            && kept == Gained(c.share, r.share) >= 0 && d.share == r.share
            && r == CapDoubt(LateDoubt(d, leg, cursor, blind, e, kept))
            && GapOf(d.gaps, e.at) == i && |d.gaps| == |c.gaps| <= MAX_GAPS
            && forall k :: 0 <= k < |c.gaps| ==>
                 d.gaps[k] == if i == Some(k) then Entered(c, c.gaps[k], e, 0) else c.gaps[k]
  {
    hide CapDoubt, LateResolve, LateGrow, LateShrink, LateCore, LateDoubt, CoreInv, Toward, ShareMove, Gained, Resolved;
    hide JoinGap, GapOf;
    var wanted, gained := LateMove(c, leg, cursor, blind, e);
    kept := gained;
    var move := ShareMove(c.share, wanted);
    var c1 := LateShrink(c.(journal := c.journal + e.share), Direction(c.share), move.0, e.at <= blind);
    ShrinkLeaves(c, leg, e, wanted, blind);
    ResolveExact(c1, e);
    var c2 := LateResolve(c1, e);
    d := LateGrow(c2, cursor, Direction(wanted), move.1).(share := LateCore(c, leg, cursor, blind, e).0.share);
    assert |c.gaps| <= MAX_GAPS by { FewGaps(c, leg); }
    GapOfSame(c.gaps, d.gaps, e.at) by { Joins(c, e); }
  }

  lemma FewGaps(c: Core, leg: int)
    requires CoreInv(c, leg)
    ensures |c.gaps| <= MAX_GAPS
  {
  }

  /** Nothing doubted: the gaps capped. */
  lemma GapsUndoubted(d: Core, leg: int, cursor: int, blind: int, e: LegEvent, kept: int)
    requires kept <= 0 || e.at == blind
    ensures var r := CapDoubt(LateDoubt(d, leg, cursor, blind, e, kept));
            r.gaps == if r.doubt == 0 then [] else CapGaps(d.gaps, Abs(d.share))
  {
    hide CapDoubt, CapGaps;
    NoneDoubted(d, leg, cursor, blind, e, kept);
    CapIs(d);
  }

  /** A part doubted: the gaps with it entered, capped. */
  lemma GapsDoubted(d: Core, leg: int, cursor: int, blind: int, e: LegEvent, kept: int) returns (t: seq<LegGap>)
    requires |d.gaps| <= MAX_GAPS && kept > 0 && e.at != blind
    requires CapDoubt(LateDoubt(d, leg, cursor, blind, e, kept)).doubt > 0
    ensures var i := GapOf(d.gaps, e.at);
            && CapDoubt(LateDoubt(d, leg, cursor, blind, e, kept)).gaps == CapGaps(t, Abs(d.share))
            && (if i.Some? && EndsBlind(d.gaps[i.value], blind)
                then t == d.gaps[i.value := d.gaps[i.value].(doubt := d.gaps[i.value].doubt + kept)]
                else t != [] && t[|t| - 1] == NewGap(d, leg, cursor, kept))
  {
    hide CapDoubt, CapGaps, LateDoubt, EndsBlind, GapOf, NewGap;
    DoubtEntered(d, leg, cursor, blind, e, kept);
    var i, r, limit := GapOf(d.gaps, e.at), LateDoubt(d, leg, cursor, blind, e, kept), Abs(d.share);
    CapIs(r);
    CapSmaller(r);
    if i.Some? && EndsBlind(d.gaps[i.value], blind) {
      t := d.gaps[i.value := d.gaps[i.value].(doubt := d.gaps[i.value].doubt + kept)];
    } else {
      t :| t != [] && t[|t| - 1] == NewGap(d, leg, cursor, kept) && r.gaps == CapGaps(t, limit);
    }
    CapTwice(t, limit);
  }

  /** What becomes of the kept gaps: the one the late fill falls into gains it, loses the doubt it
      resolves and takes on what of it is doubted; the others stay; all at most the share. A part
      in doubt whose interval is not kept, or did not end on the blind view, is held behind a gap
      of its own that never completes. */
  lemma LateGapsExact(c: Core, leg: int, cursor: int, blind: int, e: LegEvent)
    requires CoreInv(c, leg)
    ensures var r, i := LateCore(c, leg, cursor, blind, e).0, GapOf(c.gaps, e.at);
            var doubted := Doubted(c, r.share, blind, e);
            if doubted == 0 || (i.Some? && EndsBlind(c.gaps[i.value], blind)) then
              (if r.doubt == 0 then r.gaps == []
               else |r.gaps| == |c.gaps|
                    && forall k :: 0 <= k < |c.gaps| ==>
                         var g := if i == Some(k) then Entered(c, c.gaps[k], e, doubted) else c.gaps[k];
                         r.gaps[k] == g.(doubt := Min(g.doubt, Abs(r.share))))
            else r.gaps != []
                 && var g := r.gaps[|r.gaps| - 1];
                    g.startSeq.None? && g.endSeq == cursor && g.events == [] && g.doubt == Min(doubted, Abs(r.share))
  {
    hide CapDoubt, LateCore, LateDoubt, CoreInv, Gained, Resolved, JoinGap, CapGaps, EndsBlind, GapOf;
    var d, kept := BeforeDoubt(c, leg, cursor, blind, e);
    var r, i, limit := LateCore(c, leg, cursor, blind, e).0, GapOf(c.gaps, e.at), Abs(d.share);
    LateDoubtExact(c, leg, cursor, blind, e);
    var doubted := Doubted(c, r.share, blind, e);
    var t := d.gaps;
    if doubted == 0 {
      GapsUndoubted(d, leg, cursor, blind, e, kept);
    } else {
      Positively(c, r, blind, e);
      t := GapsDoubted(d, leg, cursor, blind, e, kept);
    }
    CapSize(t, limit);
    forall k | 0 <= k < |t|
      ensures CapGaps(t, limit)[k] == t[k].(doubt := Min(t[k].doubt, limit))
    {
      CapGapsAt(t, limit, k);
    }
    if i.Some? {
      SameEnds(c, d, e, i.value, blind) by { Joins(c, e); }
    }
  }

  lemma Joins(c: Core, e: LegEvent)
    ensures forall g: LegGap :: JoinGap(g, e).startSeq == g.startSeq && JoinGap(g, e).endSeq == g.endSeq
  {
  }

  lemma CapSize(gaps: seq<LegGap>, limit: int)
    ensures |CapGaps(gaps, limit)| == |gaps|
  {
  }

  lemma NoneDoubted(c: Core, leg: int, cursor: int, blind: int, e: LegEvent, kept: int)
    requires kept <= 0 || e.at == blind
    ensures LateDoubt(c, leg, cursor, blind, e, kept) == c
  {
  }

  lemma Positively(c: Core, r: Core, blind: int, e: LegEvent)
    requires r.doubt == Min(Max(0, c.doubt - Resolved(c, e)) + Doubted(c, r.share, blind, e), Abs(r.share))
    requires Doubted(c, r.share, blind, e) != 0
    ensures r.doubt > 0
  {
    hide Resolved;
  }

  lemma CapSmaller(c: Core)
    ensures CapDoubt(c).doubt <= Max(0, c.doubt)
  {
  }

  lemma SameEnds(c: Core, d: Core, e: LegEvent, i: nat, blind: int)
    requires i < |c.gaps| && i < |d.gaps|
    requires d.gaps[i].startSeq == c.gaps[i].startSeq && d.gaps[i].endSeq == c.gaps[i].endSeq
    ensures EndsBlind(d.gaps[i], blind) <==> EndsBlind(c.gaps[i], blind)
  {
  }

  // ---- The room --------------------------------------------------------------------------------------

  /** A late own reduce of a step the blind view knew gives its side the room every step since
      would have had; one behind the view gives none. */
  lemma LateReduceRoom(c: Core, leg: int, cursor: int, blind: int, e: LegEvent)
    requires CoreInv(c, leg) && c.share != 0 && 0 < Reduced(c, e) <= Abs(c.share)
    ensures var r, side := LateCore(c, leg, cursor, blind, e).0, Direction(c.share);
            && r.share == c.share + e.share && r.journal == c.journal + e.share
            && side in c.room
            && r.room == (if e.at <= blind then c.room[side := c.room[side] + Reduced(c, e)] else c.room)
            && r.credits == c.credits && r.toNet == c.toNet
  {
    hide CapDoubt, LateDoubt, LateResolve, ShareMove, Bounded, Toward, Covered, CreditsOk, NetOk;
    CoveredReduce(c, leg, e);
    LimitsAreToward(c.share + e.share, c.journal + e.share);
    assert CoreInv(c, leg) ==> 1 in c.room && -1 in c.room;
  }

  /** A late own open of the side the run holds, or of none, is kept as far as there is room. */
  lemma LateOpenRoom(c: Core, leg: int, cursor: int, blind: int, e: LegEvent, side: int, quantity: int)
    requires CoreInv(c, leg) && Sign(side) && quantity > 0 && e.share == Along(quantity, side)
    requires Along(c.share, side) >= 0 && Along(c.journal, side) >= 0
    ensures var r := LateCore(c, leg, cursor, blind, e).0;
            && side in c.room
            && var kept := Min(quantity, c.room[side]);
               && r.share == c.share + Along(kept, side) && r.journal == c.journal + Along(kept, side)
               && r.room == c.room[side := c.room[side] - kept]
  {
    hide CapDoubt, LateDoubt, LateResolve, CoreInv, Bounded, Toward, ShareMove, LastCredits;
    assert InHull(c.share, c.journal) by { Within(c, leg); }
    OpenWanted(c.share, c.journal, side, quantity);
    LimitsAreToward(c.share + e.share, c.journal + e.share);
    RoomNonneg(c, leg);
  }

  lemma Within(c: Core, leg: int)
    requires CoreInv(c, leg)
    ensures InHull(c.share, c.journal)
  {
  }

  lemma OpenWanted(share: int, journal: int, side: int, quantity: int)
    requires Sign(side) && quantity > 0 && InHull(share, journal)
    requires Along(share, side) >= 0 && Along(journal, side) >= 0
    ensures var wanted := share + Along(quantity, side);
            && Toward(wanted, journal + Along(quantity, side)) == wanted
            && ShareMove(share, wanted) == (0, quantity) && Direction(wanted) == side
  {
  }

  /** A late reduce and then a late open of the same quantity leave share and journal as they were
      if and only if the blind view knew the reduce, or there was room for the open before it. */
  lemma LateRoundTrip(c: Core, leg: int, cursor: int, blind: int, e: LegEvent, f: LegEvent)
    requires CoreInv(c, leg) && c.share != 0 && 0 < Reduced(c, e) <= Abs(c.share) && f.share == -e.share
    ensures var r := LateCore(LateCore(c, leg, cursor, blind, e).0, leg, cursor, blind, f).0;
            var side := Direction(c.share);
            && side in c.room
            && (r.share == c.share && r.journal == c.journal
                <==> e.at <= blind || Reduced(c, e) <= c.room[side])
  {
    hide LateCore, Covered, CreditsOk, NetOk, RoomOk;
    var d, side := LateCore(c, leg, cursor, blind, e).0, Direction(c.share);
    LateReduceRoom(c, leg, cursor, blind, e);
    LateKeeps(c, leg, cursor, blind, e);
    RoomNonneg(c, leg);
    LateOpenRoom(d, leg, cursor, blind, f, side, Reduced(c, e));
  }

  lemma RoomNonneg(c: Core, leg: int)
    requires CoreInv(c, leg)
    ensures 1 in c.room && -1 in c.room && c.room[1] >= 0 && c.room[-1] >= 0
  {
  }

  // ---- Foreign executions ----------------------------------------------------------------------------

  /** The first kept gap an execution falls into: behind its start and up to its end, a gap without
      a start reaching back for good. */
  predicate FallsInto(gaps: seq<LegGap>, at: int, k: nat) {
    k < |gaps| && at <= gaps[k].endSeq && (gaps[k].startSeq.None? || gaps[k].startSeq.value < at)
    && forall j :: 0 <= j < k ==> gaps[j].endSeq < at || (gaps[j].startSeq.Some? && at <= gaps[j].startSeq.value)
  }

  /** A foreign execution behind the cursor is judged with its interval when that is kept and can
      complete, is of no account at or before the start of the ledger, and is else reported as one
      that cannot be judged. */
  lemma LateForeignExact(b: Book, e: LegEvent)
    requires b.cursor.Some? && e.at <= b.cursor.value
    ensures var r := OtherOp(b, e);
            if b.anchor.Some? && e.at <= b.anchor.value then r == (b, [])
            else if exists k: nat :: FallsInto(b.core.gaps, e.at, k) && b.core.gaps[k].startSeq.Some? then
              r.1 == [] && r.0 == b.(core := b.core.(gaps := r.0.core.gaps)) && |r.0.core.gaps| == |b.core.gaps|
              && forall k :: 0 <= k < |b.core.gaps| ==>
                   var g := b.core.gaps[k];
                   r.0.core.gaps[k] == if FallsInto(b.core.gaps, e.at, k)
                                       then g.(events := Put(g.events, e), late := g.late + {e.execId}) else g
            else r.0 == b && r.1 == [Outcome(Some(e), 0, false, Abs(b.core.share), b.leg, e.at, 0, 0, 0, false)]
  {
    hide Put;
    var i := GapOf(b.core.gaps, e.at);
    if i.Some? {
      assert FallsInto(b.core.gaps, e.at, i.value);
    }
    forall k: nat | FallsInto(b.core.gaps, e.at, k)
      ensures i == Some(k)
    {
      assert Holds(b.core.gaps[k], e.at);
    }
  }

  /** An execution known already is replaced where it stands; a new one comes last. */
  lemma PutExact(events: seq<LegEvent>, e: LegEvent)
    requires Ids(events)
    ensures forall i :: 0 <= i < |events| && events[i].execId == e.execId ==> Put(events, e) == events[i := e]
    ensures (forall x :: x in events ==> x.execId != e.execId) ==> Put(events, e) == events + [e]
  {
  }
}

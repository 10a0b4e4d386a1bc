// A booked execution and the leg's ledger: the change a booking makes to the run's journal is the
// share the ledger is told, so that rows and ledger stay in agreement over it.

module LegBooking {
  import opened Common
  import opened LegTypes
  import opened EntryRows
  import FillIntake
  import LegRuns
  import LegCoupling

  /** No live entry row of a side was adopted. */
  predicate NoneAdopted(rows: Rows, side: Side) {
    forall id :: id in rows && Picks(rows[id], AnyEntry, side) ==> !rows[id].adopted
  }

  lemma OwnedAlone(ids: seq<string>, rows: Rows, side: Side)
    requires (forall id :: id in ids ==> id in rows) && NoneAdopted(rows, side)
    ensures Owned(ids, rows, RunOwned, side) == Owned(ids, rows, AnyEntry, side)
  {
    if ids != [] {
      assert ids[0] in ids && forall id :: id in ids[1..] ==> id in ids;
      OwnedAlone(ids[1..], rows, side);
    }
  }

  /** A row that counts after netting counted before, and was adopted then or not as now. */
  lemma NettedCounts(ids: seq<string>, rows: Rows, side: Side, quantity: int, id: string)
    requires Listed(ids, rows) && quantity >= 0 && id in rows
    ensures var r := NetSide(ids, rows, AnyEntry, side, quantity);
            && id in r && r[id].adopted == rows[id].adopted
            && forall other :: Picks(r[id], AnyEntry, other) ==> Picks(rows[id], AnyEntry, other)
  {
    hide Once, OldestFirst, NetFifo, Fifo, Owned;
    ListedOnce(ids, rows);
    FifoSound(ids, rows, AnyEntry, side);
    var list := Fifo(ids, rows, AnyEntry, side);
    NetRest(rows, list, quantity);
    if id in list {
      var consumed := FillIntake.ListedRowNetted(rows, list, quantity, id);
      NetRowKeeps(rows[id], consumed);
    }
  }

  lemma NettedAlone(ids: seq<string>, rows: Rows, side: Side, quantity: int, other: Side)
    requires Listed(ids, rows) && quantity >= 0 && NoneAdopted(rows, other)
    ensures NoneAdopted(NetSide(ids, rows, AnyEntry, side, quantity), other)
  {
    hide Listed, Picks, NetSide;
    assert NetSide(ids, rows, AnyEntry, side, quantity).Keys == rows.Keys by { NettedKeys(ids, rows, side, quantity); }
    forall id | id in rows
      ensures var r := NetSide(ids, rows, AnyEntry, side, quantity);
              id in r && r[id].adopted == rows[id].adopted
              && forall o :: Picks(r[id], AnyEntry, o) ==> Picks(rows[id], AnyEntry, o)
    {
      NettedCounts(ids, rows, side, quantity, id);
    }
  }

  lemma NettedKeys(ids: seq<string>, rows: Rows, side: Side, quantity: int)
    requires Listed(ids, rows) && quantity >= 0
    ensures NetSide(ids, rows, AnyEntry, side, quantity).Keys == rows.Keys
  {
    hide Once, OldestFirst, NetFifo, Fifo, Owned;
    ListedOnce(ids, rows);
    FifoSound(ids, rows, AnyEntry, side);
    NetRest(rows, Fifo(ids, rows, AnyEntry, side), quantity);
  }

  // ---- The change of the journal -----------------------------------------------------------------------

  /** The rows are the run's own: none adopted, and an order's row is of its executions' side. */
  predicate Ours(s: FillIntake.Intake, e: FillIntake.Exec) {
    && NoneAdopted(s.rows, Buy) && NoneAdopted(s.rows, Sell)
    && (e.order in s.rows && e.entry ==> s.rows[e.order].side == e.side && !s.rows[e.order].adopted)
  }

  /** What a new execution moves: an entry its quantity, a reduce what it takes net of the credit. */
  function Moved(s: FillIntake.Intake, e: FillIntake.Exec, credit: int): int
    requires Listed(s.ids, s.rows)
  {
    if e.entry then (if e.order in s.rows then e.qty else 0)
    else Min(Max(0, e.qty - credit), Owned(s.ids, s.rows, RunOwned, Opposite(e.side)))
  }

  lemma EntryMoves(s: FillIntake.Intake, execs: seq<FillIntake.Exec>, e: FillIntake.Exec, channel: FillIntake.Channel,
                   credit: int)
    requires FillIntake.Inv(s, execs) && FillIntake.Fits(s, execs, FillIntake.Deliver(e, channel, credit))
    requires e.id !in s.seen && e.entry && Ours(s, e) && Listed(s.ids, s.rows)
    ensures var t := FillIntake.DeliverOne(s, e, channel, credit);
            && t.ids == s.ids && Listed(t.ids, t.rows)
            && Owned(t.ids, t.rows, RunOwned, e.side) == Owned(s.ids, s.rows, RunOwned, e.side) + Moved(s, e, credit)
            && Owned(t.ids, t.rows, RunOwned, Opposite(e.side)) == Owned(s.ids, s.rows, RunOwned, Opposite(e.side))
  {
    hide FillIntake.Inv, FillIntake.DeliverOne, NoneAdopted, Listed, Once;
    FillIntake.DeliverOwns(s, execs, e, channel, credit);
    if e.order in s.rows {
      EntryRow(s, execs, e);
      var row := s.rows[e.order];
      var grown := row.(filled := row.filled + e.qty);
      OwnedUpdate(s.ids, s.rows, e.order, grown, RunOwned, e.side);
      OwnedUpdate(s.ids, s.rows, e.order, grown, RunOwned, Opposite(e.side));
    }
  }

  lemma EntryRow(s: FillIntake.Intake, execs: seq<FillIntake.Exec>, e: FillIntake.Exec)
    requires FillIntake.Inv(s, execs) && e in execs && e.id !in s.seen && e.order in s.rows && s.rows[e.order].entry
    ensures !s.rows[e.order].closed && s.rows[e.order].filled >= 0 && e.qty > 0
    ensures Once(s.ids) && e.order in s.ids && forall x :: x in s.ids ==> x in s.rows
  {
    FillIntake.StillOpen(s, execs, e);
    FillIntake.EQty(execs, e);
    ListedOnce(s.ids, s.rows);
  }

  lemma CursorAlone(s: FillIntake.Intake, e: FillIntake.Exec, side: Side)
    requires NoneAdopted(s.rows, side) && (e.order in s.rows ==> !s.rows[e.order].entry)
    ensures NoneAdopted(FillIntake.CursorRows(s, e), side)
  {
  }

  lemma ReduceAlone(s: FillIntake.Intake, execs: seq<FillIntake.Exec>, e: FillIntake.Exec, channel: FillIntake.Channel,
                    credit: int)
    requires FillIntake.Inv(s, execs) && FillIntake.Fits(s, execs, FillIntake.Deliver(e, channel, credit))
    requires e.id !in s.seen && !e.entry && Ours(s, e) && Listed(s.ids, s.rows)
    ensures var t := FillIntake.DeliverOne(s, e, channel, credit);
            NoneAdopted(t.rows, Buy) && NoneAdopted(t.rows, Sell)
  {
    hide FillIntake.Inv, FillIntake.CursorRows, NoneAdopted, Listed, NetFifo, Fifo;
    assert e.qty > 0 && (e.order in s.rows ==> !FillIntake.Covered(s, e)) by {
      FillIntake.InvListed(s, execs);
      FillIntake.EQty(execs, e);
      if e.order in s.rows {
        FillIntake.StillOpen(s, execs, e);
      }
    }
    CursorAlone(s, e, Buy);
    CursorAlone(s, e, Sell);
    FillIntake.CursorListed(s, e);
    var left, other, rows := e.qty - credit, Opposite(e.side), FillIntake.CursorRows(s, e);
    if left > 0 {
      NettedAlone(s.ids, rows, other, left, Buy);
      NettedAlone(s.ids, rows, other, left, Sell);
    }
  }

  lemma ReduceMoves(s: FillIntake.Intake, execs: seq<FillIntake.Exec>, e: FillIntake.Exec, channel: FillIntake.Channel,
                    credit: int)
    requires FillIntake.Inv(s, execs) && FillIntake.Fits(s, execs, FillIntake.Deliver(e, channel, credit))
    requires e.id !in s.seen && !e.entry && Ours(s, e) && Listed(s.ids, s.rows)
    ensures var t := FillIntake.DeliverOne(s, e, channel, credit);
            && t.ids == s.ids && Listed(t.ids, t.rows)
            && Owned(t.ids, t.rows, RunOwned, e.side) == Owned(s.ids, s.rows, RunOwned, e.side)
            && Owned(t.ids, t.rows, RunOwned, Opposite(e.side))
               == Owned(s.ids, s.rows, RunOwned, Opposite(e.side)) - Moved(s, e, credit)
  {
    hide FillIntake.Inv, FillIntake.DeliverOne, NoneAdopted, Owned;
    FillIntake.DeliverOwns(s, execs, e, channel, credit);
    ReduceAlone(s, execs, e, channel, credit);
    var t := FillIntake.DeliverOne(s, e, channel, credit);
    OwnedAlone(s.ids, s.rows, Buy);
    OwnedAlone(s.ids, s.rows, Sell);
    OwnedAlone(t.ids, t.rows, Buy);
    OwnedAlone(t.ids, t.rows, Sell);
  }

  /** The journal's change in the frame of a leg: of a one-way leg along the execution's side, of a
      hedge leg what was opened on it less what was closed. */
  function Change(hedge: Option<Side>, e: FillIntake.Exec, moved: int): int {
    match hedge
    case None => if e.side.Buy? then moved else -moved
    case Some(side) => if e.entry then (if side == e.side then moved else 0) else if side == e.side then 0 else -moved
  }

  /** A booking changes the journal of the leg by exactly what it moved, and so a ledger told of
      that share is told what the rows hold: the step keeps to what the system may bring. */
  lemma BookingFits(s: FillIntake.Intake, execs: seq<FillIntake.Exec>, e: FillIntake.Exec, channel: FillIntake.Channel,
                    credit: int, system: LegCoupling.System, own: LegEvent)
    requires FillIntake.Inv(s, execs) && FillIntake.Fits(s, execs, FillIntake.Deliver(e, channel, credit))
    requires e.id !in s.seen && Ours(s, e) && Listed(s.ids, s.rows)
    requires system.ids == s.ids && system.rows == s.rows
    requires own.own && LegRuns.Fresh(system.ledger, own)
    requires own.share == Change(system.hedge, e, Moved(s, e, credit))
    ensures var t := FillIntake.DeliverOne(s, e, channel, credit);
            && t.ids == s.ids && Listed(t.ids, t.rows)
            && LegCoupling.JournalOf(t.ids, t.rows, system.hedge) == LegCoupling.Journal(system) + own.share
            && LegCoupling.Fits(system, LegCoupling.Books(own, t.rows))
  {
    hide FillIntake.Inv, FillIntake.DeliverOne, FillIntake.Fits, Ours, Listed, Owned, Moved, LegRuns.Fresh;
    if e.entry {
      EntryMoves(s, execs, e, channel, credit);
    } else {
      ReduceMoves(s, execs, e, channel, credit);
    }
  }
}

// Exactly-once intake of the run's own executions: the live push, the windowed backfill
// and the per-order recovery share one frontier of execution ids, so whatever arrives how
// often and in whatever order, each execution is booked once and every row's venue cursor
// is the sum of what was booked for its order.

module FillIntake {
  import opened Common
  import opened EntryRows

  /** One own execution, as the venue reports it in every channel. */
  datatype Exec = Exec(id: string, order: string, side: Side, qty: int, entry: bool)

  datatype Intake = Intake(ids: seq<string>, rows: Rows, seen: set<string>, cum: map<string, int>,
                           log: seq<string>)

  datatype Channel = Live | Backfill | Recovery

  /** What happens around the intake. */
  datatype Op =
    | Deliver(exec: Exec, channel: Channel, credit: int)
    | Verdict(side: Side, quantity: int)
    | Cancel(order: string, venueCum: int)

  function Cum(s: Intake, order: string): int {
    if order in s.cum then s.cum[order] else 0
  }

  // ---- Booking ------------------------------------------------------------------------------

  /** The order's row after one execution slice. */
  function FillRow(row: Row, cumulative: int, e: Exec): Row {
    var total := Max(cumulative - row.netted, row.filled + e.qty);
    row.(filled := Min(row.qty, total), closed := row.closed || (!e.entry && total >= row.qty))
  }

  /** The rows once the order's own row took the slice. */
  function CursorRows(s: Intake, e: Exec): Rows {
    if e.order in s.rows then s.rows[e.order := FillRow(s.rows[e.order], Cum(s, e.order) + e.qty, e)] else s.rows
  }

  /** Book one execution: the running sum, the row's cursor, and, for a reduce, the entry
      rows it consumed net of the credit it took. */
  function Book(s: Intake, e: Exec, credit: int): Intake
    requires Listed(s.ids, s.rows)
  {
    var rows := CursorRows(s, e);
    var rows' := if e.entry || e.qty - credit <= 0 then rows
                 else NetFifo(rows, Fifo(s.ids, rows, AnyEntry, Opposite(e.side)), e.qty - credit).0;
    s.(rows := rows', cum := s.cum[e.order := Cum(s, e.order) + e.qty], seen := s.seen + {e.id},
       log := s.log + [e.id])
  }

  /** The backfill's barrier: a row covered to its size owns the slice already. */
  predicate Covered(s: Intake, e: Exec) {
    e.order in s.rows && s.rows[e.order].filled >= s.rows[e.order].qty
  }

  function DeliverOne(s: Intake, e: Exec, channel: Channel, credit: int): Intake
    requires Listed(s.ids, s.rows)
  {
    if e.id in s.seen then s
    else if (!channel.Live? && Covered(s, e)) || e.qty <= 0 then s.(seen := s.seen + {e.id})
    else Book(s, e, credit)
  }

  /** A cancelled order's row settled from the venue's terminal figure. */
  function CancelRow(row: Row, venueCum: int): Row {
    if row.closed then row
    else if !row.entry then row.(closed := true)
    else
      var executed := Max(row.filled, venueCum - row.netted);
      if executed <= 0 then row.(closed := true) else row.(qty := executed, cancelled := true)
  }

  function Apply(s: Intake, op: Op): Intake
    requires Listed(s.ids, s.rows)
  {
    match op
    case Deliver(e, channel, credit) => DeliverOne(s, e, channel, credit)
    case Verdict(side, quantity) =>
      if quantity <= 0 then s
      else s.(rows := NetFifo(s.rows, Fifo(s.ids, s.rows, RunOwned, side), quantity).0)
    case Cancel(order, venueCum) =>
      if order in s.rows then s.(rows := s.rows[order := CancelRow(s.rows[order], venueCum)]) else s
  }

  // ---- What was booked for an order ---------------------------------------------------------------

  predicate Universe(execs: seq<Exec>) {
    && (forall i, j :: 0 <= i < j < |execs| ==> execs[i].id != execs[j].id)
    && (forall i :: 0 <= i < |execs| ==> execs[i].qty > 0)
  }

  /** The quantity of an order's executions among `seen`. */
  function Booked(execs: seq<Exec>, seen: set<string>, order: string): int {
    if execs == [] then 0
    else (if execs[0].order == order && execs[0].id in seen then execs[0].qty else 0)
         + Booked(execs[1..], seen, order)
  }

  /** Everything the order ever executes. */
  function Executed(execs: seq<Exec>, order: string): int {
    if execs == [] then 0
    else (if execs[0].order == order then execs[0].qty else 0) + Executed(execs[1..], order)
  }

  lemma BookedBounds(execs: seq<Exec>, seen: set<string>, order: string)
    requires Universe(execs)
    ensures 0 <= Booked(execs, seen, order) <= Executed(execs, order)
  {
  }

  lemma BookedSame(execs: seq<Exec>, seen: set<string>, id: string, order: string)
    requires forall e :: e in execs ==> e.id != id
    ensures Booked(execs, seen + {id}, order) == Booked(execs, seen, order)
  {
  }

  /** One more execution counts once, and was still to come. */
  lemma BookedMore(execs: seq<Exec>, seen: set<string>, e: Exec, order: string)
    requires Universe(execs) && e in execs && e.id !in seen
    ensures Booked(execs, seen + {e.id}, order) == Booked(execs, seen, order) + if e.order == order then e.qty else 0
    ensures Booked(execs, seen, e.order) + e.qty <= Executed(execs, e.order)
  {
    if e == execs[0] {
      BookedSame(execs[1..], seen, e.id, order);
      BookedBounds(execs[1..], seen, e.order);
    } else {
      assert e in execs[1..];
      BookedMore(execs[1..], seen, e, order);
      BookedMore(execs[1..], seen, e, e.order);
    }
  }

  // ---- The invariant -----------------------------------------------------------------------------------

  /** The row's venue cursor is what was booked for its order, and its size still has room
      for everything the order executes; a retired entry row has nothing left to come. */
  predicate Tracks(s: Intake, execs: seq<Exec>, order: string)
    requires order in s.rows
  {
    var row := s.rows[order];
    if row.entry && row.closed then Booked(execs, s.seen, order) == Executed(execs, order)
    else
      && VenueFilled(row) == Booked(execs, s.seen, order)
      && Executed(execs, order) <= row.qty + row.netted
      && Cum(s, order) <= VenueFilled(row)
  }

  ghost predicate Inv(s: Intake, execs: seq<Exec>) {
    && Universe(execs) && Listed(s.ids, s.rows)
    && (forall order :: order in s.rows ==> Tracks(s, execs, order))
  }

  /** What the venue and the program bring: executions of the universe, credits within
      them, and the venue's terminal figure for a cancelled order. */
  predicate Fits(s: Intake, execs: seq<Exec>, op: Op) {
    match op
    case Deliver(e, _, credit) =>
      e in execs && 0 <= credit <= e.qty && (e.order in s.rows ==> s.rows[e.order].entry == e.entry)
    case Verdict(_, _) => true
    case Cancel(order, venueCum) =>
      venueCum == Executed(execs, order)
  }

  /** A netted row still tracks its order: netting moves exposure, not the venue cursor. */
  lemma NettedTracks(s: Intake, t: Intake, execs: seq<Exec>, order: string, consumed: int)
    requires Universe(execs) && order in s.rows && RowOk(s.rows[order]) && Tracks(s, execs, order)
    requires s.rows[order].entry && !s.rows[order].closed && 0 <= consumed <= s.rows[order].filled
    requires order in t.rows && t.rows[order] == NetRow(s.rows[order], consumed) && t.seen == s.seen && t.cum == s.cum
    ensures Tracks(t, execs, order)
  {
    NetRowKeeps(s.rows[order], consumed);
    BookedBounds(execs, s.seen, order);
  }

  /** One listed row after netting the list: some part of its exposure is gone. */
  lemma ListedRowNetted(rows: Rows, list: seq<string>, quantity: int, id: string) returns (consumed: int)
    requires (forall id :: id in list ==> id in rows && rows[id].filled > 0) && Once(list) && quantity >= 0
    requires id in list
    ensures 0 <= consumed <= rows[id].filled
    ensures NetFifo(rows, list, quantity).0.Keys == rows.Keys
    ensures NetFifo(rows, list, quantity).0[id] == NetRow(rows[id], consumed)
  {
    hide NetRow, NetFifo, Once;
    var k :| 0 <= k < |list| && list[k] == id;
    NetAt(rows, list, quantity, k);
    consumed := Share(rows[id].filled, Prefix(list, rows, k), quantity);
    assert forall x :: x in list[..k] ==> x in list;
    SumNonneg(list[..k], rows);
  }

  /** Netting rows in order keeps every row tracking its order. */
  lemma NetTracks(s: Intake, execs: seq<Exec>, scope: Scope, side: Side, quantity: int)
    requires Inv(s, execs) && quantity >= 0
    ensures var t := s.(rows := NetFifo(s.rows, Fifo(s.ids, s.rows, scope, side), quantity).0);
            Inv(t, execs) && t.rows.Keys == s.rows.Keys
            && forall order :: order in t.rows ==> t.rows[order].entry == s.rows[order].entry
  {
    hide Universe, NetRow, Fifo, NetFifo, Once, OldestFirst, Tracks, SumFilled, Owned;
    ListedOnce(s.ids, s.rows);
    FifoSound(s.ids, s.rows, scope, side);
    NetSideConserves(s.ids, s.rows, scope, side, quantity);
    var list := Fifo(s.ids, s.rows, scope, side);
    NetRest(s.rows, list, quantity);
    var t := s.(rows := NetFifo(s.rows, list, quantity).0);
    forall order | order in t.rows
      ensures Tracks(t, execs, order) && t.rows[order].entry == s.rows[order].entry
    {
      if order in list {
        var consumed := ListedRowNetted(s.rows, list, quantity, order);
        NettedTracks(s, t, execs, order, consumed);
        NetRowKeeps(s.rows[order], consumed);
      } else {
        SameTracks(s, t, execs, order);
      }
    }
  }

  lemma SameTracks(s: Intake, t: Intake, execs: seq<Exec>, order: string)
    requires order in s.rows && order in t.rows && t.rows[order] == s.rows[order]
    requires t.seen == s.seen && t.cum == s.cum && Tracks(s, execs, order)
    ensures Tracks(t, execs, order)
  {
  }

  /** An unseen execution of the universe finds its row open and never past its size. */
  lemma StillOpen(s: Intake, execs: seq<Exec>, e: Exec)
    requires Inv(s, execs) && e in execs && e.id !in s.seen && e.order in s.rows
    ensures var row := s.rows[e.order];
            (row.entry ==> !row.closed) && row.filled + e.qty <= row.qty && !Covered(s, e)
  {
    BookedMore(execs, s.seen, e, e.order);
    assert Tracks(s, execs, e.order);
    EQty(execs, e);
  }

  lemma EQty(execs: seq<Exec>, e: Exec)
    requires Universe(execs) && e in execs
    ensures e.qty > 0
  {
  }

  lemma CursorListed(s: Intake, e: Exec)
    requires Listed(s.ids, s.rows) && e.qty > 0
    ensures Listed(s.ids, CursorRows(s, e))
  {
  }

  /** The intake once the slice moved its own order's row. */
  function CursorMoved(s: Intake, e: Exec): Intake {
    s.(rows := CursorRows(s, e), cum := s.cum[e.order := Cum(s, e.order) + e.qty], seen := s.seen + {e.id},
       log := s.log + [e.id])
  }

  lemma CursorTracks(s: Intake, execs: seq<Exec>, e: Exec, order: string)
    requires Inv(s, execs) && e in execs && e.id !in s.seen && order in s.rows
    requires e.order in s.rows ==> s.rows[e.order].entry == e.entry
    ensures Tracks(CursorMoved(s, e), execs, order)
  {
    hide Universe, Booked, Executed;
    EQty(execs, e);
    assert Tracks(s, execs, order);
    BookedMore(execs, s.seen, e, order);
    BookedBounds(execs, s.seen + {e.id}, order);
    if order == e.order {
      StillOpen(s, execs, e);
    }
  }

  lemma CursorBooked(s: Intake, execs: seq<Exec>, e: Exec)
    requires Inv(s, execs) && e in execs && e.id !in s.seen
    requires e.order in s.rows ==> s.rows[e.order].entry == e.entry
    ensures var t := CursorMoved(s, e);
            Inv(t, execs) && t.rows.Keys == s.rows.Keys
            && forall order :: order in t.rows ==> t.rows[order].entry == s.rows[order].entry
  {
    hide Universe, Booked, Executed, Tracks;
    EQty(execs, e);
    CursorListed(s, e);
    forall order | order in s.rows
      ensures Tracks(CursorMoved(s, e), execs, order)
    {
      CursorTracks(s, execs, e, order);
    }
  }

  /** A delivery: booked if it is new, whatever the channel; otherwise nothing changes. */
  lemma DeliverExact(s: Intake, execs: seq<Exec>, e: Exec, channel: Channel, credit: int)
    requires Inv(s, execs) && Fits(s, execs, Deliver(e, channel, credit))
    ensures var t := DeliverOne(s, e, channel, credit);
            && Inv(t, execs)
            && t.seen == s.seen + {e.id}
            && t.log == (if e.id in s.seen then s.log else s.log + [e.id])
            && t.rows.Keys == s.rows.Keys
            && forall order :: order in t.rows ==> t.rows[order].entry == s.rows[order].entry
  {
    hide Universe, Booked, Executed, CursorRows, Fifo, NetFifo, Tracks, Listed;
    if e.id in s.seen {
      assert s.seen + {e.id} == s.seen;
    } else {
      EQty(execs, e);
      if e.order in s.rows {
        StillOpen(s, execs, e);
      }
      CursorBooked(s, execs, e);
      var t := CursorMoved(s, e);
      if !e.entry && e.qty - credit > 0 {
        NetTracks(t, execs, AnyEntry, Opposite(e.side), e.qty - credit);
      }
    }
  }

  /** A cancelled order's row stands for the venue's terminal figure. */
  lemma CancelledTracks(s: Intake, t: Intake, execs: seq<Exec>, order: string)
    requires Universe(execs) && order in s.rows && RowOk(s.rows[order]) && Tracks(s, execs, order)
    requires order in t.rows && t.rows[order] == CancelRow(s.rows[order], Executed(execs, order))
    requires t.seen == s.seen && t.cum == s.cum
    ensures Tracks(t, execs, order) && RowOk(t.rows[order])
  {
    hide Universe, Booked, Executed;
    BookedBounds(execs, s.seen, order);
  }

  lemma CancelTracks(s: Intake, execs: seq<Exec>, order: string, venueCum: int)
    requires Inv(s, execs) && Fits(s, execs, Cancel(order, venueCum))
    ensures Inv(Apply(s, Cancel(order, venueCum)), execs)
  {
    hide Universe, Booked, Executed, Tracks, CancelRow, RowOk;
    if order in s.rows {
      var t := Apply(s, Cancel(order, venueCum));
      CancelledTracks(s, t, execs, order);
      forall other | other in t.rows
        ensures Tracks(t, execs, other)
      {
        if other != order {
          SameTracks(s, t, execs, other);
        }
      }
    }
  }

  lemma ApplyInv(s: Intake, execs: seq<Exec>, op: Op)
    requires Inv(s, execs) && Fits(s, execs, op)
    ensures Inv(Apply(s, op), execs)
  {
    hide Inv, DeliverOne, Fits, CancelRow;
    match op
    case Deliver(e, channel, credit) => DeliverExact(s, execs, e, channel, credit);
    case Verdict(side, quantity) =>
      if quantity > 0 {
        NetTracks(s, execs, RunOwned, side, quantity);
      }
    case Cancel(order, venueCum) => CancelTracks(s, execs, order, venueCum);
  }

  // ---- What a booking does to the rows -------------------------------------------------------------------

  /** One slice brings the row's venue cursor to the order's running sum, or on by the slice where
      that is more, never past its size; an exit's row is done once it is there. */
  lemma SliceMovesCursor(row: Row, cumulative: int, e: Exec)
    ensures var r := FillRow(row, cumulative, e);
            && r == row.(filled := r.filled, closed := r.closed)
            && VenueFilled(r) == Min(row.qty + row.netted, Max(cumulative, VenueFilled(row) + e.qty))
            && (r.closed <==> row.closed || (!e.entry && VenueFilled(r) == row.qty + row.netted))
  {
  }

  /** A row that is tracked grows by the slice. */
  lemma OwnRow(s: Intake, execs: seq<Exec>, e: Exec)
    requires Inv(s, execs) && e in execs && e.id !in s.seen && e.order in s.rows && s.rows[e.order].entry == e.entry
    ensures var row := s.rows[e.order];
            var filled := row.filled + e.qty;
            CursorRows(s, e)
            == s.rows[e.order := row.(filled := filled, closed := row.closed || (!e.entry && filled == row.qty))]
  {
    hide Universe, Booked, Executed;
    EQty(execs, e);
    BookedMore(execs, s.seen, e, e.order);
    BookedBounds(execs, s.seen, e.order);
    assert Tracks(s, execs, e.order);
    StillOpen(s, execs, e);
  }

  /** An exit's own row counts for nothing that is owned. */
  lemma ExitOwnsNothing(s: Intake, execs: seq<Exec>, e: Exec, scope: Scope, side: Side)
    requires Inv(s, execs) && e in execs && e.id !in s.seen && !e.entry
    requires e.order in s.rows ==> !s.rows[e.order].entry
    ensures Listed(s.ids, CursorRows(s, e))
    ensures Owned(s.ids, CursorRows(s, e), scope, side) == Owned(s.ids, s.rows, scope, side)
  {
    hide Universe, Tracks, Once, RowOk;
    EQty(execs, e);
    CursorListed(s, e);
    ListedOnce(s.ids, s.rows);
    if e.order in s.rows {
      OwnRow(s, execs, e);
      OwnedUpdate(s.ids, s.rows, e.order, CursorRows(s, e)[e.order], scope, side);
    }
  }

  /** A new execution of an entry order raises its own row by its quantity and no other row. A new
      reduce takes, off the entry rows of the other side, its quantity less the credit, as far as
      they own any, and leaves the rows of its own side. One seen before moves nothing. */
  lemma DeliverOwns(s: Intake, execs: seq<Exec>, e: Exec, channel: Channel, credit: int)
    requires Inv(s, execs) && Fits(s, execs, Deliver(e, channel, credit))
    ensures var t, other := DeliverOne(s, e, channel, credit), Opposite(e.side);
            && t.ids == s.ids && Listed(t.ids, t.rows)
            && (if e.id in s.seen then t == s
                else if e.entry then
                  t.rows == if e.order in s.rows
                            then s.rows[e.order := s.rows[e.order].(filled := s.rows[e.order].filled + e.qty)]
                            else s.rows
                else
                  && Owned(t.ids, t.rows, AnyEntry, other)
                     == Owned(s.ids, s.rows, AnyEntry, other)
                        - Min(Max(0, e.qty - credit), Owned(s.ids, s.rows, AnyEntry, other))
                  && Owned(t.ids, t.rows, AnyEntry, e.side) == Owned(s.ids, s.rows, AnyEntry, e.side)
                  && forall id :: id in s.rows && id != e.order && (!s.rows[id].entry || s.rows[id].side == e.side)
                                  ==> id in t.rows && t.rows[id] == s.rows[id])
  {
    hide Universe, Booked, Executed, CursorRows, Tracks, NetFifo, Fifo, Owned, Inv;
    assert Listed(s.ids, s.rows) by { InvListed(s, execs); }
    DeliverListed(s, e, channel, credit);
    if e.id !in s.seen {
      assert e.qty > 0 by { InvListed(s, execs); EQty(execs, e); }
      if e.order in s.rows {
        StillOpen(s, execs, e);
      }
      if e.entry {
        if e.order in s.rows {
          OwnRow(s, execs, e);
        }
        assert DeliverOne(s, e, channel, credit).rows == CursorRows(s, e);
        NoRow(s, e);
      } else {
        ReduceOwns(s, execs, e, credit);
        assert DeliverOne(s, e, channel, credit) == Book(s, e, credit);
      }
    }
  }

  lemma NoRow(s: Intake, e: Exec)
    ensures e.order !in s.rows ==> CursorRows(s, e) == s.rows
  {
  }

  lemma InvListed(s: Intake, execs: seq<Exec>)
    requires Inv(s, execs)
    ensures Listed(s.ids, s.rows) && Universe(execs)
  {
  }

  lemma ReduceOwns(s: Intake, execs: seq<Exec>, e: Exec, credit: int)
    requires Inv(s, execs) && e in execs && e.id !in s.seen && !e.entry && Listed(s.ids, s.rows)
    requires e.order in s.rows ==> !s.rows[e.order].entry
    ensures var t, other := Book(s, e, credit), Opposite(e.side);
            && t.ids == s.ids && Listed(t.ids, t.rows)
            && Owned(t.ids, t.rows, AnyEntry, other)
               == Owned(s.ids, s.rows, AnyEntry, other)
                  - Min(Max(0, e.qty - credit), Owned(s.ids, s.rows, AnyEntry, other))
            && Owned(t.ids, t.rows, AnyEntry, e.side) == Owned(s.ids, s.rows, AnyEntry, e.side)
            && forall id :: id in s.rows && id != e.order && (!s.rows[id].entry || s.rows[id].side == e.side)
                            ==> id in t.rows && t.rows[id] == s.rows[id]
  {
    hide Universe, Booked, Executed, CursorRows, Tracks, NetFifo, Fifo, Owned, Inv;
    var other, left, rows := Opposite(e.side), e.qty - credit, CursorRows(s, e);
    ExitOwnsNothing(s, execs, e, AnyEntry, other);
    ExitOwnsNothing(s, execs, e, AnyEntry, e.side);
    OwnedNonneg(s.ids, s.rows, AnyEntry, other);
    OthersSame(s, e);
    if left > 0 {
      NetSideConserves(s.ids, rows, AnyEntry, other, left);
      forall id | id in s.rows && id != e.order && (!s.rows[id].entry || s.rows[id].side == e.side)
        ensures id in Book(s, e, credit).rows && Book(s, e, credit).rows[id] == s.rows[id]
      {
        NetSpares(s.ids, rows, AnyEntry, other, left, id);
      }
    }
  }

  lemma OthersSame(s: Intake, e: Exec)
    ensures CursorRows(s, e).Keys == s.rows.Keys
    ensures forall id :: id in s.rows && id != e.order ==> CursorRows(s, e)[id] == s.rows[id]
  {
  }

  /** A new execution of a row already filled to its size: what a read brings is only marked as
      seen, a push is booked all the same. */
  lemma Barrier(s: Intake, e: Exec, channel: Channel, credit: int)
    requires Listed(s.ids, s.rows) && e.id !in s.seen && e.qty > 0
    ensures var t := DeliverOne(s, e, channel, credit);
            && t.seen == s.seen + {e.id}
            && (if !channel.Live? && e.order in s.rows && s.rows[e.order].filled >= s.rows[e.order].qty
                then t.rows == s.rows && t.cum == s.cum && t.log == s.log
                else t.log == s.log + [e.id] && Cum(t, e.order) == Cum(s, e.order) + e.qty)
  {
    hide NetFifo, Fifo;
  }

  /** A cancelled entry keeps what it owns, with room for just what the venue says it executed and
      is still to be booked; one that executed nothing, and any exit, is done. */
  lemma CancelSettles(s: Intake, order: string, venueCum: int)
    requires Listed(s.ids, s.rows) && order in s.rows
    ensures var t := Apply(s, Cancel(order, venueCum));
            && t == s.(rows := t.rows) && order in t.rows && t.rows == s.rows[order := t.rows[order]]
            && var row, r := s.rows[order], t.rows[order];
               && r == row.(qty := r.qty, cancelled := r.cancelled, closed := r.closed)
               && (row.closed ==> r == row)
               && (!row.closed ==>
                     && (r.closed <==> !row.entry || Max(VenueFilled(row), venueCum) <= row.netted)
                     && (!r.closed ==> r.cancelled && r.qty + r.netted == Max(VenueFilled(row), venueCum))
                     && (r.closed ==> r.qty == row.qty))
  {
  }

  /** A verdict takes its quantity off the run's own rows of its side, as far as they own any, and
      leaves the adopted ones and the other side. */
  lemma VerdictOwns(s: Intake, side: Side, quantity: int)
    requires Listed(s.ids, s.rows)
    ensures var t := Apply(s, Verdict(side, quantity));
            && t == s.(rows := t.rows) && Listed(t.ids, t.rows)
            && Owned(t.ids, t.rows, RunOwned, side)
               == Owned(s.ids, s.rows, RunOwned, side)
                  - Min(Max(0, quantity), Owned(s.ids, s.rows, RunOwned, side))
            && forall id :: id in s.rows && (s.rows[id].adopted || !s.rows[id].entry || s.rows[id].side != side)
                            ==> id in t.rows && t.rows[id] == s.rows[id]
  {
    hide Listed, Owned, NetFifo, Fifo;
    OwnedNonneg(s.ids, s.rows, RunOwned, side);
    if quantity > 0 {
      NetSideConserves(s.ids, s.rows, RunOwned, side, quantity);
      forall id | id in s.rows && (s.rows[id].adopted || !s.rows[id].entry || s.rows[id].side != side)
        ensures var r := NetSide(s.ids, s.rows, RunOwned, side, quantity); id in r && r[id] == s.rows[id]
      {
        NetSpares(s.ids, s.rows, RunOwned, side, quantity, id);
      }
    }
  }

  // ---- Whole runs ----------------------------------------------------------------------------------------

  ghost predicate Runs(s: Intake, execs: seq<Exec>, ops: seq<Op>)
    requires Inv(s, execs)
    decreases |ops|
  {
    ops == []
    || (Fits(s, execs, ops[0])
        && (ApplyInv(s, execs, ops[0]); Runs(Apply(s, ops[0]), execs, ops[1..])))
  }

  ghost function After(s: Intake, execs: seq<Exec>, ops: seq<Op>): Intake
    requires Inv(s, execs) && Runs(s, execs, ops)
    decreases |ops|
  {
    if ops == [] then s
    else
      ApplyInv(s, execs, ops[0]);
      After(Apply(s, ops[0]), execs, ops[1..])
  }

  /** The ids a run delivers, by whatever channel and however often. */
  function Delivered(ops: seq<Op>): set<string> {
    if ops == [] then {}
    else (if ops[0].Deliver? then {ops[0].exec.id} else {}) + Delivered(ops[1..])
  }

  predicate OnceIn(log: seq<string>) {
    forall i, j :: 0 <= i < j < |log| ==> log[i] != log[j]
  }

  /** The log holds what was booked, each id once, beside the ids seeded before. */
  predicate Logged(s: Intake, seeds: set<string>) {
    OnceIn(s.log) && (forall id :: id in s.log ==> id !in seeds) && s.seen == seeds + (set id | id in s.log)
  }

  lemma LogKept(s: Intake, execs: seq<Exec>, op: Op, seeds: set<string>)
    requires Inv(s, execs) && Fits(s, execs, op) && Logged(s, seeds)
    ensures var t := Apply(s, op);
            Logged(t, seeds) && t.seen == s.seen + (if op.Deliver? then {op.exec.id} else {})
  {
    hide Fits, NetFifo, Fifo, CancelRow, DeliverOne, Tracks, Universe;
    if op.Deliver? {
      DeliverExact(s, execs, op.exec, op.channel, op.credit);
      var t := Apply(s, op);
      if op.exec.id !in s.seen {
        assert t.log[|s.log|] == op.exec.id;
        assert forall id :: id in t.log <==> id in s.log || id == op.exec.id;
      }
    }
  }

  /** Exactly once: after any interleaving and repetition of live frames, backfill and
      recovery rows, with reduces, verdicts and cancels netting rows in between, every
      delivered execution not seeded before was booked exactly once, and every live row's
      owned and netted quantities add up to the distinct executions booked for its order. */
  lemma {:induction false} ExactlyOnce(s: Intake, execs: seq<Exec>, ops: seq<Op>, seeds: set<string>)
    requires Inv(s, execs) && Runs(s, execs, ops) && Logged(s, seeds)
    ensures var t := After(s, execs, ops);
            && Logged(t, seeds) && t.seen == s.seen + Delivered(ops)
            && (forall order :: order in t.rows ==>
                  var row, booked := t.rows[order], Booked(execs, s.seen + Delivered(ops), order);
                  if row.entry && row.closed then booked == Executed(execs, order)
                  else row.filled + row.netted == booked)
    decreases |ops|
  {
    hide Fits, Apply, Logged, Listed, Universe, Booked, Executed;
    if ops == [] {
      assert s.seen + {} == s.seen;
      assert forall order :: order in s.rows ==> Tracks(s, execs, order);
    } else {
      ApplyInv(s, execs, ops[0]);
      LogKept(s, execs, ops[0], seeds);
      ExactlyOnce(Apply(s, ops[0]), execs, ops[1..], seeds);
      assert s.seen + Delivered(ops)
             == s.seen + (if ops[0].Deliver? then {ops[0].exec.id} else {}) + Delivered(ops[1..]);
    }
  }

  // ---- The channels ------------------------------------------------------------------------------------------

  lemma DeliverListed(s: Intake, e: Exec, channel: Channel, credit: int)
    requires Listed(s.ids, s.rows)
    ensures var t := DeliverOne(s, e, channel, credit); Listed(t.ids, t.rows) && t.ids == s.ids
  {
    hide Fifo, NetFifo, CursorRows, Listed;
    if e.id !in s.seen && e.qty > 0 {
      CursorListed(s, e);
      if e.qty - credit > 0 {
        NetSideConserves(s.ids, CursorRows(s, e), AnyEntry, Opposite(e.side), e.qty - credit);
      }
    }
  }

  /** One push, or the rows one window or one order's read returned. */
  function DeliverAll(s: Intake, batch: seq<(Exec, int)>, channel: Channel): Intake
    requires Listed(s.ids, s.rows)
    decreases |batch|
  {
    if batch == [] then s
    else
      DeliverListed(s, batch[0].0, channel, batch[0].1);
      DeliverAll(DeliverOne(s, batch[0].0, channel, batch[0].1), batch[1..], channel)
  }
}

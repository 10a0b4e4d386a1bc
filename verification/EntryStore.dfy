// The store object the program nets: its methods update the rows in place, each tied to
// what EntryRows makes of them. The startup clamp and the re-sync to the ledger's journal
// are built from the same netting.

module EntryStores {
  import opened Common
  import opened EntryRows

  /** The venue's position on each side. */
  datatype Venue = Venue(buy: int, sell: int)

  /** One signed position, as a one-way account holds it. */
  function Folded(venue: Venue): Venue {
    var net := venue.buy - venue.sell;
    Venue(Max(net, 0), Max(-net, 0))
  }

  // ---- The startup clamp ------------------------------------------------------------------

  /** The rows of the two sides folded against each other. */
  function Fold(ids: seq<string>, rows: Rows): (r: Rows)
    requires Listed(ids, rows)
    ensures Listed(ids, r)
  {
    var folded := Min(Owned(ids, rows, Clampable, Buy), Owned(ids, rows, Clampable, Sell));
    if folded <= 0 then rows
    else
      NetSideConserves(ids, rows, Clampable, Buy, folded);
      var r := NetSide(ids, rows, Clampable, Buy, folded);
      NetSideConserves(ids, r, Clampable, Sell, folded);
      NetSide(ids, r, Clampable, Sell, folded)
  }

  function ClampSide(ids: seq<string>, rows: Rows, side: Side, size: int): (r: Rows)
    requires Listed(ids, rows)
    ensures Listed(ids, r)
  {
    var excess := Owned(ids, rows, Clampable, side) - size;
    if excess <= 0 then rows
    else
      NetSideConserves(ids, rows, Clampable, side, excess);
      NetSide(ids, rows, Clampable, side, excess)
  }

  function Clamp(ids: seq<string>, rows: Rows, venue: Venue, hedge: bool): (r: Rows)
    requires Listed(ids, rows)
    ensures Listed(ids, r)
  {
    var legs := if hedge then venue else Folded(venue);
    var start := if hedge then rows else Fold(ids, rows);
    ClampSide(ids, ClampSide(ids, start, Buy, legs.buy), Sell, legs.sell)
  }

  /** The net the settled rows own. */
  function Net(ids: seq<string>, rows: Rows): int
    requires forall id :: id in ids ==> id in rows
  {
    Owned(ids, rows, Clampable, Buy) - Owned(ids, rows, Clampable, Sell)
  }

  lemma FoldKeepsNet(ids: seq<string>, rows: Rows)
    requires Listed(ids, rows)
    ensures var r := Fold(ids, rows);
            && Net(ids, r) == Net(ids, rows)
            && Owned(ids, r, Clampable, Buy) == Max(Net(ids, rows), 0)
            && Owned(ids, r, Clampable, Sell) == Max(-Net(ids, rows), 0)
  {
    hide Listed, NetSide;
    OwnedNonneg(ids, rows, Clampable, Buy);
    OwnedNonneg(ids, rows, Clampable, Sell);
    var folded := Min(Owned(ids, rows, Clampable, Buy), Owned(ids, rows, Clampable, Sell));
    if folded > 0 {
      NetSideConserves(ids, rows, Clampable, Buy, folded);
      NetSideConserves(ids, NetSide(ids, rows, Clampable, Buy, folded), Clampable, Sell, folded);
    }
  }

  lemma ClampSideExact(ids: seq<string>, rows: Rows, side: Side, size: int)
    requires Listed(ids, rows) && size >= 0
    ensures var r := ClampSide(ids, rows, side, size);
            && Owned(ids, r, Clampable, side) == Min(Owned(ids, rows, Clampable, side), size)
            && Owned(ids, r, Clampable, Opposite(side)) == Owned(ids, rows, Clampable, Opposite(side))
  {
    hide Listed, NetSide;
    var excess := Owned(ids, rows, Clampable, side) - size;
    if excess > 0 {
      NetSideConserves(ids, rows, Clampable, side, excess);
    }
  }

  /** Hedge legs: each side ends at what it owned, at most its own leg. */
  lemma HedgeClamp(ids: seq<string>, rows: Rows, venue: Venue)
    requires Listed(ids, rows) && venue.buy >= 0 && venue.sell >= 0
    ensures var r := Clamp(ids, rows, venue, true);
            && Owned(ids, r, Clampable, Buy) == Min(Owned(ids, rows, Clampable, Buy), venue.buy)
            && Owned(ids, r, Clampable, Sell) == Min(Owned(ids, rows, Clampable, Sell), venue.sell)
  {
    hide Listed, ClampSide, Owned, Fold;
    ClampSideExact(ids, rows, Buy, venue.buy);
    ClampSideExact(ids, ClampSide(ids, rows, Buy, venue.buy), Sell, venue.sell);
  }

  /** One-way: the run's net is limited toward zero to the venue's signed position, one
      side at most owns anything, and neither owns more than clamping side by side would. */
  lemma OneWayClamp(ids: seq<string>, rows: Rows, venue: Venue)
    requires Listed(ids, rows) && venue.buy >= 0 && venue.sell >= 0
    ensures var r := Clamp(ids, rows, venue, false);
            && Net(ids, r) == Toward(Net(ids, rows), venue.buy - venue.sell)
            && (Owned(ids, r, Clampable, Buy) == 0 || Owned(ids, r, Clampable, Sell) == 0)
            && Owned(ids, r, Clampable, Buy) <= Min(Owned(ids, rows, Clampable, Buy), Folded(venue).buy)
            && Owned(ids, r, Clampable, Sell) <= Min(Owned(ids, rows, Clampable, Sell), Folded(venue).sell)
  {
    hide Listed, ClampSide, Fold, Owned;
    var legs := Folded(venue);
    OwnedNonneg(ids, rows, Clampable, Buy);
    OwnedNonneg(ids, rows, Clampable, Sell);
    FoldKeepsNet(ids, rows);
    var start := Fold(ids, rows);
    ClampSideExact(ids, start, Buy, legs.buy);
    ClampSideExact(ids, ClampSide(ids, start, Buy, legs.buy), Sell, legs.sell);
  }

  // ---- The re-sync to the ledger's journal -------------------------------------------------

  /** `NetSide` for the run's own rows, nothing when there is nothing to net. */
  function Cut(ids: seq<string>, rows: Rows, side: Side, quantity: int): (r: Rows)
    requires Listed(ids, rows)
    ensures Listed(ids, r)
  {
    if quantity <= 0 then rows
    else
      NetSideConserves(ids, rows, RunOwned, side, quantity);
      NetSide(ids, rows, RunOwned, side, quantity)
  }

  function SyncHedge(ids: seq<string>, rows: Rows, side: Side, target: int): (r: Rows)
    requires Listed(ids, rows)
    ensures Listed(ids, r)
  {
    var journal := Owned(ids, rows, RunOwned, side);
    if journal > target then Cut(ids, rows, side, journal - Max(target, 0)) else rows
  }

  /** The verdicts cut off the side they took, as far as the rows are past the target. */
  function CutTaken(ids: seq<string>, rows: Rows, target: int, long: int, short: int): (r: Rows)
    requires Listed(ids, rows)
    ensures Listed(ids, r)
  {
    var r1 := Cut(ids, rows, Buy, Min(long, Max(0, Signed(ids, rows) - target + short)));
    Cut(ids, r1, Sell, Min(short, Max(0, target - Signed(ids, r1))))
  }

  /** What is still past the target on either side of zero, cut off its side. */
  function CutRest(ids: seq<string>, rows: Rows, target: int): (r: Rows)
    requires Listed(ids, rows)
    ensures Listed(ids, r)
  {
    var journal := Signed(ids, rows);
    if journal > Max(target, 0) then Cut(ids, rows, Buy, journal - Max(target, 0))
    else if journal < Min(target, 0) then Cut(ids, rows, Sell, Min(target, 0) - journal)
    else rows
  }

  function SyncOneWay(ids: seq<string>, rows: Rows, target: int, long: int, short: int): (r: Rows)
    requires Listed(ids, rows)
    ensures Listed(ids, r)
  {
    CutRest(ids, CutTaken(ids, rows, target, long, short), target)
  }

  lemma CutExact(ids: seq<string>, rows: Rows, side: Side, quantity: int)
    requires Listed(ids, rows)
    ensures var r := Cut(ids, rows, side, quantity);
            && Owned(ids, r, RunOwned, side)
               == Owned(ids, rows, RunOwned, side) - Min(Max(quantity, 0), Owned(ids, rows, RunOwned, side))
            && Owned(ids, r, RunOwned, Opposite(side)) == Owned(ids, rows, RunOwned, Opposite(side))
  {
    hide Listed, NetSide;
    OwnedNonneg(ids, rows, RunOwned, side);
    if quantity > 0 {
      NetSideConserves(ids, rows, RunOwned, side, quantity);
    }
  }

  /** A hedge leg's rows are brought down to the target, never raised. */
  lemma SyncHedgeExact(ids: seq<string>, rows: Rows, side: Side, target: int)
    requires Listed(ids, rows)
    ensures var r := SyncHedge(ids, rows, side, target);
            && Owned(ids, r, RunOwned, side) == Min(Owned(ids, rows, RunOwned, side), Max(target, 0))
            && Owned(ids, r, RunOwned, Opposite(side)) == Owned(ids, rows, RunOwned, Opposite(side))
  {
    hide Listed, Cut;
    OwnedNonneg(ids, rows, RunOwned, side);
    CutExact(ids, rows, side, Owned(ids, rows, RunOwned, side) - Max(target, 0));
  }

  lemma CutRestBounded(ids: seq<string>, rows: Rows, target: int)
    requires Listed(ids, rows)
    ensures var r := CutRest(ids, rows, target);
            && Min(target, 0) <= Signed(ids, r) <= Max(target, 0)
            && Owned(ids, r, RunOwned, Buy) <= Owned(ids, rows, RunOwned, Buy)
            && Owned(ids, r, RunOwned, Sell) <= Owned(ids, rows, RunOwned, Sell)
  {
    hide Listed, Cut, Owned;
    OwnedNonneg(ids, rows, RunOwned, Buy);
    OwnedNonneg(ids, rows, RunOwned, Sell);
    var journal := Signed(ids, rows);
    CutExact(ids, rows, Buy, journal - Max(target, 0));
    CutExact(ids, rows, Sell, Min(target, 0) - journal);
  }

  lemma CutTakenLess(ids: seq<string>, rows: Rows, target: int, long: int, short: int)
    requires Listed(ids, rows)
    ensures var r := CutTaken(ids, rows, target, long, short);
            && Owned(ids, r, RunOwned, Buy) <= Owned(ids, rows, RunOwned, Buy)
            && Owned(ids, r, RunOwned, Sell) <= Owned(ids, rows, RunOwned, Sell)
  {
    hide Listed, Cut, Owned;
    var q1 := Min(long, Max(0, Signed(ids, rows) - target + short));
    var r1 := Cut(ids, rows, Buy, q1);
    CutExact(ids, rows, Buy, q1);
    CutExact(ids, r1, Sell, Min(short, Max(0, target - Signed(ids, r1))));
    OwnedNonneg(ids, rows, RunOwned, Buy);
    OwnedNonneg(ids, r1, RunOwned, Sell);
  }

  /** One-way rows never end past the target on either side of zero, and no side gains. */
  lemma SyncOneWayBounded(ids: seq<string>, rows: Rows, target: int, long: int, short: int)
    requires Listed(ids, rows)
    ensures var r := SyncOneWay(ids, rows, target, long, short);
            && Min(target, 0) <= Signed(ids, r) <= Max(target, 0)
            && Owned(ids, r, RunOwned, Buy) <= Owned(ids, rows, RunOwned, Buy)
            && Owned(ids, r, RunOwned, Sell) <= Owned(ids, rows, RunOwned, Sell)
  {
    hide Listed, CutTaken, CutRest, Owned;
    CutTakenLess(ids, rows, target, long, short);
    CutRestBounded(ids, CutTaken(ids, rows, target, long, short), target);
  }

  /** When the rows hold the target and the verdicts not netted yet, and each side holds
      what was taken of it, the rows end exactly on the target: each verdict is cut off
      the side it took, whatever the sign of the total became. */
  lemma SyncOneWayExact(ids: seq<string>, rows: Rows, target: int, long: int, short: int)
    requires Listed(ids, rows)
    requires 0 <= long <= Owned(ids, rows, RunOwned, Buy) && 0 <= short <= Owned(ids, rows, RunOwned, Sell)
    requires Signed(ids, rows) == target + long - short
    ensures var r := SyncOneWay(ids, rows, target, long, short);
            && Signed(ids, r) == target
            && Owned(ids, r, RunOwned, Buy) == Owned(ids, rows, RunOwned, Buy) - long
            && Owned(ids, r, RunOwned, Sell) == Owned(ids, rows, RunOwned, Sell) - short
  {
    hide Listed, Cut, Owned;
    var r1 := Cut(ids, rows, Buy, long);
    CutExact(ids, rows, Buy, long);
    CutExact(ids, r1, Sell, short);
    assert CutTaken(ids, rows, target, long, short) == Cut(ids, r1, Sell, short);
  }

  // ---- The store ---------------------------------------------------------------------------------

  /** The verdicts a one-way re-sync can take off the rows: what the long side's rows lack of its
      verdicts is made up by netting that much less off the short side. */
  predicate OneWayReaches(ids: seq<string>, rows: Rows, long: int, short: int)
    requires forall id :: id in ids ==> id in rows
  {
    var lacking := Max(0, long - Owned(ids, rows, RunOwned, Buy));
    lacking <= short && short - lacking <= Owned(ids, rows, RunOwned, Sell)
  }

  /** Rows that hold the target and the verdicts not netted yet end on the target exactly then. */
  lemma SyncOneWayReaches(ids: seq<string>, rows: Rows, target: int, long: int, short: int)
    requires Listed(ids, rows) && long >= 0 && short >= 0
    requires Signed(ids, rows) == target + long - short
    ensures Signed(ids, SyncOneWay(ids, rows, target, long, short)) == target
            <==> OneWayReaches(ids, rows, long, short)
  {
    hide Listed, Cut, Owned;
    var r1 := Cut(ids, rows, Buy, long);
    var q2 := Min(short, Max(0, target - Signed(ids, r1)));
    var r2 := Cut(ids, r1, Sell, q2);
    OwnedNonneg(ids, rows, RunOwned, Buy);
    OwnedNonneg(ids, rows, RunOwned, Sell);
    CutExact(ids, rows, Buy, long);
    CutExact(ids, r1, Sell, q2);
    assert CutTaken(ids, rows, target, long, short) == r2;
    CutExact(ids, r2, Buy, Signed(ids, r2) - Max(target, 0));
    CutExact(ids, r2, Sell, Min(target, 0) - Signed(ids, r2));
  }

  /** A verdict on a long side none of whose rows are left: the re-sync cannot reach its target. */
  lemma FallsShort() returns (ids: seq<string>, rows: Rows)
    ensures Listed(ids, rows) && Owned(ids, rows, RunOwned, Buy) == 0 && Signed(ids, rows) == -1
    ensures !OneWayReaches(ids, rows, 1, 0) && Signed(ids, SyncOneWay(ids, rows, -2, 1, 0)) != -2
  {
    hide SyncOneWay;
    ids, rows := ["a"], map["a" := Row(Sell, true, false, false, 0, 1, 1, 0, false, false)];
    assert ids[1..] == [];
    SyncOneWayReaches(ids, rows, -2, 1, 0);
  }

  /** A hedge leg's rows end on a target they hold, and on no other. */
  lemma SyncHedgeReaches(ids: seq<string>, rows: Rows, side: Side, target: int)
    requires Listed(ids, rows)
    ensures Owned(ids, SyncHedge(ids, rows, side, target), RunOwned, side) == target
            <==> 0 <= target <= Owned(ids, rows, RunOwned, side)
  {
    hide Listed, SyncHedge, Owned;
    OwnedNonneg(ids, rows, RunOwned, side);
    SyncHedgeExact(ids, rows, side, target);
  }

  /** Netting is netting the first row, then the others. */
  lemma NetFirst(rows: Rows, list: seq<string>, quantity: int)
    requires (forall id :: id in list ==> id in rows) && list != [] && quantity > 0
    ensures forall id :: id in list[1..] ==> id in rows
    ensures var consumed := Min(quantity, rows[list[0]].filled);
            NetFifo(rows, list, quantity)
            == NetFifo(rows[list[0] := NetRow(rows[list[0]], consumed)], list[1..], quantity - consumed)
  {
  }

  lemma NetNone(rows: Rows, list: seq<string>, quantity: int)
    requires (forall id :: id in list ==> id in rows) && (list == [] || quantity <= 0)
    ensures NetFifo(rows, list, quantity) == (rows, quantity)
  {
  }

  /** What netting a side leaves of the quantity, and of both sides. */
  lemma NetSideLeft(ids: seq<string>, rows: Rows, scope: Scope, side: Side, quantity: int)
    requires Listed(ids, rows) && quantity >= 0
    ensures var r := NetFifo(rows, Fifo(ids, rows, scope, side), quantity);
            && Listed(ids, r.0)
            && r.1 == quantity - Min(quantity, Owned(ids, rows, scope, side))
            && Owned(ids, r.0, scope, side) == Owned(ids, rows, scope, side) - (quantity - r.1)
            && Owned(ids, r.0, scope, Opposite(side)) == Owned(ids, rows, scope, Opposite(side))
  {
    hide NetFifo, Fifo, Owned, Once, OldestFirst, SumFilled;
    ListedOnce(ids, rows);
    FifoSound(ids, rows, scope, side);
    NetRest(rows, Fifo(ids, rows, scope, side), quantity);
    NetSideConserves(ids, rows, scope, side, quantity);
  }

  class EntryStore {
    var ids: seq<string>
    var rows: Rows

    ghost predicate Valid()
      reads this
    {
      Listed(ids, rows)
    }

    /** One row loses `consumed`; a row left with nothing is retired. */
    method NetEntryRow(id: string, consumed: int)
      requires id in rows
      modifies this`rows
      ensures rows == old(rows)[id := NetRow(old(rows)[id], consumed)]
    {
      if consumed <= 0 {
        return;
      }
      var row := rows[id];
      var qty := row.qty - consumed;
      if qty <= 0 {
        rows := rows[id := row.(closed := true)];
        return;
      }
      rows := rows[id := row.(qty := qty, filled := Max(0, row.filled - consumed),
                              netted := VenueFilled(row) - row.filled + consumed)];
    }

    /** Net `quantity` out of one side's rows, oldest first; what was left to net. */
    method NetRowsFifo(scope: Scope, side: Side, quantity: int) returns (left: int)
      requires Valid()
      modifies this`rows
      ensures quantity >= 0 ==> Valid()
      ensures (rows, left) == NetFifo(old(rows), Fifo(ids, old(rows), scope, side), quantity)
      ensures quantity >= 0 ==>
                left == quantity - Min(quantity, Owned(ids, old(rows), scope, side))
                && Owned(ids, rows, scope, side) == Owned(ids, old(rows), scope, side) - (quantity - left)
                && Owned(ids, rows, scope, Opposite(side)) == Owned(ids, old(rows), scope, Opposite(side))
    {
      hide NetFifo, Fifo, Owned, Listed, NetRow, Once;
      var list := Fifo(ids, rows, scope, side);
      left := quantity;
      var i := 0;
      assert list[0..] == list;
      while i < |list| && left > 0
        invariant 0 <= i <= |list|
        invariant forall id :: id in list ==> id in rows
        invariant NetFifo(rows, list[i..], left) == NetFifo(old(rows), list, quantity)
        decreases |list| - i
      {
        NetFirst(rows, list[i..], left);
        assert list[i..][1..] == list[i + 1..] && list[i..][0] == list[i];
        var consumed := Min(left, rows[list[i]].filled);
        NetEntryRow(list[i], consumed);
        left := left - consumed;
        i := i + 1;
      }
      NetNone(rows, list[i..], left);
      if quantity >= 0 {
        NetSideLeft(ids, old(rows), scope, side, quantity);
      }
    }

    /** One reducing fill taken off the opposite side's entry rows. */
    method ReduceEntryOwnership(side: Side, quantity: int)
      requires Valid()
      modifies this`rows
      ensures Valid()
      ensures rows == if quantity <= 0 then old(rows)
                      else NetSide(ids, old(rows), AnyEntry, Opposite(side), quantity)
    {
      if quantity <= 0 {
        return;
      }
      var left := NetRowsFifo(AnyEntry, Opposite(side), quantity);
    }

    /** Net the run's own rows of one side. */
    method NetSideShare(side: Side, quantity: int)
      requires Valid()
      modifies this`rows
      ensures Valid() && rows == Cut(ids, old(rows), side, quantity)
    {
      if quantity <= 0 {
        return;
      }
      var left := NetRowsFifo(RunOwned, side, quantity);
    }

    method SyncOneWayRows(target: int, long: int, short: int)
      requires Valid()
      modifies this`rows
      ensures Valid() && rows == SyncOneWay(ids, old(rows), target, long, short)
    {
      hide Cut, Signed, Listed;
      var journal := Signed(ids, rows);
      NetSideShare(Buy, Min(long, Max(0, journal - target + short)));
      journal := Signed(ids, rows);
      NetSideShare(Sell, Min(short, Max(0, target - journal)));
      journal := Signed(ids, rows);
      if journal > Max(target, 0) {
        NetSideShare(Buy, journal - Max(target, 0));
      } else if journal < Min(target, 0) {
        NetSideShare(Sell, Min(target, 0) - journal);
      }
    }

    /** Bring the rows down to the ledger's journal share `target`. */
    method SyncLegJournal(hedge: bool, side: Side, target: int, long: int, short: int)
      requires Valid()
      modifies this`rows
      ensures Valid()
      ensures rows == if hedge then SyncHedge(ids, old(rows), side, target)
                      else SyncOneWay(ids, old(rows), target, long, short)
    {
      hide Cut, Signed, Listed, SyncOneWay, Owned;
      if hedge {
        var journal := Owned(ids, rows, RunOwned, side);
        if journal > target {
          NetSideShare(side, journal - Max(target, 0));
        }
        return;
      }
      SyncOneWayRows(target, long, short);
    }

    method FoldRows()
      requires Valid()
      modifies this`rows
      ensures Valid() && rows == Fold(ids, old(rows))
    {
      hide Owned, NetFifo, Fifo, Listed;
      var folded := Min(Owned(ids, rows, Clampable, Buy), Owned(ids, rows, Clampable, Sell));
      if folded > 0 {
        var left := NetRowsFifo(Clampable, Buy, folded);
        left := NetRowsFifo(Clampable, Sell, folded);
      }
    }

    method ClampSideTo(side: Side, size: int)
      requires Valid()
      modifies this`rows
      ensures Valid() && rows == ClampSide(ids, old(rows), side, size)
    {
      hide Owned, NetFifo, Fifo, Listed;
      var excess := Owned(ids, rows, Clampable, side) - size;
      if excess > 0 {
        var left := NetRowsFifo(Clampable, side, excess);
      }
    }

    /** Clamp the settled rows to the venue's verified position. */
    method ClampToVenue(venue: Venue, hedge: bool)
      requires Valid()
      modifies this`rows
      ensures Valid() && rows == Clamp(ids, old(rows), venue, hedge)
    {
      hide Fold, ClampSide, Listed;
      var legs := venue;
      if !hedge {
        legs := Folded(venue);
        FoldRows();
      }
      ClampSideTo(Buy, legs.buy);
      ClampSideTo(Sell, legs.sell);
    }
  }
}

// The durable ownership book: the entry rows of a run, netted oldest first by its own
// reduces, by the ledger's verdicts and by the startup clamp. Quantities are whole grid
// steps in the wire domain.

module EntryRows {
  import opened Common

  /** One order's row. `filled` is the owned exposure, `netted` what was netted out of it. */
  datatype Row = Row(
    side: Side, entry: bool, adopted: bool, pending: bool, created: int,
    qty: int, filled: int, netted: int, cancelled: bool, closed: bool)

  /** What the venue executed of the order, as far as this row booked it. */
  function VenueFilled(row: Row): int { row.filled + row.netted }

  /** Which rows an operation consumes: any live entry, the run's own, or the settled ones. */
  datatype Scope = AnyEntry | RunOwned | Clampable

  predicate Picks(row: Row, scope: Scope, side: Side) {
    && !row.closed && row.entry && row.side == side && row.filled > 0
    && (scope.RunOwned? ==> !row.adopted) && (scope.Clampable? ==> !row.pending)
  }

  predicate RowOk(row: Row) {
    0 <= row.filled <= row.qty && 0 <= row.netted
  }

  type Rows = map<string, Row>

  /** The store's rows, listed in `ids` in the order it iterates them. */
  ghost predicate Listed(ids: seq<string>, rows: Rows): (r: bool)
    ensures r ==> forall id :: id in ids ==> id in rows
  {
    && (forall i, j :: 0 <= i < j < |ids| ==> ids[i] != ids[j])
    && (forall id :: id in ids <==> id in rows)
    && (forall id :: id in rows ==> RowOk(rows[id]))
  }

  // ---- Netting ------------------------------------------------------------------------------

  /** `consumed` owned exposure netted out of one row. */
  function NetRow(row: Row, consumed: int): Row {
    if consumed <= 0 then row
    else if row.qty - consumed <= 0 then row.(closed := true)
    else row.(qty := row.qty - consumed, filled := Max(0, row.filled - consumed),
              netted := row.netted + consumed)
  }

  /** `id` before the first row created later; the store's order breaks ties. */
  function InsertId(id: string, list: seq<string>, rows: Rows): (r: seq<string>)
    requires id in rows && forall x :: x in list ==> x in rows
    ensures |r| == |list| + 1
    ensures forall x :: x in r <==> x == id || x in list
  {
    if list == [] then [id]
    else if rows[id].created <= rows[list[0]].created then [id] + list
    else [list[0]] + InsertId(id, list[1..], rows)
  }

  /** The rows an operation consumes, oldest first. */
  function Fifo(ids: seq<string>, rows: Rows, scope: Scope, side: Side): (r: seq<string>)
    requires forall id :: id in ids ==> id in rows
    ensures forall id :: id in r ==> id in ids && Picks(rows[id], scope, side)
  {
    if ids == [] then []
    else
      var rest := Fifo(ids[1..], rows, scope, side);
      if Picks(rows[ids[0]], scope, side) then
        InsertId(ids[0], rest, rows)
      else rest
  }

  /** Net `quantity` out of the listed rows in order: `(rows, what was left to net)`. */
  function NetFifo(rows: Rows, list: seq<string>, quantity: int): (Rows, int)
    requires forall id :: id in list ==> id in rows
    decreases |list|
  {
    if list == [] || quantity <= 0 then (rows, quantity)
    else
      assert list[0] in list && forall id :: id in list[1..] ==> id in list;
      var row := rows[list[0]];
      var consumed := Min(quantity, row.filled);
      NetFifo(rows[list[0] := NetRow(row, consumed)], list[1..], quantity - consumed)
  }

  /** Net `quantity` of one side's exposure, oldest rows first. */
  function NetSide(ids: seq<string>, rows: Rows, scope: Scope, side: Side, quantity: int): Rows
    requires Listed(ids, rows)
  {
    NetFifo(rows, Fifo(ids, rows, scope, side), quantity).0
  }

  // ---- What is owned -------------------------------------------------------------------------

  function Owned(ids: seq<string>, rows: Rows, scope: Scope, side: Side): int
    requires forall id :: id in ids ==> id in rows
  {
    if ids == [] then 0
    else (if Picks(rows[ids[0]], scope, side) then rows[ids[0]].filled else 0)
         + Owned(ids[1..], rows, scope, side)
  }

  /** The run's signed exposure. */
  function Signed(ids: seq<string>, rows: Rows): int
    requires forall id :: id in ids ==> id in rows
  {
    Owned(ids, rows, RunOwned, Buy) - Owned(ids, rows, RunOwned, Sell)
  }

  function SumFilled(list: seq<string>, rows: Rows): int
    requires forall id :: id in list ==> id in rows
  {
    if list == [] then 0 else rows[list[0]].filled + SumFilled(list[1..], rows)
  }

  predicate Once(list: seq<string>) {
    forall i, j :: 0 <= i < j < |list| ==> list[i] != list[j]
  }

  lemma OnceTail(list: seq<string>)
    requires Once(list) && list != []
    ensures Once(list[1..]) && list[0] !in list[1..]
  {
  }

  lemma OnceCons(id: string, list: seq<string>)
    requires Once(list) && id !in list
    ensures Once([id] + list)
  {
  }

  lemma InsertOnce(id: string, list: seq<string>, rows: Rows)
    requires id in rows && (forall x :: x in list ==> x in rows) && Once(list) && id !in list
    ensures Once(InsertId(id, list, rows))
    ensures SumFilled(InsertId(id, list, rows), rows) == rows[id].filled + SumFilled(list, rows)
  {
    hide Once;
    if list == [] || rows[id].created <= rows[list[0]].created {
      OnceCons(id, list);
      assert ([id] + list)[1..] == list;
      if list == [] {
        assert [id] + list == [id];
      }
    } else {
      OnceTail(list);
      InsertOnce(id, list[1..], rows);
      OnceCons(list[0], InsertId(id, list[1..], rows));
      var t := InsertId(id, list[1..], rows);
      assert ([list[0]] + t)[1..] == t;
    }
  }

  predicate OldestFirst(list: seq<string>, rows: Rows)
    requires forall x :: x in list ==> x in rows
  {
    forall i, j :: 0 <= i < j < |list| ==> rows[list[i]].created <= rows[list[j]].created
  }

  lemma InsertOldest(id: string, list: seq<string>, rows: Rows)
    requires id in rows && (forall x :: x in list ==> x in rows) && OldestFirst(list, rows)
    ensures OldestFirst(InsertId(id, list, rows), rows)
  {
    if list != [] && rows[id].created > rows[list[0]].created {
      assert forall i :: 0 <= i < |list| - 1 ==> list[1..][i] == list[i + 1];
      InsertOldest(id, list[1..], rows);
      var t := InsertId(id, list[1..], rows);
      forall j | 0 <= j < |t|
        ensures rows[list[0]].created <= rows[t[j]].created
      {
        assert t[j] in t;
        if t[j] != id {
          var k :| 0 <= k < |list[1..]| && list[1..][k] == t[j];
          assert list[k + 1] == t[j];
        }
      }
    }
  }

  /** The consumed rows are exactly the picked ones, each once, oldest first, and hold what
      the side owns. */
  lemma FifoSound(ids: seq<string>, rows: Rows, scope: Scope, side: Side)
    requires (forall id :: id in ids ==> id in rows) && Once(ids)
    ensures var list := Fifo(ids, rows, scope, side);
            && Once(list) && OldestFirst(list, rows)
            && (forall id :: id in ids && Picks(rows[id], scope, side) ==> id in list)
            && SumFilled(list, rows) == Owned(ids, rows, scope, side)
  {
    hide Once, OldestFirst;
    if ids != [] {
      OnceTail(ids);
      assert forall id :: id in ids <==> id == ids[0] || id in ids[1..];
      FifoSound(ids[1..], rows, scope, side);
      if Picks(rows[ids[0]], scope, side) {
        var rest := Fifo(ids[1..], rows, scope, side);
        InsertOnce(ids[0], rest, rows);
        InsertOldest(ids[0], rest, rows);
      }
    } else {
      NoneOldest(rows);
    }
  }

  lemma NoneOldest(rows: Rows)
    ensures Once([]) && OldestFirst([], rows)
  {
  }

  // ---- What netting does ------------------------------------------------------------------------

  function Prefix(list: seq<string>, rows: Rows, k: nat): int
    requires k <= |list| && forall id :: id in list ==> id in rows
  {
    SumFilled(list[..k], rows)
  }

  /** The part of a row's exposure `[older, older + filled)` within `[0, quantity)`. */
  function Share(filled: int, older: int, quantity: int): int {
    Max(0, Min(filled, quantity - older))
  }

  lemma SumUpdate(list: seq<string>, rows: Rows, id: string, row: Row)
    requires (forall x :: x in list ==> x in rows) && id !in list
    ensures SumFilled(list, rows[id := row]) == SumFilled(list, rows)
  {
    if list == [] {
    } else {
      assert list[0] in list && forall x :: x in list[1..] ==> x in list;
      SumUpdate(list[1..], rows, id, row);
    }
  }

  lemma SumNonneg(list: seq<string>, rows: Rows)
    requires forall x :: x in list ==> x in rows && rows[x].filled >= 0
    ensures SumFilled(list, rows) >= 0
  {
  }

  lemma PrefixNext(list: seq<string>, rows: Rows, k: nat)
    requires 0 < k <= |list| && forall id :: id in list ==> id in rows
    ensures forall id :: id in list[1..] ==> id in rows
    ensures Prefix(list, rows, k) == rows[list[0]].filled + Prefix(list[1..], rows, k - 1)
  {
    assert forall id :: id in list[1..] ==> id in list;
    assert list[..k][1..] == list[1..][..k - 1];
    assert list[..k][0] == list[0];
  }

  /** The step of netting: the first row loses what the quantity reaches of it. */
  lemma NetStep(rows: Rows, list: seq<string>, quantity: int)
    requires (forall id :: id in list ==> id in rows && rows[id].filled > 0) && Once(list)
    requires list != [] && quantity > 0
    ensures var consumed := Min(quantity, rows[list[0]].filled);
            var next := rows[list[0] := NetRow(rows[list[0]], consumed)];
            && (forall id :: id in list[1..] ==> id in list && id in next && next[id] == rows[id])
            && Once(list[1..]) && list[0] !in list[1..]
            && SumFilled(list[1..], next) == SumFilled(list[1..], rows) >= 0
            && NetFifo(rows, list, quantity) == NetFifo(next, list[1..], quantity - consumed)
  {
    hide NetRow, Once;
    OnceTail(list);
    assert list[0] in list && forall id :: id in list[1..] ==> id in list;
    SumUpdate(list[1..], rows, list[0], NetRow(rows[list[0]], Min(quantity, rows[list[0]].filled)));
    SumNonneg(list[1..], rows);
  }

  lemma {:induction false} NetRest(rows: Rows, list: seq<string>, quantity: int)
    requires (forall id :: id in list ==> id in rows && rows[id].filled > 0) && Once(list) && quantity >= 0
    ensures var r := NetFifo(rows, list, quantity);
            && r.0.Keys == rows.Keys
            && r.1 == Max(0, quantity - SumFilled(list, rows))
            && (forall id :: id in rows && id !in list ==> r.0[id] == rows[id])
    decreases |list|
  {
    SumNonneg(list, rows);
    if list != [] && quantity > 0 {
      hide NetRow, Once, NetFifo;
      NetStep(rows, list, quantity);
      var consumed := Min(quantity, rows[list[0]].filled);
      NetRest(rows[list[0] := NetRow(rows[list[0]], consumed)], list[1..], quantity - consumed);
    }
  }

  /** The oldest row loses what the quantity reaches of it. */
  lemma NetHead(rows: Rows, list: seq<string>, quantity: int)
    requires (forall id :: id in list ==> id in rows && rows[id].filled > 0) && Once(list) && quantity >= 0
    requires list != []
    ensures NetFifo(rows, list, quantity).0.Keys == rows.Keys
    ensures NetFifo(rows, list, quantity).0[list[0]]
            == NetRow(rows[list[0]], Share(rows[list[0]].filled, 0, quantity))
  {
    hide NetRow, Once, NetFifo;
    NetRest(rows, list, quantity);
    if quantity <= 0 {
      NetNothing(rows, list, quantity);
      RowUntouched(rows[list[0]]);
    } else {
      NetStep(rows, list, quantity);
      var consumed := Min(quantity, rows[list[0]].filled);
      NetRest(rows[list[0] := NetRow(rows[list[0]], consumed)], list[1..], quantity - consumed);
    }
  }

  /** What a row loses does not change when the oldest row is netted first. */
  lemma ShareNext(list: seq<string>, rows: Rows, next: Rows, quantity: int, consumed: int, k: nat)
    requires 0 < k < |list| && Once(list)
    requires forall id :: id in list ==> id in rows && rows[id].filled > 0
    requires next == rows[list[0] := NetRow(rows[list[0]], consumed)]
    requires quantity > 0 && consumed == Min(quantity, rows[list[0]].filled)
    ensures list[1..][k - 1] == list[k] && next.Keys == rows.Keys && next[list[k]] == rows[list[k]]
    ensures forall id :: id in list[1..] ==> id in next && next[id] == rows[id]
    ensures Share(rows[list[k]].filled, Prefix(list[1..], next, k - 1), quantity - consumed)
            == Share(rows[list[k]].filled, Prefix(list, rows, k), quantity)
  {
    hide NetRow, Once;
    OnceTail(list);
    assert forall id :: id in list[1..] ==> id in list;
    assert list[1..][k - 1] == list[k] && list[k] in list[1..];
    PrefixNext(list, rows, k);
    assert forall x :: x in list[1..][..k - 1] ==> x in list[1..];
    SumUpdate(list[1..][..k - 1], rows, list[0], NetRow(rows[list[0]], consumed));
    SumNonneg(list[1..][..k - 1], rows);
  }

  /** The k-th oldest row loses exactly the part of its exposure the quantity reaches. */
  lemma {:induction false} NetAt(rows: Rows, list: seq<string>, quantity: int, k: nat)
    requires (forall id :: id in list ==> id in rows && rows[id].filled > 0) && Once(list) && quantity >= 0
    requires k < |list|
    ensures NetFifo(rows, list, quantity).0.Keys == rows.Keys
    ensures NetFifo(rows, list, quantity).0[list[k]]
            == NetRow(rows[list[k]], Share(rows[list[k]].filled, Prefix(list, rows, k), quantity))
    decreases |list|
  {
    hide NetRow, Once, NetFifo, Share;
    if k == 0 {
      assert list[..0] == [];
      NetHead(rows, list, quantity);
    } else if quantity <= 0 {
      NetNothing(rows, list, quantity);
      assert forall x :: x in list[..k] ==> x in list;
      SumNonneg(list[..k], rows);
      NoShare(rows[list[k]], Prefix(list, rows, k), quantity);
    } else {
      var consumed := Min(quantity, rows[list[0]].filled);
      var next := rows[list[0] := NetRow(rows[list[0]], consumed)];
      NetStep(rows, list, quantity);
      ShareNext(list, rows, next, quantity, consumed, k);
      NetAt(next, list[1..], quantity - consumed, k - 1);
    }
  }

  lemma NoShare(row: Row, older: int, quantity: int)
    requires quantity <= 0 && older >= 0
    ensures NetRow(row, Share(row.filled, older, quantity)) == row
  {
  }

  lemma NetNothing(rows: Rows, list: seq<string>, quantity: int)
    requires (forall id :: id in list ==> id in rows) && quantity <= 0
    ensures NetFifo(rows, list, quantity) == (rows, quantity)
  {
  }

  lemma RowUntouched(row: Row)
    ensures NetRow(row, 0) == row
  {
  }

  /** A netted row keeps the venue's fill cursor and its unfilled remainder; it is retired
      exactly when neither exposure nor remainder is left. */
  lemma NetRowKeeps(row: Row, consumed: int)
    requires RowOk(row) && !row.closed && 0 <= consumed <= row.filled
    ensures var r := NetRow(row, consumed);
            && RowOk(r)
            && (!r.closed ==> VenueFilled(r) == VenueFilled(row) && r.qty - r.filled == row.qty - row.filled
                              && r.filled == row.filled - consumed)
            && (r.closed <==> consumed > 0 && row.filled == consumed && row.qty == row.filled)
            && (if r.closed then r == row.(closed := true)
                else r == row.(qty := r.qty, filled := r.filled, netted := r.netted))
  {
  }

  // ---- Totals ------------------------------------------------------------------------------------

  lemma OwnedSame(ids: seq<string>, a: Rows, b: Rows, scope: Scope, side: Side)
    requires forall id :: id in ids ==> id in a && id in b && a[id] == b[id]
    ensures Owned(ids, a, scope, side) == Owned(ids, b, scope, side)
  {
  }

  lemma OwnedUpdate(ids: seq<string>, rows: Rows, id: string, row: Row, scope: Scope, side: Side)
    requires (forall x :: x in ids ==> x in rows) && Once(ids) && id in ids
    ensures Owned(ids, rows[id := row], scope, side)
            == Owned(ids, rows, scope, side)
               - (if Picks(rows[id], scope, side) then rows[id].filled else 0)
               + (if Picks(row, scope, side) then row.filled else 0)
  {
    OnceTail(ids);
    assert ids[0] in ids && forall x :: x in ids[1..] ==> x in ids;
    if ids[0] == id {
      OwnedSame(ids[1..], rows, rows[id := row], scope, side);
    } else {
      OwnedUpdate(ids[1..], rows, id, row, scope, side);
    }
  }

  /** A scope that picks every row another picks of a side. */
  predicate Within(inner: Scope, outer: Scope) {
    inner == outer || outer.AnyEntry?
  }

  /** Netting a row by part of its exposure takes exactly that off every scope that picks it. */
  lemma {:induction false} NetFifoOwned(ids: seq<string>, rows: Rows, list: seq<string>, quantity: int,
                                        scope: Scope, side: Side, other: Scope, side': Side)
    requires Listed(ids, rows) && Once(list) && quantity >= 0
    requires forall id :: id in list ==> id in rows && Picks(rows[id], scope, side)
    requires side' != side || Within(scope, other)
    ensures var r := NetFifo(rows, list, quantity).0;
            && Listed(ids, r)
            && Owned(ids, r, other, side')
               == Owned(ids, rows, other, side') - (if side' == side then Min(quantity, SumFilled(list, rows)) else 0)
    decreases |list|
  {
    if list == [] {
    } else if quantity <= 0 {
      SumNonneg(list, rows);
    } else {
      hide Once, NetRow, Listed;
      OnceTail(list);
      var head, tail := list[0], list[1..];
      assert head in list && forall id :: id in tail ==> id in list;
      var consumed := Min(quantity, rows[head].filled);
      var row := NetRow(rows[head], consumed);
      var rows' := rows[head := row];
      HeadNetted(ids, rows, head, consumed);
      assert Once(ids) by { ListedOnce(ids, rows); }
      OwnedUpdate(ids, rows, head, row, other, side');
      SumUpdate(tail, rows, head, row);
      SumNonneg(tail, rows);
      NetFifoOwned(ids, rows', tail, quantity - consumed, scope, side, other, side');
    }
  }

  lemma HeadNetted(ids: seq<string>, rows: Rows, head: string, consumed: int)
    requires Listed(ids, rows) && head in rows && !rows[head].closed && 0 <= consumed <= rows[head].filled
    ensures Listed(ids, rows[head := NetRow(rows[head], consumed)]) && head in ids
    ensures var r := NetRow(rows[head], consumed);
            r.side == rows[head].side && r.entry == rows[head].entry && r.adopted == rows[head].adopted
            && r.pending == rows[head].pending
            && (if r.closed then rows[head].filled == consumed else r.filled == rows[head].filled - consumed)
  {
    NetRowKeeps(rows[head], consumed);
  }

  lemma ListedOnce(ids: seq<string>, rows: Rows)
    requires Listed(ids, rows)
    ensures Once(ids)
  {
  }

  /** FIFO netting conserves: the side's owned total falls by exactly the quantity, as far
      as it reaches; the other side and the listing stay. */
  lemma NetSideConserves(ids: seq<string>, rows: Rows, scope: Scope, side: Side, quantity: int)
    requires Listed(ids, rows) && quantity >= 0
    ensures var r := NetSide(ids, rows, scope, side, quantity);
            && Listed(ids, r)
            && Owned(ids, r, scope, side) == Owned(ids, rows, scope, side)
                                             - Min(quantity, Owned(ids, rows, scope, side))
            && Owned(ids, r, scope, Opposite(side)) == Owned(ids, rows, scope, Opposite(side))
  {
    hide Once, OldestFirst;
    ListedOnce(ids, rows);
    FifoSound(ids, rows, scope, side);
    var list := Fifo(ids, rows, scope, side);
    NetFifoOwned(ids, rows, list, quantity, scope, side, scope, side);
    NetFifoOwned(ids, rows, list, quantity, scope, side, scope, Opposite(side));
  }

  /** Netting leaves alone every row that is retired, an exit's, of the other side or without
      exposure; for the run's own verdicts the adopted ones too, and for the startup clamp those
      still to settle. */
  lemma NetSpares(ids: seq<string>, rows: Rows, scope: Scope, side: Side, quantity: int, id: string)
    requires Listed(ids, rows) && quantity >= 0 && id in rows
    requires var row := rows[id];
             || row.closed || !row.entry || row.side != side || row.filled == 0
             || (scope.RunOwned? && row.adopted) || (scope.Clampable? && row.pending)
    ensures var r := NetSide(ids, rows, scope, side, quantity); id in r && r[id] == rows[id]
  {
    hide Once, OldestFirst;
    ListedOnce(ids, rows);
    FifoSound(ids, rows, scope, side);
    var list := Fifo(ids, rows, scope, side);
    NetRest(rows, list, quantity);
  }

  /** The other live rows of the side are what netting can take, all of it in the end. */
  lemma NetTakesAll(ids: seq<string>, rows: Rows, scope: Scope, side: Side, quantity: int, id: string)
    requires Listed(ids, rows) && quantity >= Owned(ids, rows, scope, side) && id in rows
    requires var row := rows[id];
             && !row.closed && row.entry && row.side == side && row.filled > 0
             && (scope.RunOwned? ==> !row.adopted) && (scope.Clampable? ==> !row.pending)
    ensures var r := NetSide(ids, rows, scope, side, quantity);
            id in r && (r[id].closed || r[id].filled == 0)
  {
    hide Once, OldestFirst, NetFifo, Fifo, Owned;
    OwnedNonneg(ids, rows, scope, side);
    ListedOnce(ids, rows);
    FifoSound(ids, rows, scope, side);
    var list := Fifo(ids, rows, scope, side);
    var k :| 0 <= k < |list| && list[k] == id;
    NetAt(rows, list, quantity, k);
    PrefixWithin(list, rows, k);
  }

  lemma PrefixWithin(list: seq<string>, rows: Rows, k: nat)
    requires k < |list| && forall id :: id in list ==> id in rows && rows[id].filled >= 0
    ensures 0 <= Prefix(list, rows, k) && Prefix(list, rows, k) + rows[list[k]].filled <= SumFilled(list, rows)
  {
    assert forall id :: id in list[1..] ==> id in list;
    if k == 0 {
      SumNonneg(list[1..], rows);
    } else {
      PrefixNext(list, rows, k);
      PrefixWithin(list[1..], rows, k - 1);
    }
  }

  lemma OwnedNonneg(ids: seq<string>, rows: Rows, scope: Scope, side: Side)
    requires forall id :: id in ids ==> id in rows
    ensures Owned(ids, rows, scope, side) >= 0
  {
  }
}

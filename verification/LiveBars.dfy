// The closed bars a live feed queues, across reconnects. Bars are numbered by their
// opening, counted in bars of the feed's fixed interval; `now` names the forming bar, so
// the bars before it have closed.

module LiveBars {
  import opened Common

  const LIMIT := 1000

  /** What the feed keeps. `queue` is every closed bar queued in this connection, read or
      not; `held` the stream closes held back while a gap is being backfilled. */
  datatype Feed = Feed(queue: seq<int>, snapshot: Option<int>, last: Option<int>, stream: Option<int>,
                       held: Option<seq<int>>)

  predicate After(bar: int, last: Option<int>) {
    last.None? || bar > last.value
  }

  /** Queue one closed bar; a snapshot it settles is dropped. */
  function Enqueue(f: Feed, bar: int): Feed {
    f.(queue := f.queue + [bar], last := Some(bar),
       snapshot := if f.snapshot.Some? && f.snapshot.value <= bar then None else f.snapshot)
  }

  /** One bar of a kline push. */
  datatype Push = Push(bar: int, closed: bool)

  function Take(f: Feed, p: Push): Feed {
    if !p.closed && !After(p.bar, f.last) then f
    else
      var f1 := f.(stream := if f.stream.None? || p.bar > f.stream.value then Some(p.bar) else f.stream);
      if !p.closed then f1.(snapshot := Some(p.bar))
      else if f1.held.Some? then f1.(held := Some(f1.held.value + [p.bar]))
      else if !After(p.bar, f1.last) then f1
      else Enqueue(f1, p.bar)
  }

  function TakeAll(f: Feed, pushes: seq<Push>): Feed
    decreases |pushes|
  {
    if pushes == [] then f else TakeAll(Take(f, pushes[0]), pushes[1..])
  }

  /** A new connection: closes are held back once there is a gap to fill. */
  function Connect(f: Feed): Feed {
    f.(queue := [], snapshot := None,
       held := if f.last.Some? || f.stream.Some? then Some([]) else None)
  }

  function Disconnect(f: Feed): Feed {
    f.(queue := [], snapshot := None, held := None)
  }

  // ---- Sorting ------------------------------------------------------------------------------

  function InsertBar(bar: int, bars: seq<int>): seq<int> {
    if bars == [] then [bar]
    else if bar <= bars[0] then [bar] + bars
    else [bars[0]] + InsertBar(bar, bars[1..])
  }

  function Sorted(bars: seq<int>): seq<int> {
    if bars == [] then [] else InsertBar(bars[0], Sorted(bars[1..]))
  }

  predicate Ascending(bars: seq<int>) {
    forall i, j :: 0 <= i < j < |bars| ==> bars[i] <= bars[j]
  }

  lemma InsertAscending(bar: int, bars: seq<int>)
    requires Ascending(bars)
    ensures Ascending(InsertBar(bar, bars))
    ensures forall b :: b in InsertBar(bar, bars) <==> b == bar || b in bars
  {
    if bars != [] && bar > bars[0] {
      assert forall i :: 0 <= i < |bars| - 1 ==> bars[1..][i] == bars[i + 1];
      InsertAscending(bar, bars[1..]);
      var t := InsertBar(bar, bars[1..]);
      forall j | 0 <= j < |t|
        ensures bars[0] <= t[j]
      {
        assert t[j] in t;
      }
      assert forall b :: b in bars <==> b == bars[0] || b in bars[1..];
    }
  }

  lemma SortedSound(bars: seq<int>)
    ensures Ascending(Sorted(bars))
    ensures forall b :: b in Sorted(bars) <==> b in bars
  {
    if bars == [] {
    } else {
      SortedSound(bars[1..]);
      InsertAscending(bars[0], Sorted(bars[1..]));
      assert forall b :: b in bars <==> b == bars[0] || b in bars[1..];
    }
  }

  // ---- The backfill -----------------------------------------------------------------------------

  /** Queue the rows of one page, oldest first: those closed and not queued before. */
  function Rows(f: Feed, rows: seq<int>, now: int): Feed
    decreases |rows|
  {
    if rows == [] then f
    else if rows[0] <= (if f.last.Some? then f.last.value else 0) || rows[0] >= now then Rows(f, rows[1..], now)
    else Rows(Enqueue(f, rows[0]), rows[1..], now)
  }

  /** Queue the held closes the backfill did not reach, in order. */
  function Flush(f: Feed, bars: seq<int>): Feed
    decreases |bars|
  {
    if bars == [] then f
    else if !After(bars[0], f.last) then Flush(f, bars[1..])
    else Flush(Enqueue(f, bars[0]), bars[1..])
  }

  function Release(f: Feed): Feed {
    var f0 := f.(held := None);
    if f.held.None? then f0 else Flush(f0, Sorted(f.held.value))
  }

  /** The venue's bars in `[lo, hi]`, oldest first. */
  function Range(venue: set<int>, lo: int, hi: int): (r: seq<int>)
    ensures |r| <= Max(0, hi - lo + 1)
    decreases hi - lo + 1
  {
    if lo > hi then [] else if lo in venue then [lo] + Range(venue, lo + 1, hi) else Range(venue, lo + 1, hi)
  }

  /** The endpoint's answer: the newest `LIMIT` of the window. */
  function Page(venue: set<int>, lo: int, hi: int): seq<int> {
    var all := Range(venue, lo, hi);
    if |all| <= LIMIT then all else all[|all| - LIMIT..]
  }

  /** Where a backfill resumes: behind the last closed bar, else at the bar seen forming. */
  function GapStart(f: Feed): Option<int> {
    if f.last.Some? then Some(f.last.value + 1) else f.stream
  }

  /** Whether a page queued anything. */
  predicate Wrote(f: Feed, rows: seq<int>, now: int) {
    |Rows(f, rows, now).queue| > |f.queue|
  }

  lemma RowsLast(f: Feed, rows: seq<int>, now: int, lo: int)
    requires forall b :: b in rows ==> b >= lo
    ensures var r := Rows(f, rows, now);
            && |r.queue| >= |f.queue|
            && (if |r.queue| > |f.queue| then r.last.Some? && r.last.value >= lo else r == f)
    decreases |rows|
  {
    if rows == [] {
    } else {
      assert rows[0] in rows && forall b :: b in rows[1..] ==> b in rows;
      if rows[0] <= (if f.last.Some? then f.last.value else 0) || rows[0] >= now {
        RowsLast(f, rows[1..], now, lo);
      } else {
        RowsLast(Enqueue(f, rows[0]), rows[1..], now, lo);
      }
    }
  }

  lemma PageInside(venue: set<int>, lo: int, hi: int)
    ensures forall b :: b in Sorted(Page(venue, lo, hi)) ==> lo <= b <= hi
  {
    SortedSound(Page(venue, lo, hi));
    RangeInside(venue, lo, hi);
    var all, page := Range(venue, lo, hi), Page(venue, lo, hi);
    assert page == all[|all| - |page|..];
    assert forall b :: b in page ==> b in all;
  }

  lemma RangeInside(venue: set<int>, lo: int, hi: int)
    ensures forall b :: b in Range(venue, lo, hi) ==> lo <= b <= hi && b in venue
    decreases hi - lo + 1
  {
    if lo <= hi {
      RangeInside(venue, lo + 1, hi);
    }
  }

  /** The walk through the gap, window by window: behind the newest bar queued, else behind
      the window. Rows inside their window make every step move forward. */
  function Gap(f: Feed, cursor: int, now: int, venue: set<int>): Feed
    decreases Max(0, now - cursor)
  {
    if cursor >= now then f
    else
      var end := Min(cursor + LIMIT - 1, now);
      var rows := Sorted(Page(venue, cursor, end));
      var f1 := Rows(f, rows, now);
      PageInside(venue, cursor, end);
      RowsLast(f, rows, now, cursor);
      if Wrote(f, rows, now) then Gap(f1, f1.last.value + 1, now, venue)
      else Gap(f1, Max(end + 1, cursor + 1), now, venue)
  }

  function Backfill(f: Feed, now: int, venue: set<int>): Feed {
    var start := GapStart(f);
    if start.None? then f else Gap(f, start.value, now, venue)
  }

  // ---- Order ------------------------------------------------------------------------------------------

  predicate Increasing(bars: seq<int>) {
    forall i, j :: 0 <= i < j < |bars| ==> bars[i] < bars[j]
  }

  /** The queue of a connection strictly increases, and the cursor is at its end or past it. */
  predicate Ordered(f: Feed) {
    && Increasing(f.queue)
    && (f.queue != [] ==> f.last.Some? && f.queue[|f.queue| - 1] <= f.last.value)
  }

  lemma EnqueueOrdered(f: Feed, bar: int)
    requires Ordered(f) && After(bar, f.last)
    ensures Ordered(Enqueue(f, bar))
  {
  }

  lemma TakeOrdered(f: Feed, p: Push)
    requires Ordered(f)
    ensures Ordered(Take(f, p))
    ensures f.held.Some? ==> Take(f, p).queue == f.queue && Take(f, p).last == f.last
  {
  }

  /** While a gap is backfilled, what the stream delivers never reaches the queue. */
  lemma {:induction false} TakeAllOrdered(f: Feed, pushes: seq<Push>)
    requires Ordered(f)
    ensures Ordered(TakeAll(f, pushes))
    ensures f.held.Some? ==> TakeAll(f, pushes).queue == f.queue && TakeAll(f, pushes).last == f.last
    decreases |pushes|
  {
    if pushes == [] {
    } else {
      hide Ordered;
      TakeOrdered(f, pushes[0]);
      HeldStays(f, pushes[0]);
      TakeAllOrdered(Take(f, pushes[0]), pushes[1..]);
    }
  }

  lemma HeldStays(f: Feed, p: Push)
    ensures Take(f, p).held.Some? == f.held.Some?
  {
  }

  lemma {:induction false} RowsOrdered(f: Feed, rows: seq<int>, now: int)
    requires Ordered(f)
    ensures var r := Rows(f, rows, now);
            Ordered(r) && f.queue <= r.queue && r.held == f.held && r.stream == f.stream
    decreases |rows|
  {
    if rows == [] {
    } else {
      hide Ordered;
      if rows[0] <= (if f.last.Some? then f.last.value else 0) || rows[0] >= now {
        RowsOrdered(f, rows[1..], now);
      } else {
        EnqueueOrdered(f, rows[0]);
        RowsOrdered(Enqueue(f, rows[0]), rows[1..], now);
      }
    }
  }

  lemma {:induction false} GapOrdered(f: Feed, cursor: int, now: int, venue: set<int>)
    requires Ordered(f)
    ensures var r := Gap(f, cursor, now, venue);
            Ordered(r) && f.queue <= r.queue && r.held == f.held && r.stream == f.stream
    decreases Max(0, now - cursor)
  {
    if cursor < now {
      hide Ordered, Rows, Page, Sorted;
      var end := Min(cursor + LIMIT - 1, now);
      var rows := Sorted(Page(venue, cursor, end));
      var f1 := Rows(f, rows, now);
      PageInside(venue, cursor, end);
      RowsLast(f, rows, now, cursor);
      RowsOrdered(f, rows, now);
      if Wrote(f, rows, now) {
        GapOrdered(f1, f1.last.value + 1, now, venue);
      } else {
        GapOrdered(f1, Max(end + 1, cursor + 1), now, venue);
      }
    }
  }

  lemma {:induction false} FlushOrdered(f: Feed, bars: seq<int>)
    requires Ordered(f)
    ensures var r := Flush(f, bars);
            && Ordered(r) && f.queue <= r.queue
            && (forall b :: b in bars ==> b in r.queue || !After(b, r.last))
    decreases |bars|
  {
    if bars == [] {
    } else {
      hide Ordered;
      if !After(bars[0], f.last) {
        FlushOrdered(f, bars[1..]);
        FlushLast(f, bars[1..]);
      } else {
        EnqueueOrdered(f, bars[0]);
        FlushOrdered(Enqueue(f, bars[0]), bars[1..]);
        FlushLast(Enqueue(f, bars[0]), bars[1..]);
      }
      assert forall b :: b in bars ==> b == bars[0] || b in bars[1..];
    }
  }

  lemma {:induction false} FlushLast(f: Feed, bars: seq<int>)
    ensures f.last.Some? ==> Flush(f, bars).last.Some? && f.last.value <= Flush(f, bars).last.value
    decreases |bars|
  {
    if bars == [] {
    } else {
      FlushLast(f, bars[1..]);
      FlushLast(Enqueue(f, bars[0]), bars[1..]);
    }
  }

  /** Releasing queues the held closes behind everything backfilled, in order, and loses
      none that the backfill did not reach. */
  lemma {:induction false} ReleaseKeepsAll(f: Feed)
    requires Ordered(f) && f.held.Some?
    ensures var r := Release(f);
            && Ordered(r) && f.queue <= r.queue
            && forall b :: b in f.held.value && After(b, f.last) ==> b in r.queue
  {
    hide Ordered;
    SortedSound(f.held.value);
    var f0 := f.(held := None);
    assert Ordered(f0) by { SameOrder(f, f0); }
    FlushOrdered(f0, Sorted(f.held.value));
    FlushAll(f0, Sorted(f.held.value));
  }

  lemma SameOrder(a: Feed, b: Feed)
    requires Ordered(a) && a.queue == b.queue && a.last == b.last
    ensures Ordered(b)
  {
  }

  lemma {:induction false} FlushAll(f: Feed, bars: seq<int>)
    requires Ordered(f) && Ascending(bars)
    ensures forall b :: b in bars && After(b, f.last) ==> b in Flush(f, bars).queue
    decreases |bars|
  {
    if bars == [] {
    } else {
      hide Ordered;
      assert forall i :: 0 <= i < |bars| - 1 ==> bars[1..][i] == bars[i + 1];
      forall b | b in bars && After(b, f.last)
        ensures b in Flush(f, bars).queue
      {
        if !After(bars[0], f.last) {
          FlushAll(f, bars[1..]);
        } else {
          var f1 := Enqueue(f, bars[0]);
          EnqueueOrdered(f, bars[0]);
          FlushAll(f1, bars[1..]);
          FlushOrdered(f1, bars[1..]);
          assert f1.queue[|f.queue|] == bars[0];
          if b != bars[0] {
            var k :| 0 <= k < |bars[1..]| && bars[1..][k] == b;
            assert bars[0] <= bars[k + 1];
          }
        }
      }
    }
  }

  // ---- The gap is filled whole ---------------------------------------------------------------------------

  lemma RangeSplit(venue: set<int>, lo: int, mid: int, hi: int)
    requires lo <= mid + 1 && mid <= hi
    ensures Range(venue, lo, hi) == Range(venue, lo, mid) + Range(venue, mid + 1, hi)
    decreases mid - lo + 1
  {
    if lo <= mid {
      RangeSplit(venue, lo + 1, mid, hi);
    }
  }

  lemma RangeIn(venue: set<int>, lo: int, hi: int)
    ensures forall b :: b in Range(venue, lo, hi) ==> lo <= b <= hi && b in venue
    ensures Increasing(Range(venue, lo, hi))
    decreases hi - lo + 1
  {
    if lo <= hi {
      RangeIn(venue, lo + 1, hi);
      var t := Range(venue, lo + 1, hi);
      if lo in venue {
        var r := [lo] + t;
        assert forall i :: 1 <= i < |r| ==> r[i] == t[i - 1] && t[i - 1] in t;
      }
    }
  }

  lemma SortedStays(bars: seq<int>)
    requires Increasing(bars)
    ensures Sorted(bars) == bars
  {
  }

  /** A window asks for no more bars than the endpoint returns. */
  lemma PageIsWhole(venue: set<int>, cursor: int, now: int)
    ensures var end := Min(cursor + LIMIT - 1, now);
            Sorted(Page(venue, cursor, end)) == Range(venue, cursor, end)
  {
    var end := Min(cursor + LIMIT - 1, now);
    RangeIn(venue, cursor, end);
    SortedStays(Range(venue, cursor, end));
  }

  /** What the rows of a window past the cursor queue: all of them that have closed. */
  lemma {:induction false} RowsQueue(f: Feed, lo: int, hi: int, now: int, venue: set<int>)
    requires 0 < lo && After(lo, f.last) && hi <= now
    ensures var r := Rows(f, Range(venue, lo, hi), now);
            var queued := Range(venue, lo, Min(hi, now - 1));
            && r.queue == f.queue + queued
            && (if queued == [] then r.last == f.last else r.last == Some(queued[|queued| - 1]))
    decreases hi - lo + 1
  {
    if lo > hi {
      assert f.queue + [] == f.queue;
    } else if lo !in venue {
      RowsQueue(f, lo + 1, hi, now, venue);
    } else {
      var rest := Range(venue, lo + 1, hi);
      assert ([lo] + rest)[1..] == rest;
      if lo >= now {
        assert rest == [];
        assert Range(venue, lo, now - 1) == [] && f.queue + [] == f.queue;
      } else {
        RowsQueue(Enqueue(f, lo), lo + 1, hi, now, venue);
        var queued := Range(venue, lo + 1, Min(hi, now - 1));
        assert f.queue + [lo] + queued == f.queue + ([lo] + queued);
      }
    }
  }

  /** One window: what it queues, and where the walk goes on behind it. */
  lemma GapStep(f: Feed, cursor: int, now: int, venue: set<int>) returns (f1: Feed, next: int)
    requires 0 < cursor < now && After(cursor, f.last)
    ensures cursor < next && After(next, f1.last)
    ensures Gap(f, cursor, now, venue) == Gap(f1, next, now, venue)
    ensures f1.queue + Range(venue, next, now - 1) == f.queue + Range(venue, cursor, now - 1)
  {
    hide Rows, Range, Page, Sorted;
    var end := Min(cursor + LIMIT - 1, now);
    PageIsWhole(venue, cursor, now);
    RowsQueue(f, cursor, end, now, venue);
    var closed := Min(end, now - 1);
    var queued := Range(venue, cursor, closed);
    RangeIn(venue, cursor, closed);
    RangeSplit(venue, cursor, closed, now - 1);
    f1 := Rows(f, Range(venue, cursor, end), now);
    PageInside(venue, cursor, end);
    RowsLast(f, Range(venue, cursor, end), now, cursor);
    if queued != [] {
      var last := queued[|queued| - 1];
      next := last + 1;
      assert last in queued;
      NothingPast(venue, cursor, last, closed);
      RangeSplit(venue, cursor, last, now - 1);
      assert (f.queue + queued) + Range(venue, next, now - 1) == f.queue + (queued + Range(venue, next, now - 1));
    } else {
      next := end + 1;
      if end == now {
        NoRange(venue, end + 1, now - 1);
        NoRange(venue, closed + 1, now - 1);
      }
      assert f.queue + [] == f.queue;
      assert [] + Range(venue, closed + 1, now - 1) == Range(venue, closed + 1, now - 1);
    }
  }

  /** The backfill queues exactly the venue's closed bars from the cursor on, each once and
      in order, however long the gap: no window hides its oldest bars. */
  lemma {:induction false} GapComplete(f: Feed, cursor: int, now: int, venue: set<int>)
    requires 0 < cursor && After(cursor, f.last)
    ensures Gap(f, cursor, now, venue).queue == f.queue + Range(venue, cursor, now - 1)
    decreases Max(0, now - cursor)
  {
    if cursor < now {
      hide Gap, Range;
      var f1, next := GapStep(f, cursor, now, venue);
      GapComplete(f1, next, now, venue);
    } else {
      NoRange(venue, cursor, now - 1);
      assert f.queue + [] == f.queue;
    }
  }

  lemma NoRange(venue: set<int>, lo: int, hi: int)
    requires lo > hi
    ensures Range(venue, lo, hi) == []
  {
  }

  /** Behind a window's newest bar it holds none. */
  lemma NothingPast(venue: set<int>, lo: int, last: int, hi: int)
    requires var r := Range(venue, lo, hi); r != [] && r[|r| - 1] == last
    ensures lo <= last <= hi && Range(venue, last + 1, hi) == [] && Range(venue, lo, last) == Range(venue, lo, hi)
  {
    hide Range;
    var r := Range(venue, lo, hi);
    RangeIn(venue, lo, hi);
    assert last in r;
    RangeSplit(venue, lo, last, hi);
    RangeIn(venue, last + 1, hi);
    var tail := Range(venue, last + 1, hi);
    LastIsGreatest(r);
    HasBar(tail);
    assert forall b :: b in tail ==> b in r;
  }

  lemma LastIsGreatest(bars: seq<int>)
    requires Increasing(bars) && bars != []
    ensures forall b :: b in bars ==> b <= bars[|bars| - 1]
  {
  }

  lemma HasBar(bars: seq<int>)
    ensures |bars| > 0 ==> bars[0] in bars
  {
  }

  // ---- What a message queues -------------------------------------------------------------------------------

  /** The bars a message closes, in its order. */
  function ClosedBars(pushes: seq<Push>): seq<int> {
    if pushes == [] then []
    else ClosedBars(pushes[..|pushes| - 1])
         + (if pushes[|pushes| - 1].closed then [pushes[|pushes| - 1].bar] else [])
  }

  /** Bar `i` is beyond the cursor and beyond every bar before it. */
  predicate Rises(bars: seq<int>, last: Option<int>, i: nat)
    requires i < |bars|
  {
    After(bars[i], last) && forall j :: 0 <= j < i ==> bars[j] < bars[i]
  }

  /** The bars that rise, in order. */
  function Rising(bars: seq<int>, last: Option<int>): seq<int> {
    if bars == [] then []
    else Rising(bars[..|bars| - 1], last)
         + (if Rises(bars, last, |bars| - 1) then [bars[|bars| - 1]] else [])
  }

  /** The cursor is the greatest of itself before and what has been closed since. */
  predicate Passed(last: Option<int>, bars: seq<int>, now: Option<int>) {
    && (forall b :: b in bars ==> !After(b, now))
    && (last.Some? ==> now.Some? && last.value <= now.value)
    && (now == last || exists i :: 0 <= i < |bars| && now == Some(bars[i]))
  }

  lemma PassedIs(last: Option<int>, bars: seq<int>, now: Option<int>, bar: int)
    requires Passed(last, bars, now)
    ensures After(bar, now) <==> Rises(bars + [bar], last, |bars|)
    ensures Passed(last, bars + [bar], if After(bar, now) then Some(bar) else now)
  {
    var all := bars + [bar];
    assert forall j :: 0 <= j < |bars| ==> all[j] == bars[j] && bars[j] in bars;
    assert forall b :: b in all <==> b in bars || b == bar;
    assert all[|bars|] == bar;
  }

  lemma TakeLast(f: Feed, pushes: seq<Push>, p: Push)
    ensures TakeAll(f, pushes + [p]) == Take(TakeAll(f, pushes), p)
    decreases |pushes|
  {
    if pushes == [] {
      assert pushes + [p] == [p] && [p][1..] == [];
    } else {
      assert (pushes + [p])[1..] == pushes[1..] + [p];
      TakeLast(Take(f, pushes[0]), pushes[1..], p);
    }
  }

  lemma ClosesLast(pushes: seq<Push>, p: Push)
    ensures ClosedBars(pushes + [p]) == ClosedBars(pushes) + (if p.closed then [p.bar] else [])
  {
    assert (pushes + [p])[..|pushes|] == pushes;
  }

  lemma RisingLast(bars: seq<int>, last: Option<int>, bar: int)
    ensures Rising(bars + [bar], last)
            == Rising(bars, last) + (if Rises(bars + [bar], last, |bars|) then [bar] else [])
  {
    assert (bars + [bar])[..|bars|] == bars;
  }

  /** With nothing held back a message queues exactly the bars it closes beyond the cursor and
      beyond every earlier one, in order; while a gap is filled it queues nothing, and every bar
      it closes is held. */
  lemma {:induction false} MessageQueues(f: Feed, pushes: seq<Push>)
    ensures var r := TakeAll(f, pushes);
            if f.held.Some? then
              r.held == Some(f.held.value + ClosedBars(pushes)) && r.queue == f.queue && r.last == f.last
            else r.held.None? && r.queue == f.queue + Rising(ClosedBars(pushes), f.last)
                 && Passed(f.last, ClosedBars(pushes), r.last)
    decreases |pushes|
  {
    hide Rises, Passed, Take, After;
    if pushes == [] {
      assert f.queue + [] == f.queue;
      assert f.held.Some? ==> f.held.value + [] == f.held.value;
      PassedNothing(f.last);
    } else {
      var front, p := pushes[..|pushes| - 1], pushes[|pushes| - 1];
      assert pushes == front + [p];
      MessageQueues(f, front);
      TakeLast(f, front, p);
      ClosesLast(front, p);
      var g := TakeAll(f, front);
      TakeIs(g, p);
      if !p.closed {
        assert ClosedBars(front) + [] == ClosedBars(front);
      } else if f.held.Some? {
        Joined(f.held.value, ClosedBars(front), [p.bar]);
      } else {
        PassedIs(f.last, ClosedBars(front), g.last, p.bar);
        RisingLast(ClosedBars(front), f.last, p.bar);
        Joined(f.queue, Rising(ClosedBars(front), f.last), [p.bar]);
        Joined(f.queue, Rising(ClosedBars(front), f.last), []);
      }
    }
  }

  lemma Joined(a: seq<int>, b: seq<int>, c: seq<int>)
    ensures (a + b) + c == a + (b + c)
  {
  }

  lemma PassedNothing(last: Option<int>)
    ensures Passed(last, [], last)
  {
  }

  /** One push, on the queue, the cursor and what is held back. */
  lemma TakeIs(f: Feed, p: Push)
    ensures var r := Take(f, p);
            if !p.closed then r.queue == f.queue && r.last == f.last && r.held == f.held
            else if f.held.Some? then r.queue == f.queue && r.last == f.last && r.held == Some(f.held.value + [p.bar])
            else r.held == f.held && r.queue == f.queue + (if After(p.bar, f.last) then [p.bar] else [])
                 && r.last == if After(p.bar, f.last) then Some(p.bar) else f.last
  {
    assert f.queue + [] == f.queue;
  }

  // ---- The forming bar ---------------------------------------------------------------------------------------

  /** The bar seen forming is the newest the stream told of: of what it accepted, nothing is newer. */
  lemma {:induction false} StreamNewest(f: Feed, pushes: seq<Push>)
    ensures var r := TakeAll(f, pushes);
            && (f.stream.Some? ==> r.stream.Some? && f.stream.value <= r.stream.value)
            && (forall p :: p in pushes && (p.closed || After(p.bar, r.last))
                            ==> !After(p.bar, r.stream) && r.stream.Some?)
            && (r.stream == f.stream || exists i :: 0 <= i < |pushes| && r.stream == Some(pushes[i].bar))
    decreases |pushes|
  {
    if pushes == [] {
    } else {
      var front, p := pushes[..|pushes| - 1], pushes[|pushes| - 1];
      assert pushes == front + [p];
      StreamNewest(f, front);
      TakeLast(f, front, p);
      var g, r := TakeAll(f, front), TakeAll(f, pushes);
      assert forall q :: q in pushes <==> q in front || q == p;
      TakeForward(g, p);
      if r.stream == g.stream && g.stream != f.stream {
        var i :| 0 <= i < |front| && g.stream == Some(front[i].bar);
        assert pushes[i] == front[i];
      }
    }
  }

  lemma TakeForward(f: Feed, p: Push)
    ensures var r := Take(f, p);
            && (f.last.Some? && !f.held.Some? ==> r.last.Some? && f.last.value <= r.last.value)
            && (forall b :: After(b, r.last) ==> After(b, f.last))
  {
  }

  /** A forming bar beyond the cursor is the one left to read; one that has closed shows nothing. */
  lemma FormingShown(f: Feed, pushes: seq<Push>, bar: int)
    ensures var g, r := TakeAll(f, pushes), TakeAll(f, pushes + [Push(bar, false)]);
            if After(bar, g.last) then r.snapshot == Some(bar) else r == g
  {
    TakeLast(f, pushes, Push(bar, false));
  }

  /** No forming bar is left to read behind a queued close of it. */
  predicate Unsettled(f: Feed) {
    f.queue != [] && f.snapshot.Some? ==> f.queue[|f.queue| - 1] < f.snapshot.value
  }

  lemma EnqueueUnsettled(f: Feed, bar: int)
    ensures Unsettled(Enqueue(f, bar))
  {
  }

  lemma {:induction false} TakeAllUnsettled(f: Feed, pushes: seq<Push>)
    requires Ordered(f) && Unsettled(f)
    ensures Unsettled(TakeAll(f, pushes))
    decreases |pushes|
  {
    if pushes != [] {
      TakeOrdered(f, pushes[0]);
      TakeAllUnsettled(Take(f, pushes[0]), pushes[1..]);
    }
  }

  lemma {:induction false} RowsUnsettled(f: Feed, rows: seq<int>, now: int)
    requires Unsettled(f)
    ensures Unsettled(Rows(f, rows, now))
    decreases |rows|
  {
    if rows != [] {
      hide Unsettled;
      EnqueueUnsettled(f, rows[0]);
      var skip := rows[0] <= (if f.last.Some? then f.last.value else 0) || rows[0] >= now;
      RowsUnsettled(if skip then f else Enqueue(f, rows[0]), rows[1..], now);
    }
  }

  lemma {:induction false} FlushUnsettled(f: Feed, bars: seq<int>)
    requires Unsettled(f)
    ensures Unsettled(Flush(f, bars))
    decreases |bars|
  {
    if bars != [] {
      hide Unsettled;
      EnqueueUnsettled(f, bars[0]);
      FlushUnsettled(if After(bars[0], f.last) then Enqueue(f, bars[0]) else f, bars[1..]);
    }
  }

  // ---- A whole reconnect -------------------------------------------------------------------------------------

  /** The reader's next connection: frames, the backfill, frames, and the held closes released. */
  function Reconnect(f: Feed, before: seq<Push>, now: int, venue: set<int>, behind: seq<Push>): Feed {
    Release(TakeAll(Backfill(TakeAll(Connect(f), before), now, venue), behind))
  }

  /** Every venue bar of a range is in it. */
  lemma RangeHas(venue: set<int>, lo: int, hi: int, bar: int)
    ensures bar in Range(venue, lo, hi) <==> bar in venue && lo <= bar <= hi
    decreases hi - lo + 1
  {
  }

  /** What a flush adds: the bars beyond the cursor, and nothing else. */
  lemma {:induction false} FlushOnly(f: Feed, bars: seq<int>)
    ensures forall b :: b in Flush(f, bars).queue ==> b in f.queue || (b in bars && After(b, f.last))
    decreases |bars|
  {
    if bars != [] {
      assert forall b :: b in bars <==> b == bars[0] || b in bars[1..];
      FlushOnly(if After(bars[0], f.last) then Enqueue(f, bars[0]) else f, bars[1..]);
    }
  }

  lemma ReleaseExact(f: Feed, bar: int)
    requires Ordered(f) && f.held.Some?
    ensures bar in Release(f).queue <==> bar in f.queue || (bar in f.held.value && After(bar, f.last))
    ensures Ordered(Release(f)) && f.queue <= Release(f).queue
  {
    hide Ordered;
    ReleaseKeepsAll(f);
    SortedSound(f.held.value);
    FlushOnly(f.(held := None), Sorted(f.held.value));
    assert f.queue <= Release(f).queue;
    InFront(f.queue, Release(f).queue, bar);
  }

  lemma InFront(a: seq<int>, b: seq<int>, x: int)
    requires a <= b
    ensures x in a ==> x in b
  {
  }

  /** The cursor stands at the end of the queue once anything was queued. */
  predicate AtEnd(f: Feed, r: Feed) {
    && f.queue <= r.queue
    && (if |r.queue| == |f.queue| then r.last == f.last else r.last == Some(r.queue[|r.queue| - 1]))
  }

  lemma {:induction false} RowsEnd(f: Feed, rows: seq<int>, now: int)
    ensures AtEnd(f, Rows(f, rows, now))
    decreases |rows|
  {
    if rows != [] {
      if rows[0] <= (if f.last.Some? then f.last.value else 0) || rows[0] >= now {
        RowsEnd(f, rows[1..], now);
      } else {
        RowsEnd(Enqueue(f, rows[0]), rows[1..], now);
      }
    }
  }

  lemma AtEndThen(f: Feed, g: Feed, h: Feed)
    requires AtEnd(f, g) && AtEnd(g, h)
    ensures AtEnd(f, h)
  {
  }

  lemma {:induction false} GapEnd(f: Feed, cursor: int, now: int, venue: set<int>)
    ensures AtEnd(f, Gap(f, cursor, now, venue))
    decreases Max(0, now - cursor)
  {
    hide Rows, Page, Sorted;
    if cursor < now {
      hide AtEnd;
      var end := Min(cursor + LIMIT - 1, now);
      var rows := Sorted(Page(venue, cursor, end));
      var f1 := Rows(f, rows, now);
      PageInside(venue, cursor, end);
      RowsLast(f, rows, now, cursor);
      RowsEnd(f, rows, now);
      var next := if Wrote(f, rows, now) then f1.last.value + 1 else Max(end + 1, cursor + 1);
      GapEnd(f1, next, now, venue);
      AtEndThen(f, f1, Gap(f1, next, now, venue));
    }
  }

  /** What the backfill leaves: the venue's closed bars from its start, and the cursor. */
  lemma BackfillExact(f: Feed, now: int, venue: set<int>)
    requires Ordered(f) && f.queue == [] && (GapStart(f).Some? ==> GapStart(f).value > 0)
    ensures var r := Backfill(f, now, venue);
            && Ordered(r) && r.held == f.held && r.stream == f.stream
            && r.queue == (if GapStart(f).None? then [] else Range(venue, GapStart(f).value, now - 1))
            && (if r.queue == [] then r.last == f.last else r.last == Some(r.queue[|r.queue| - 1]))
  {
    hide Gap, Range, Ordered;
    if GapStart(f).Some? {
      GapOrdered(f, GapStart(f).value, now, venue);
      GapComplete(f, GapStart(f).value, now, venue);
      assert f.queue + Range(venue, GapStart(f).value, now - 1) == Range(venue, GapStart(f).value, now - 1);
      GapEnd(f, GapStart(f).value, now, venue);
    }
  }

  /** A whole reconnect queues, each once and in order, the venue's closed bars from where the
      backfill starts, and of the bars the stream closed since the connection those beyond. */
  lemma ReconnectQueues(f: Feed, before: seq<Push>, now: int, venue: set<int>, behind: seq<Push>, bar: int)
    requires f.last.Some? || f.stream.Some?
    requires var start := GapStart(TakeAll(Connect(f), before)); start.Some? ==> start.value > 0
    ensures var start := GapStart(TakeAll(Connect(f), before));
            var r := Reconnect(f, before, now, venue, behind);
            && start.Some? && Increasing(r.queue) && r.held.None?
            && var filled := Range(venue, start.value, now - 1);
               bar in r.queue <==> bar in filled
                                   || (bar in ClosedBars(before) + ClosedBars(behind)
                                       && if filled == [] then After(bar, f.last) else bar > filled[|filled| - 1])
  {
    hide TakeAll, Range, Gap, ClosedBars, Sorted, Flush;
    var a := Connect(f);
    assert Ordered(a);
    var b := TakeAll(a, before);
    MessageQueues(a, before);
    StreamNewest(a, before);
    TakeAllOrdered(a, before);
    BackfillExact(b, now, venue);
    var c := Backfill(b, now, venue);
    var d := TakeAll(c, behind);
    MessageQueues(c, behind);
    TakeAllOrdered(c, behind);
    ReleaseExact(d, bar);
    FlushHeld(d);
    assert [] + ClosedBars(before) == ClosedBars(before);
  }

  lemma {:induction false} FlushIsHeld(f: Feed, bars: seq<int>)
    ensures Flush(f, bars).held == f.held
    decreases |bars|
  {
    if bars != [] {
      FlushIsHeld(if After(bars[0], f.last) then Enqueue(f, bars[0]) else f, bars[1..]);
    }
  }

  lemma FlushHeld(f: Feed)
    ensures Release(f).held.None?
  {
    if f.held.Some? {
      FlushIsHeld(f.(held := None), Sorted(f.held.value));
    }
  }

  /** A bar the feed has not had: behind the last it closed, or, if it closed none, from the bar it
      saw forming on. */
  predicate Missed(f: Feed, bar: int) {
    if f.last.Some? then bar > f.last.value else f.stream.Some? && bar >= f.stream.value
  }

  /** No missed bar that has closed is lost in a reconnect if and only if those before the start of
      the backfill came as closes of the stream and it had nothing to queue. For a feed that closed
      a bar before there are none such: it resumes right behind. */
  lemma ReconnectComplete(f: Feed, before: seq<Push>, now: int, venue: set<int>, behind: seq<Push>)
    requires (f.last.Some? || f.stream.Some?) && forall b :: Missed(f, b) ==> b > 0
    ensures var start := GapStart(TakeAll(Connect(f), before));
            && start.Some? && (f.last.Some? ==> forall b :: Missed(f, b) ==> start.value <= b)
            && ((forall b :: b in venue && Missed(f, b) && b < now
                             ==> b in Reconnect(f, before, now, venue, behind).queue)
                <==> forall b :: b in venue && Missed(f, b) && b < Min(start.value, now)
                                 ==> b in ClosedBars(before) + ClosedBars(behind)
                                     && Range(venue, start.value, now - 1) == [])
  {
    hide TakeAll, Range, ClosedBars, Reconnect, Increasing;
    var a := Connect(f);
    MessageQueues(a, before);
    StreamNewest(a, before);
    var start := GapStart(TakeAll(a, before));
    assert Missed(f, start.value);
    var r := Reconnect(f, before, now, venue, behind);
    var filled := Range(venue, start.value, now - 1);
    forall b | b in venue && Missed(f, b) && b < now
      ensures b in r.queue <==> start.value <= b || (b in ClosedBars(before) + ClosedBars(behind) && filled == [])
    {
      ReconnectQueues(f, before, now, venue, behind, b);
      RangeHas(venue, start.value, now - 1, b);
      if filled != [] {
        RangeHas(venue, start.value, now - 1, filled[|filled| - 1]);
        HasLast(filled);
      }
    }
  }

  lemma HasLast(bars: seq<int>)
    requires bars != []
    ensures bars[|bars| - 1] in bars
  {
  }

  /** A feed that has only seen bar 10 forming reconnects, is pushed bar 12 forming before the
      backfill starts, and never queues the bars 10 and 11. */
  lemma FramesOvertake(f: Feed, before: seq<Push>, venue: set<int>)
    requires f.last.None? && f.stream == Some(10) && before == [Push(12, false)] && venue == {10, 11}
    ensures 10 !in Reconnect(f, before, 12, venue, []).queue && 11 !in Reconnect(f, before, 12, venue, []).queue
  {
    assert before[..0] == [] && ClosedBars([]) == [] && ClosedBars(before) == [];
    assert before[1..] == [];
    assert GapStart(TakeAll(Connect(f), before)) == Some(12);
    ReconnectQueues(f, before, 12, venue, [], 10);
    ReconnectQueues(f, before, 12, venue, [], 11);
    NoRange(venue, 12, 11);
  }

  // ---- Whole runs ------------------------------------------------------------------------------------------

  datatype Op =
    | Opens                                   // connect
    | Frame(pushes: seq<Push>)                // one stream message
    | Started(bar: int)                       // the startup gap moved the cursor
    | Paged(rows: seq<int>, now: int)         // one page of a reconnect backfill
    | Released                                // the backfill is done
    | Failed(resume: Option<int>)             // the backfill failed: rewound, connection dead
    | Closes                                  // disconnect

  function Apply(f: Feed, op: Op): Feed {
    match op
    case Opens => Connect(f)
    case Frame(pushes) => TakeAll(f, pushes)
    case Started(bar) => if After(bar, f.last) then f.(last := Some(bar)) else f
    case Paged(rows, now) => Rows(f, Sorted(rows), now)
    case Released => Release(f)
    case Failed(resume) => Disconnect(f.(last := resume))
    case Closes => Disconnect(f)
  }

  lemma ApplyOrdered(f: Feed, op: Op)
    requires Ordered(f)
    ensures Ordered(Apply(f, op))
    ensures Unsettled(f) ==> Unsettled(Apply(f, op))
  {
    hide Sorted, TakeAll, Rows, Flush;
    match op
    case Frame(pushes) =>
      TakeAllOrdered(f, pushes);
      if Unsettled(f) {
        TakeAllUnsettled(f, pushes);
      }
    case Paged(rows, now) =>
      RowsOrdered(f, Sorted(rows), now);
      if Unsettled(f) {
        RowsUnsettled(f, Sorted(rows), now);
      }
    case Released =>
      SameOrder(f, f.(held := None));
      if f.held.Some? {
        ReleaseKeepsAll(f);
        if Unsettled(f) {
          FlushUnsettled(f.(held := None), Sorted(f.held.value));
        }
      }
    case _ =>
  }

  function Run(f: Feed, ops: seq<Op>): Feed
    decreases |ops|
  {
    if ops == [] then f else Run(Apply(f, ops[0]), ops[1..])
  }

  /** Whatever the stream, the backfill pages and the reconnects deliver, the closed bars of
      one connection are queued in strictly increasing order, and no forming bar is left to read
      behind a queued close of it. */
  lemma {:induction false} RunOrdered(f: Feed, ops: seq<Op>)
    requires Ordered(f) && Unsettled(f)
    ensures Ordered(Run(f, ops)) && Unsettled(Run(f, ops))
    decreases |ops|
  {
    if ops == [] {
    } else {
      hide Ordered, Unsettled, Apply;
      ApplyOrdered(f, ops[0]);
      RunOrdered(Apply(f, ops[0]), ops[1..]);
    }
  }

  // ---- The feed object ---------------------------------------------------------------------------------------

  class KlineFeed {
    var queue: seq<int>
    var snapshot: Option<int>
    var last: Option<int>
    var stream: Option<int>
    var held: Option<seq<int>>

    function State(): Feed
      reads this
    {
      Feed(queue, snapshot, last, stream, held)
    }

    constructor ()
      ensures State() == Feed([], None, None, None, None)
    {
      queue, snapshot, last, stream, held := [], None, None, None, None;
    }

    method EnqueueClosed(bar: int)
      modifies this`queue, this`snapshot, this`last
      ensures State() == Enqueue(old(State()), bar)
    {
      if snapshot.Some? && snapshot.value <= bar {
        snapshot := None;
      }
      last := Some(bar);
      queue := queue + [bar];
    }

    method OnMessage(pushes: seq<Push>)
      modifies this
      ensures State() == TakeAll(old(State()), pushes)
    {
      for i := 0 to |pushes|
        invariant TakeAll(State(), pushes[i..]) == TakeAll(old(State()), pushes)
      {
        assert pushes[i..][1..] == pushes[i + 1..];
        var p := pushes[i];
        if !p.closed && last.Some? && p.bar <= last.value {
          continue;
        }
        if stream.None? || p.bar > stream.value {
          stream := Some(p.bar);
        }
        if p.closed {
          if held.Some? {
            held := Some(held.value + [p.bar]);
            continue;
          }
          if last.Some? && p.bar <= last.value {
            continue;
          }
          EnqueueClosed(p.bar);
        } else {
          snapshot := Some(p.bar);
        }
      }
    }

    method ReleaseHeld()
      modifies this
      ensures State() == Release(old(State()))
    {
      var bars := held;
      held := None;
      if bars.None? {
        return;
      }
      var sorted := Sorted(bars.value);
      for i := 0 to |sorted|
        invariant Flush(State(), sorted[i..]) == Release(old(State()))
      {
        assert sorted[i..][1..] == sorted[i + 1..];
        if last.Some? && sorted[i] <= last.value {
          continue;
        }
        EnqueueClosed(sorted[i]);
      }
    }

    /** One page's rows; whether any was queued. */
    method QueueRows(rows: seq<int>, now: int) returns (wrote: bool)
      modifies this`queue, this`snapshot, this`last
      ensures State() == Rows(old(State()), rows, now)
      ensures |queue| >= old(|queue|) && (wrote <==> |queue| > old(|queue|))
    {
      wrote := false;
      for i := 0 to |rows|
        invariant Rows(State(), rows[i..], now) == Rows(old(State()), rows, now)
        invariant |queue| >= old(|queue|) && (wrote <==> |queue| > old(|queue|))
      {
        assert rows[i..][1..] == rows[i + 1..];
        if rows[i] <= (if last.Some? then last.value else 0) || rows[i] >= now {
          continue;
        }
        EnqueueClosed(rows[i]);
        wrote := true;
      }
    }

    method BackfillGap(now: int, venue: set<int>)
      modifies this`queue, this`snapshot, this`last
      ensures State() == Backfill(old(State()), now, venue)
    {
      var cursor;
      if last.Some? {
        cursor := last.value + 1;
      } else if stream.Some? {
        cursor := stream.value;
      } else {
        return;
      }
      while cursor < now
        invariant Gap(State(), cursor, now, venue) == Backfill(old(State()), now, venue)
        decreases now - cursor
      {
        hide Rows, Page, Sorted;
        var end := Min(cursor + LIMIT - 1, now);
        PageInside(venue, cursor, end);
        RowsLast(State(), Sorted(Page(venue, cursor, end)), now, cursor);
        var wrote := QueueRows(Sorted(Page(venue, cursor, end)), now);
        if wrote {
          cursor := last.value + 1;
        } else {
          cursor := Max(end + 1, cursor + 1);
        }
      }
    }
  }
}

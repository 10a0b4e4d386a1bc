// The windowed read of the execution history: drained windows leave no hole between the
// adoption floor and the watermark, and the watermark never passes an undrained window.

module Backfill {
  import opened Common

  const WINDOW_MS := 604_800_000
  const OVERLAP_MS := 60_000

  datatype Span = Span(lo: int, hi: int)

  /** The window read next. */
  function NextSpan(watermark: int, floor: int, now: int): Span {
    var start := Max(Max(0, watermark - OVERLAP_MS), floor);
    Span(start, Min(start + WINDOW_MS, now))
  }

  /** Drain windows up to `now` while they read completely: the watermark reached and the
      windows drained, in order. */
  function Drain(watermark: int, floor: int, now: int, drains: Span -> bool): (int, seq<Span>)
    requires 0 <= floor <= watermark
    decreases now - watermark
  {
    if watermark >= now then (watermark, [])
    else
      var span := NextSpan(watermark, floor, now);
      if !drains(span) then (watermark, [])
      else
        var r := Drain(span.hi, floor, now, drains);
        (r.0, [span] + r.1)
  }

  /** Instant `t` lies in one of the windows. */
  predicate Seen(spans: seq<Span>, t: int) {
    exists i :: 0 <= i < |spans| && spans[i].lo <= t <= spans[i].hi
  }

  lemma SeenCons(span: Span, spans: seq<Span>, t: int)
    requires (span.lo <= t <= span.hi) || Seen(spans, t)
    ensures Seen([span] + spans, t)
  {
    var all := [span] + spans;
    if span.lo <= t <= span.hi {
      assert all[0] == span;
    } else {
      var i :| 0 <= i < |spans| && spans[i].lo <= t <= spans[i].hi;
      assert all[i + 1] == spans[i];
    }
  }

  /** One pass: the watermark never falls and never passes an undrained window, each window
      is complete, within the endpoint's span and above the floor, and together they leave
      no hole, the overlap behind the old watermark included. */
  lemma {:induction false} DrainLeavesNoHole(watermark: int, floor: int, now: int, drains: Span -> bool)
    requires 0 <= floor <= watermark
    ensures var r := Drain(watermark, floor, now, drains);
            && watermark <= r.0
            && (r.0 > watermark ==> r.0 <= now)
            && (r.0 >= now || !drains(NextSpan(r.0, floor, now)))
            && (forall i :: 0 <= i < |r.1| ==>
                  drains(r.1[i]) && floor <= r.1[i].lo <= r.1[i].hi <= r.1[i].lo + WINDOW_MS)
            && (r.1 != [] ==> forall t :: Max(floor, watermark - OVERLAP_MS) <= t <= r.0 ==> Seen(r.1, t))
            && (r.1 == [] <==> r.0 == watermark)
    decreases now - watermark
  {
    if watermark < now {
      var span := NextSpan(watermark, floor, now);
      if drains(span) {
        DrainLeavesNoHole(span.hi, floor, now, drains);
        var r := Drain(span.hi, floor, now, drains);
        forall t | Max(floor, watermark - OVERLAP_MS) <= t <= r.0
          ensures Seen([span] + r.1, t)
        {
          SeenCons(span, r.1, t);
        }
      }
    }
  }

  /** One pass of the reconcile cadence. */
  datatype Pass = Pass(now: int, drains: Span -> bool)

  /** Every window drained over a run of passes. */
  function Passes(watermark: int, floor: int, passes: seq<Pass>): (int, seq<Span>)
    requires 0 <= floor <= watermark
    decreases |passes|
  {
    if passes == [] then (watermark, [])
    else
      DrainLeavesNoHole(watermark, floor, passes[0].now, passes[0].drains);
      var d := Drain(watermark, floor, passes[0].now, passes[0].drains);
      var r := Passes(d.0, floor, passes[1..]);
      (r.0, d.1 + r.1)
  }

  lemma SeenAppend(a: seq<Span>, b: seq<Span>, t: int)
    requires Seen(a, t) || Seen(b, t)
    ensures Seen(a + b, t)
  {
    if Seen(a, t) {
      var i :| 0 <= i < |a| && a[i].lo <= t <= a[i].hi;
      assert (a + b)[i] == a[i];
    } else {
      var i :| 0 <= i < |b| && b[i].lo <= t <= b[i].hi;
      assert (a + b)[|a| + i] == b[i];
    }
  }

  /** Over any run of passes, whatever reads fail in between, the drained windows cover
      everything from the starting watermark to the one reached. */
  lemma {:induction false} NoHoleEver(watermark: int, floor: int, passes: seq<Pass>)
    requires 0 <= floor <= watermark
    ensures var r := Passes(watermark, floor, passes);
            watermark <= r.0 && (forall t :: watermark <= t < r.0 ==> Seen(r.1, t))
            && (r.0 > watermark ==> Seen(r.1, r.0))
    decreases |passes|
  {
    if passes == [] {
    } else {
      hide Drain;
      DrainLeavesNoHole(watermark, floor, passes[0].now, passes[0].drains);
      var d := Drain(watermark, floor, passes[0].now, passes[0].drains);
      NoHoleEver(d.0, floor, passes[1..]);
      var r := Passes(d.0, floor, passes[1..]);
      forall t | watermark <= t <= r.0 && (t < r.0 || r.0 > watermark)
        ensures Seen(d.1 + r.1, t)
      {
        SeenAppend(d.1, r.1, t);
      }
    }
  }

  /** A pass whose every window reads ends at `now`. */
  lemma {:induction false} AllReadReachesNow(watermark: int, floor: int, now: int, drains: Span -> bool)
    requires 0 <= floor <= watermark && forall span :: drains(span)
    ensures Drain(watermark, floor, now, drains).0 == Max(watermark, now)
    decreases now - watermark
  {
    if watermark < now {
      AllReadReachesNow(NextSpan(watermark, floor, now).hi, floor, now, drains);
    }
  }

  /** One window of a pass. */
  lemma DrainStep(watermark: int, floor: int, now: int, drains: Span -> bool)
    requires 0 <= floor <= watermark
    ensures var span := NextSpan(watermark, floor, now);
            var r := Drain(watermark, floor, now, drains);
            if watermark >= now || !drains(span) then r == (watermark, [])
            else floor <= span.hi && watermark < span.hi
                 && r == (Drain(span.hi, floor, now, drains).0, [span] + Drain(span.hi, floor, now, drains).1)
  {
  }

  /** The cursor of the execution history: in memory, persisted now and then, floored at the
      adoption; `streamOpened` holds the ledgers back until an outage was re-read. */
  class ExecutionCursor {
    var watermark: Option<int>
    var floor: int
    var persisted: int
    var streamOpened: Option<int>

    predicate Valid()
      reads this
    {
      && 0 <= floor
      && (if watermark.Some? then floor <= watermark.value && persisted <= watermark.value else persisted == 0)
    }

    /** The persisted watermark lags the one in memory by less than the overlap. */
    predicate PersistLags()
      reads this
    {
      watermark.Some? ==> persisted <= watermark.value < persisted + OVERLAP_MS
    }

    constructor (floor: int, streamOpened: Option<int>)
      requires floor >= 0
      ensures Valid() && watermark == None && persisted == 0
      ensures this.floor == floor && this.streamOpened == streamOpened
    {
      watermark, persisted := None, 0;
      this.floor, this.streamOpened := floor, streamOpened;
    }

    /** One pass, resumed from memory, or else from the store, never below the adoption floor. */
    method Pass(now: int, saved: Option<int>, drains: Span -> bool) returns (spans: seq<Span>)
      requires Valid()
      modifies this
      ensures Valid() && floor == old(floor)
      ensures var start := Max(floor, if old(watermark).Some? then old(watermark).value
                                      else if saved.Some? then saved.value else floor);
              var r := Drain(start, floor, now, drains);
              watermark == Some(r.0) && spans == r.1
      ensures spans != [] ==> PersistLags()
      ensures streamOpened == if old(streamOpened).Some? && watermark.value >= now
                                 && now >= old(streamOpened).value + OVERLAP_MS
                              then None else old(streamOpened)
    {
      hide Drain, NextSpan;
      var mark := if watermark.Some? then watermark.value else if saved.Some? then saved.value else floor;
      if watermark.None? && saved.Some? {
        persisted := mark;
      }
      if mark < floor {
        mark := floor;
      }
      watermark := Some(mark);
      spans := [];
      ghost var whole := Drain(mark, floor, now, drains);
      assert [] + whole.1 == whole.1;
      while mark < now
        invariant floor <= mark && watermark == Some(mark)
        invariant persisted <= mark
        invariant spans != [] ==> mark < persisted + OVERLAP_MS
        invariant var r := Drain(mark, floor, now, drains);
                  r.0 == whole.0 && spans + r.1 == whole.1
        modifies this`watermark, this`persisted
        decreases now - mark
      {
        DrainStep(mark, floor, now, drains);
        var span := NextSpan(mark, floor, now);
        if !drains(span) {
          break;
        }
        ghost var r := Drain(span.hi, floor, now, drains);
        assert spans + ([span] + r.1) == (spans + [span]) + r.1;
        mark := span.hi;
        watermark := Some(mark);
        spans := spans + [span];
        if mark - persisted >= OVERLAP_MS {
          persisted := mark;
        }
      }
      DrainStep(mark, floor, now, drains);
      assert spans + [] == spans;
      if mark >= now && streamOpened.Some? && now >= streamOpened.value + OVERLAP_MS {
        streamOpened := None;
      }
    }
  }
}

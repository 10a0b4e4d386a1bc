// The position ledger as the program keeps it: one object whose methods update
// its fields in place. Each method is tied to what LegBook says the operation
// makes of the whole state; the modules beside it prove what that means.

module LegLedgers {
  import opened Common
  import opened LegTypes
  import opened LegBook
  import opened LegFold

  /** Drawing leaves a processed head alone. */
  lemma DrawCons(credits: seq<Credit>, at: int, quantity: int, dir: int)
    requires credits != [] && quantity > 0
    ensures var part := if Eligible(credits[0], at, dir) then Min(credits[0].qty, quantity) else 0;
            var r := Draw(credits[1..], at, quantity - part, dir);
            Draw(credits, at, quantity, dir)
            == ([credits[0].(qty := credits[0].qty - part)] + r.0, part + r.1)
  {
  }

  lemma DrawDone(credits: seq<Credit>, at: int, quantity: int, dir: int)
    requires credits == [] || quantity <= 0
    ensures Draw(credits, at, quantity, dir) == (credits, 0)
  {
  }

  /** One round of the judging loop. */
  lemma JudgeRound(b: Book, now: int, grace: int, known: set<int>, provable: bool)
    requires b.cursor.Some?
    ensures var later := Later(b.views, b.cursor.value);
            var target := if provable && later != [] then Target(b, later, known) else None;
            var since := if b.gapSince.None? then now else b.gapSince.value;
            var r := Judge(b, now, grace, known, provable);
            if later == [] then r == (b.(gapSince := None), [])
            else if target.Some? then
              var w := Walk(b.(gapSince := None), target.value, true);
              var next := Judge(w.0, now, grace, known, provable);
              |Later(w.0.views, w.0.cursor.value)| < |later| && r == (next.0, w.1 + next.1)
            else if now - since < grace then r == (b.(gapSince := Some(since)), [])
            else
              var g := GiveUp(b.(gapSince := None), later[0]);
              var next := Judge(g.0, now, grace, known, provable);
              |Later(g.0.views, g.0.cursor.value)| < |later| && r == (next.0, g.1 + next.1)
  {
    var later := Later(b.views, b.cursor.value);
    if later == [] {
    } else {
      LaterAtLeast(b.views, b.cursor.value, later[0].at);
      var target := if provable then Target(b, later, known) else None;
      if target.Some? {
        LaterAtLeast(b.views, b.cursor.value, target.value.at);
      }
    }
  }

  /** What judging the gaps from position `i` on still yields once gap `i` was re-walked. */
  ghost function SettleRound(c: Core, known: set<int>, i: nat): (Core, seq<Outcome>)
    requires i < |c.gaps| && Complete(c.gaps[i], known)
  {
    if Guessed(Rewalk(c.gaps[i]))
    then SettleFrom(c.(gaps := c.gaps[i := c.gaps[i].(settled := true)]), known, i + 1)
    else
      var rest := c.gaps[..i] + c.gaps[i + 1..];
      SettleFrom(CapDoubt(c.(gaps := rest, doubt := Min(c.doubt, GapDoubt(rest)))), known, i)
  }

  class LegLedger {
    var views: seq<View>
    var events: seq<LegEvent>
    var cursor: Option<int>
    var anchor: Option<int>
    var leg: int
    var gapSince: Option<int>
    var latestViewSeq: int
    var newestView: Option<(View, int)>
    var blindSeq: Option<int>
    // share, journal, doubt, credits, room, gaps and what is still to net
    var core: Core

    function State(): Book
      reads this
    {
      Book(views, events, cursor, anchor, leg, gapSince, latestViewSeq, newestView, blindSeq, core)
    }

    constructor ()
      ensures State() == Book([], [], None, None, 0, None, 0, None, None,
                              Core(0, 0, 0, 0, [], map[], [], map[]))
    {
      views, events, cursor, anchor, leg := [], [], None, None, 0;
      gapSince, latestViewSeq, newestView, blindSeq := None, 0, None, None;
      core := Core(0, 0, 0, 0, [], map[], [], map[]);
    }

    /** A ledger standing at a gap's start, its executions restated. */
    constructor AtGap(g: LegGap)
      requires g.startSeq.Some?
      ensures State() == Scratch(g)
    {
      views, events, cursor, anchor, leg := [], Restated(g.events), g.startSeq, None, g.startLeg;
      gapSince, latestViewSeq, newestView, blindSeq := None, 0, None, None;
      core := Core(g.startShare, g.startJournal, g.startDoubt, 0, [], map[], [], map[]);
    }

    method RecordView(at: int, size: int, updated: Option<int>)
      modifies this
      ensures State() == AddView(old(State()), at, size, updated)
    {
      latestViewSeq := Max(latestViewSeq, at);
      if newestView.Some? && updated.Some? && at > newestView.value.0.at
         && size == newestView.value.0.size && updated.value == newestView.value.1 {
        return;
      }
      if newestView.None? || at >= newestView.value.0.at {
        newestView := if updated.None? then None else Some((View(at, size), updated.value));
      }
      if cursor.Some? && at <= cursor.value {
        return;
      }
      views := DropAt(views, at);
      views := SortViews(views + [View(at, size)]);
      views := NewestViews(views);
    }

    method RecordEvent(e: LegEvent) returns (ok: bool)
      modifies this`events
      ensures ok == Beyond(old(State()), e.at)
      ensures State() == AddEvent(old(State()), e)
    {
      if cursor.Some? && e.at <= cursor.value {
        return false;
      }
      events := Put(events, e);
      if |events| > MAX_EVENTS {
        var i := OldestIndex(events);
        events := events[..i] + events[i + 1..];
      }
      return true;
    }

    method KeepGap(gap: LegGap)
      modifies this`core
      ensures core == AddGap(old(core), gap)
    {
      var gaps := core.gaps + [gap];
      while |gaps| > MAX_GAPS
        invariant MergeGaps(gaps) == MergeGaps(old(core).gaps + [gap])
        modifies {}
        decreases |gaps|
      {
        var oldest, next := gaps[0], gaps[1];
        gaps := [Merged(oldest, next)] + gaps[2..];
      }
      core := core.(gaps := gaps);
    }

    method Begin(journalShare: int) returns (r: Option<Outcome>)
      modifies this
      ensures (State(), r) == Start(old(State()), journalShare)
    {
      hide OwnBeyond, EventsBeyond, NoteRoom, Capped, ClampAtStart;
      if views == [] {
        return None;
      }
      var v := views[|views| - 1];
      var before := journalShare - OwnBeyond(events, v.at);
      cursor, anchor, leg := Some(v.at), Some(v.at), v.size;
      views := [v];
      events := EventsBeyond(events, v.at);
      blindSeq := Some(v.at);
      core := NoteRoom(core.(share := Capped(before, v.size), journal := before, doubt := 0,
                             gaps := [], room := map[]), v.size);
      var clamped := Abs(before) - Abs(core.share);
      if clamped <= 0 {
        return None;
      }
      var dir := Direction(before);
      NetToStart(v, clamped, dir);
      return Some(Outcome(None, clamped, false, Abs(before), Max(Along(v.size, dir), 0), v.at,
                          0, core.doubt, 0, false));
    }

    /** The journal netted down to the view the ledger starts on, the rest held in doubt. */
    method NetToStart(v: View, clamped: int, dir: int)
      modifies this`core
      ensures core == ClampAtStart(old(core), v, clamped, dir)
    {
      hide AddDoubt, TakeJournal, AddCredit, AddGap;
      core := AddDoubt(TakeJournal(core, clamped, dir), v.at, Abs(core.share));
      core := AddCredit(core, v.at, clamped, dir);
      if core.doubt != 0 {
        KeepGap(LegGap(None, v.at, v.size, v.size, core.share, core.journal, 0, [], {}, core.doubt, false));
      }
    }

    method TakeJournalShare(journalShare: int)
      modifies this`core
      ensures State() == SyncJournal(old(State()), journalShare)
    {
      if cursor.None? {
        return;
      }
      var journal := journalShare - OwnBeyond(events, cursor.value);
      core := CapDoubt(core.(journal := journal, share := Bounded(core.share, journal)));
    }

    method BookLateOwn(e: LegEvent) returns (r: Option<Outcome>)
      requires cursor.Some? && blindSeq.Some?
      modifies this`core
      ensures (core, r) == LateCore(old(core), leg, cursor.value, blindSeq.value, e)
    {
      hide LateResolve, LateShrink, LateDoubt, CapDoubt, ShareMove, Bounded, AddCredit, TakeJournal;
      var before := core.share;
      var oldSide := Direction(before);
      core := core.(journal := core.journal + e.share);
      var wanted := Bounded(before + e.share, core.journal);
      var newSide := Direction(wanted);
      var move := ShareMove(before, wanted);
      core := LateShrink(core, oldSide, move.0, e.at <= blindSeq.value);
      core := LateResolve(core, e);
      var kept, gone := 0, 0;
      if move.1 > 0 {
        kept := Min(move.1, Max(Get(core.room, newSide), 0));
        gone := move.1 - kept;
        core := core.(room := core.room[newSide := Get(core.room, newSide) - kept]);
        core := AddCredit(TakeJournal(core, gone, newSide), cursor.value, gone, newSide);
      }
      core := core.(share := before - Along(move.0, oldSide) + Along(kept, newSide));
      core := LateDoubt(core, leg, cursor.value, blindSeq.value, e, kept);
      core := CapDoubt(core);
      if gone <= 0 {
        return None;
      }
      return Some(Outcome(Some(e), gone, false, Abs(wanted), Max(Along(leg, newSide), 0), e.at,
                          0, 0, 0, false));
    }

    method JoinLateForeign(e: LegEvent) returns (ok: bool)
      modifies this`core
      ensures (State(), ok) == LateForeign(old(State()), e)
    {
      var i := GapOf(core.gaps, e.at);
      if i.None? || core.gaps[i.value].startSeq.None? {
        return false;
      }
      core := core.(gaps := core.gaps[i.value := JoinGap(core.gaps[i.value], e)]);
      return true;
    }

    /** Pass on the verdicts not netted yet and forget them. */
    method HandOver() returns (taken: map<int, int>)
      modifies this`core
      ensures taken == old(core).toNet && core == old(core).(toNet := map[])
    {
      taken := core.toNet;
      core := core.(toNet := map[]);
    }

    method ReadCredit(at: int, dir: int) returns (total: int)
      ensures total == OpenCredit(core.credits, at, dir)
    {
      total := 0;
      for i := 0 to |core.credits|
        invariant total + OpenCredit(core.credits[i..], at, dir) == OpenCredit(core.credits, at, dir)
      {
        if Eligible(core.credits[i], at, dir) {
          total := total + core.credits[i].qty;
        }
        assert core.credits[i..][1..] == core.credits[i + 1..];
      }
    }

    method DrawCredit(at: int, quantity: int, dir: int) returns (taken: int)
      modifies this`core
      ensures var r := TakeCredit(old(core).credits, at, quantity, dir);
              taken == r.1 && core == old(core).(credits := r.0)
    {
      hide Draw;
      taken := 0;
      var credits := core.credits;
      var i := 0;
      assert credits[0..] == credits && credits[..0] == [];
      ghost var all := Draw(credits, at, quantity, dir);
      assert all.0 == [] + all.0;
      while i < |credits| && quantity - taken > 0
        invariant 0 <= i <= |credits|
        invariant var r := Draw(credits[i..], at, quantity - taken, dir);
                  all.0 == credits[..i] + r.0 && all.1 == taken + r.1
        modifies {}
        decreases |credits| - i
      {
        DrawCons(credits[i..], at, quantity - taken, dir);
        ghost var rest := credits[i + 1..];
        assert credits[i..][1..] == rest;
        ghost var done := credits[..i];
        var part := if Eligible(credits[i], at, dir) then Min(credits[i].qty, quantity - taken) else 0;
        credits := credits[i := credits[i].(qty := credits[i].qty - part)];
        taken := taken + part;
        i := i + 1;
        assert credits[..i] == done + [credits[i - 1]] && credits[i..] == rest;
      }
      DrawDone(credits[i..], at, quantity - taken, dir);
      assert credits == credits[..i] + credits[i..];
      core := core.(credits := Positive(credits));
    }

    method WalkTo(view: View, proven: bool) returns (outs: seq<Outcome>)
      requires cursor.Some?
      modifies this
      ensures (State(), outs) == Walk(old(State()), view, proven)
    {
      hide StepOf, WalkEvents, Capped, CapDoubt, NoteRoom, Outside, AtLeast, Between, SortDue;
      var due := SortDue(Between(events, cursor.value, view.at), Direction(core.share));
      var c, at := core, leg;
      outs := [];
      for i := 0 to |due|
        invariant var r := WalkEvents(c, at, due[i..], proven);
                  WalkEvents(core, leg, due, proven) == Walked(r.core, r.leg, outs + r.outs)
        modifies {}
      {
        WalkFirst(c, at, due[i..], proven);
        assert due[i..][1..] == due[i + 1..];
        var s := StepOf(c, at, due[i], proven);
        ghost var r := WalkEvents(s.core, s.leg, due[i + 1..], proven);
        assert outs + (s.outs + r.outs) == (outs + s.outs) + r.outs;
        c, at, outs := s.core, s.leg, outs + s.outs;
      }
      WalkNone(c, at, proven);
      assert due[|due|..] == [] && outs + [] == outs;
      assert WalkEvents(core, leg, due, proven) == Walked(c, at, outs);
      core := CapDoubt(c.(share := if proven then Capped(c.share, view.size) else c.share));
      if proven {
        core := NoteRoom(core, view.size);
      }
      events := Outside(events, cursor.value, view.at);
      cursor, leg := Some(view.at), view.size;
      views := AtLeast(views, view.at);
    }

    method Abandon(first: View) returns (outs: seq<Outcome>)
      requires cursor.Some?
      modifies this
      ensures (State(), outs) == GiveUp(old(State()), first)
    {
      hide Walk, TakeJournal, AddCredit, AddDoubt, AddGap, NoteRoom, OpenedGap, ExpectedLeg;
      var gap := OpenedGap(State(), first);
      var unexplained := first.size - ExpectedLeg(State(), first.at);
      outs := WalkTo(first, false);
      var dir := Direction(core.share);
      var before := Abs(core.share);
      var clamped := Excess(core.share, first.size);
      if clamped > 0 {
        core := TakeJournal(core.(share := Along(Max(Along(first.size, dir), 0), dir)), clamped, dir);
      }
      core := AddCredit(core, first.at, clamped, dir);
      core := AddDoubt(core, first.at, Abs(core.share));
      if Abs(core.share) > 0 {
        KeepGap(gap.(doubt := Abs(core.share)));
      }
      core := NoteRoom(core.(room := map[]), first.size);
      blindSeq := Some(first.at);
      outs := outs + [Outcome(None, clamped, false, before, Along(first.size, dir), first.at,
                              unexplained, Abs(core.share), 0, false)];
    }

    method Resettle(known: set<int>) returns (outs: seq<Outcome>)
      modifies this`core
      ensures (State(), outs) == SettleGaps(old(State()), known)
    {
      hide Walk, CapDoubt, GapDoubt, Guessed, Settled;
      outs := [];
      var i := 0;
      while i < |core.gaps|
        invariant var r := SettleFrom(core, known, i);
                  var whole := SettleFrom(old(core), known, 0);
                  whole.0 == r.0 && whole.1 == outs + r.1
        decreases |core.gaps| - i
      {
        var g := core.gaps[i];
        if g.settled || !Complete(g, known) {
          i := i + 1;
        } else {
          var scratch := new LegLedger.AtGap(g);
          var walked := scratch.WalkTo(View(g.endSeq, g.endLeg), true);
          ghost var r := SettleRound(core, known, i);
          assert outs + (Settled(walked) + r.1) == (outs + Settled(walked)) + r.1;
          outs := outs + Settled(walked);
          if Guessed(walked) {
            core := core.(gaps := core.gaps[i := g.(settled := true)]);
            i := i + 1;
          } else {
            var rest := core.gaps[..i] + core.gaps[i + 1..];
            core := CapDoubt(core.(gaps := rest, doubt := Min(core.doubt, GapDoubt(rest))));
          }
        }
      }
      assert outs + [] == outs;
    }

    method AdvanceTo(now: int, grace: int, known: set<int>, provable: bool) returns (outs: seq<Outcome>)
      modifies this
      ensures (State(), outs) == Advance(old(State()), now, grace, known, provable)
    {
      hide SettleGaps, Judge, Walk, GiveUp, Target, Later;
      outs := [];
      if cursor.None? {
        return;
      }
      if provable {
        outs := Resettle(known);
      }
      ghost var settled := outs;
      ghost var whole := Judge(State(), now, grace, known, provable);
      while true
        invariant cursor.Some?
        invariant var r := Judge(State(), now, grace, known, provable);
                  r.0 == whole.0 && settled + whole.1 == outs + r.1
        decreases |Later(views, cursor.value)|
      {
        JudgeRound(State(), now, grace, known, provable);
        var later := Later(views, cursor.value);
        assert outs + [] == outs;
        if later == [] {
          gapSince := None;
          return;
        }
        var target := if provable then Target(State(), later, known) else None;
        if target.Some? {
          gapSince := None;
          var walked := WalkTo(target.value, true);
          ghost var r := Judge(State(), now, grace, known, provable);
          assert outs + (walked + r.1) == (outs + walked) + r.1;
          outs := outs + walked;
          continue;
        }
        if gapSince.None? {
          gapSince := Some(now);
        }
        if now - gapSince.value < grace {
          return;
        }
        gapSince := None;
        var given := Abandon(later[0]);
        ghost var r := Judge(State(), now, grace, known, provable);
        assert outs + (given + r.1) == (outs + given) + r.1;
        outs := outs + given;
      }
    }
  }
}

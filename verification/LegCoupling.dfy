// The ledger and the entry rows of a leg over whole runs: what the rows own is what the
// ledger's journal and its executions beyond the cursor say, after every step.

module LegCoupling {
  import opened Common
  import opened LegTypes
  import opened LegInvariant
  import opened LegRuns
  import opened EntryRows
  import opened EntryStores

  /** One step of the program: something the ledger learns, an own execution the rows
      booked (`after`), or a judgement. */
  datatype Move =
    | Learns(op: Op)
    | Books(own: LegEvent, after: Rows)
    | Judges(now: int, grace: int, known: set<int>, provable: bool)

  /** `hedge` is the side of a hedge leg; a one-way leg holds both sides' rows, signed. */
  datatype System = System(ledger: Book, ids: seq<string>, rows: Rows, hedge: Option<Side>)

  /** The journal share the rows hold, in the frame of the leg. */
  function Journal(s: System): int
    requires forall id :: id in s.ids ==> id in s.rows
  {
    JournalOf(s.ids, s.rows, s.hedge)
  }

  function JournalOf(ids: seq<string>, rows: Rows, hedge: Option<Side>): int
    requires forall id :: id in ids ==> id in rows
  {
    match hedge
    case None => Signed(ids, rows)
    case Some(side) => Owned(ids, rows, RunOwned, side)
  }

  /** The journal share the rows must hold. */
  function Target(b: Book): int {
    b.core.journal + OwnShares(b.events)
  }

  /** Hand the verdicts over and net the rows for them. */
  function Sync(s: System): (r: System)
    requires Listed(s.ids, s.rows)
    ensures r.ids == s.ids && Listed(r.ids, r.rows) && r.ledger.cursor == s.ledger.cursor && r.hedge == s.hedge
  {
    var taken := s.ledger.core.toNet;
    s.(ledger := s.ledger.(core := s.ledger.core.(toNet := map[])),
       rows := match s.hedge
               case None =>
                 SyncOneWay(s.ids, s.rows, Target(s.ledger), LegBook.Get(taken, 1), LegBook.Get(taken, -1))
               case Some(side) => SyncHedge(s.ids, s.rows, side, Target(s.ledger)))
  }

  /** The re-sync can bring the rows onto the ledger's journal. */
  predicate Reaches(s: System)
    requires forall id :: id in s.ids ==> id in s.rows
  {
    var taken := s.ledger.core.toNet;
    match s.hedge
    case None => OneWayReaches(s.ids, s.rows, LegBook.Get(taken, 1), LegBook.Get(taken, -1))
    case Some(side) => 0 <= Target(s.ledger) && LegBook.Get(taken, -1) <= LegBook.Get(taken, 1)
  }

  /** The rows hold what the ledger says, verdicts not netted yet included. */
  ghost predicate Balanced(s: System) {
    && Inv(s.ledger) && Listed(s.ids, s.rows)
    && (s.ledger.cursor.Some? ==> Owed(s.ledger) == Journal(s))
  }

  /** Nothing is left to net: the rows and the ledger agree. */
  ghost predicate Agree(s: System) {
    && Balanced(s) && LegBook.Get(s.ledger.core.toNet, 1) == 0 && LegBook.Get(s.ledger.core.toNet, -1) == 0
    && (s.ledger.cursor.Some? ==> Journal(s) == Target(s.ledger))
  }

  lemma NetNonneg(b: Book)
    requires Inv(b)
    ensures LegBook.Get(b.core.toNet, 1) >= 0 && LegBook.Get(b.core.toNet, -1) >= 0
  {
  }

  /** Syncing balanced rows makes them agree with the ledger if and only if it can reach them. */
  lemma SyncAgrees(s: System)
    requires Balanced(s) && s.ledger.cursor.Some?
    ensures Agree(Sync(s)) <==> Reaches(s)
    ensures Sync(s).ledger.cursor.Some?
  {
    hide Listed, SyncOneWay, SyncHedge, Signed, Owned, CoreInv, Placed, OwnShares, OneWayReaches;
    NetNonneg(s.ledger);
    match s.hedge {
      case None =>
        SyncOneWayReaches(s.ids, s.rows, Target(s.ledger), LegBook.Get(s.ledger.core.toNet, 1),
                          LegBook.Get(s.ledger.core.toNet, -1));
      case Some(side) =>
        SyncHedgeReaches(s.ids, s.rows, side, Target(s.ledger));
    }
    HandedOver(s.ledger);
  }

  lemma HandedOver(b: Book)
    requires Inv(b)
    ensures Inv(b.(core := b.core.(toNet := map[])))
  {
  }

  /** Judging re-syncs the journal to the rows and keeps the balance. */
  function Judged(s: System, m: Move): (System, seq<Outcome>)
    requires m.Judges? && Listed(s.ids, s.rows) && s.ledger.cursor.Some?
  {
    var r := JudgeOp(s.ledger, Journal(s), m.now, m.grace, m.known, m.provable);
    (s.(ledger := r.0), r.1)
  }

  lemma JudgedBalanced(s: System, m: Move)
    requires m.Judges? && Agree(s) && s.ledger.cursor.Some?
    ensures var r := Judged(s, m);
            && Balanced(r.0) && r.0.ledger.cursor.Some?
            && NetTotal(r.0.ledger.core) == Taken(r.1)
  {
    hide Listed, JudgeOp, Signed, CoreInv, Placed, OwnShares, Taken;
    var share := Journal(s);
    JudgeConserves(s.ledger, share, m.now, m.grace, m.known, m.provable);
    ApplyInv(s.ledger, Judging(share, m.now, m.grace, m.known, m.provable));
    StaysStarted(s.ledger, share, m);
  }

  lemma StaysStarted(b: Book, share: int, m: Move)
    requires Inv(b) && b.cursor.Some? && m.Judges?
    ensures JudgeOp(b, share, m.now, m.grace, m.known, m.provable).0.cursor.Some?
  {
    hide LegBook.Advance, CoreInv, Placed;
    SyncInv(b, share);
    AdvanceInv(LegBook.SyncJournal(b, share), m.now, m.grace, m.known, m.provable);
  }

  /** A judgement that reports nothing took nothing: the rows already agree. */
  lemma QuietAgrees(s: System, outs: seq<Outcome>)
    requires Balanced(s) && s.ledger.cursor.Some? && outs == []
    requires NetTotal(s.ledger.core) == Taken(outs)
    ensures Agree(s)
  {
  }

  /** Re-reading agreeing rows moves neither the journal nor the share. */
  lemma AgreeingSyncIsIdle(s: System)
    requires Agree(s) && s.ledger.cursor.Some?
    ensures var r := LegBook.SyncJournal(s.ledger, Journal(s)).core;
            r.journal == s.ledger.core.journal && r.share == s.ledger.core.share
  {
    hide Listed, JournalOf, Placed, OwnShares, LegBook.CapDoubt;
    assert forall e :: e in s.ledger.events ==> e.at > s.ledger.cursor.value by { EventsAhead(s.ledger); }
    OwnAllBeyond(s.ledger.events, s.ledger.cursor.value);
  }

  lemma EventsAhead(b: Book)
    requires Placed(b) && b.cursor.Some?
    ensures forall e :: e in b.events ==> e.at > b.cursor.value
  {
  }

  // ---- Whole runs ------------------------------------------------------------------------------

  /** What an operation may bring: a foreign execution, once; an own one as its booking says. */
  ghost predicate Fits(s: System, m: Move)
    requires Listed(s.ids, s.rows)
  {
    match m
    case Learns(op) => !op.Own? && !op.Net? && !op.Judging?
                       && (op.Other? ==> !op.other.own && Fresh(s.ledger, op.other))
    case Books(e, after) => e.own && Fresh(s.ledger, e) && Listed(s.ids, after)
                            && JournalOf(s.ids, after, s.hedge) == Journal(s) + e.share
    case Judges(_, _, _, _) => true
  }

  /** The step, and whether each sync in it can reach the rows. */
  ghost function Step(s: System, m: Move): (System, bool)
    requires Agree(s) && Fits(s, m)
  {
    match m
    case Learns(op) => (s.(ledger := Apply(s.ledger, op).0), true)
    case Books(e, after) =>
      var r := OwnOp(s.ledger, e);
      var t := s.(ledger := r.0, rows := after);
      if r.1 == [] then (t, true) else (Sync(t), Reaches(t))
    case Judges(now, grace, known, provable) =>
      if s.ledger.cursor.Some? then
        var r := Judged(s, m);
        if r.1 == [] then (r.0, true) else (Sync(r.0), Reaches(r.0))
      else
        var a := LegBook.Start(s.ledger, Journal(s));
        var t := s.(ledger := a.0);
        var u := if a.1.None? then t else Sync(t);
        var r := LegBook.Advance(u.ledger, now, grace, known, provable);
        var w := u.(ledger := r.0);
        if a.1.None? && r.1 == [] then (w, true)
        else
          (Sync(w), (a.1.Some? ==> Reaches(t)) && Reaches(w))
  }

  lemma LearnsAgrees(s: System, m: Move)
    requires Agree(s) && Fits(s, m) && m.Learns?
    ensures Agree(Step(s, m).0) && Step(s, m).1
  {
    hide Listed, JournalOf, CoreInv, Placed, OwnShares, LegBook.AddView, OtherOp, ReduceOp, Fresh, Taken;
    ApplyInv(s.ledger, m.op);
    ApplyConserves(s.ledger, m.op);
    match m.op
    case Push(at, size, updated) => ViewOnly(s.ledger, at, size, updated);
    case Other(e) => OtherOnly(s.ledger, e);
    case Reduce(at, quantity, dir) => ReduceOnly(s.ledger, at, quantity, dir);
  }

  lemma OtherOnly(b: Book, e: LegEvent)
    ensures var r := OtherOp(b, e).0;
            r.cursor == b.cursor && r.core == b.core.(gaps := r.core.gaps)
  {
  }

  lemma ReduceOnly(b: Book, at: int, quantity: int, dir: int)
    ensures var r := ReduceOp(b, at, quantity, dir);
            r == b.(core := b.core.(credits := r.core.credits))
  {
  }

  lemma BooksAgrees(s: System, m: Move)
    requires Agree(s) && Fits(s, m) && m.Books?
    ensures Agree(Step(s, m).0) <==> Step(s, m).1
  {
    hide Listed, JournalOf, CoreInv, Placed, OwnShares, OwnOp, Taken, Fresh, Reaches, Sync;
    ApplyInv(s.ledger, Own(m.own));
    OwnConserves(s.ledger, m.own);
    TakenNone();
    OwnCursor(s.ledger, m.own);
    var r := OwnOp(s.ledger, m.own);
    var t := s.(ledger := r.0, rows := m.after);
    if s.ledger.cursor.Some? {
      if r.1 == [] {
        QuietAgrees(t, r.1);
      } else {
        SyncAgrees(t);
      }
    } else {
      assert r.1 == [] && r.0.core == s.ledger.core;
    }
  }

  lemma OwnCursor(b: Book, e: LegEvent)
    requires b.cursor.Some? ==> b.blindSeq.Some?
    ensures var r := OwnOp(b, e);
            r.0.cursor == b.cursor && (b.cursor.None? ==> r.1 == [] && r.0.core == b.core)
  {
  }

  lemma JudgesAgrees(s: System, m: Move)
    requires Agree(s) && m.Judges? && s.ledger.cursor.Some?
    ensures Agree(Step(s, m).0) <==> Step(s, m).1
  {
    hide Listed, JournalOf, Judged, Sync, Reaches, Taken, CoreInv, Placed, OwnShares;
    JudgedBalanced(s, m);
    var r := Judged(s, m);
    if r.1 == [] {
      QuietAgrees(r.0, r.1);
    } else {
      SyncAgrees(r.0);
    }
  }

  lemma StartAgrees(s: System, m: Move)
    requires Agree(s) && m.Judges? && Step(s, m).1 && s.ledger.cursor.None?
    ensures Agree(Step(s, m).0)
  {
    hide Listed, JournalOf, Sync, Reaches, Taken, CoreInv, Placed, OwnShares, LegBook.Start, LegBook.Advance;
    var share := Journal(s);
    TakenNone();
    StartInv(s.ledger, share);
    var a := LegBook.Start(s.ledger, share);
    var t := s.(ledger := a.0);
    assert Balanced(t);
    if s.ledger.views == [] {
      NoStart(s.ledger, share, m.now, m.grace, m.known, m.provable);
    } else {
      Starts(s.ledger, share);
      if a.1.Some? {
        SyncAgrees(t);
        AdvanceAgrees(Sync(t), m);
      } else {
        QuietAgrees(t, []);
        AdvanceAgrees(t, m);
      }
    }
  }

  /** Advancing an agreeing system and, when it reported anything, syncing it. */
  lemma AdvanceAgrees(s: System, m: Move)
    requires Agree(s) && m.Judges? && s.ledger.cursor.Some?
    ensures var r := LegBook.Advance(s.ledger, m.now, m.grace, m.known, m.provable);
            var w := s.(ledger := r.0);
            && Balanced(w) && (Reaches(w) ==> Agree(Sync(w))) && (r.1 == [] ==> Agree(w))
  {
    hide Listed, JournalOf, Sync, Taken, CoreInv, Placed, OwnShares, LegBook.Advance;
    AdvanceInv(s.ledger, m.now, m.grace, m.known, m.provable);
    var r := LegBook.Advance(s.ledger, m.now, m.grace, m.known, m.provable);
    var w := s.(ledger := r.0);
    if Reaches(w) {
      SyncAgrees(w);
    }
    if r.1 == [] {
      QuietAgrees(w, r.1);
    }
  }

  /** A step keeps the agreement when each sync in it can reach the rows, and, of a ledger that
      was started, only then. */
  lemma StepAgrees(s: System, m: Move)
    requires Agree(s) && Fits(s, m)
    ensures Step(s, m).1 ==> Agree(Step(s, m).0)
    ensures s.ledger.cursor.Some? && Agree(Step(s, m).0) ==> Step(s, m).1
  {
    hide Agree, Fits, Step;
    match m
    case Learns(_) => LearnsAgrees(s, m);
    case Books(_, _) => BooksAgrees(s, m);
    case Judges(_, _, _, _) =>
      if s.ledger.cursor.Some? {
        JudgesAgrees(s, m);
      } else if Step(s, m).1 {
        StartAgrees(s, m);
      }
  }

  /** A run every step of which fits and can reach the rows. */
  ghost predicate Runs(s: System, moves: seq<Move>)
    requires Agree(s)
    decreases |moves|
  {
    moves == []
    || (Fits(s, moves[0]) && Step(s, moves[0]).1
        && (StepAgrees(s, moves[0]); Runs(Step(s, moves[0]).0, moves[1..])))
  }

  ghost function After(s: System, moves: seq<Move>): System
    requires Agree(s) && Runs(s, moves)
    decreases |moves|
  {
    if moves == [] then s
    else
      StepAgrees(s, moves[0]);
      After(Step(s, moves[0]).0, moves[1..])
  }

  /** Over any run the rows own exactly what the ledger's journal and its executions
      beyond the cursor say. */
  lemma {:induction false} RunAgrees(s: System, moves: seq<Move>)
    requires Agree(s) && Runs(s, moves)
    ensures Agree(After(s, moves))
    decreases |moves|
  {
    hide Agree, Fits, Step;
    if moves == [] {
    } else {
      StepAgrees(s, moves[0]);
      RunAgrees(Step(s, moves[0]).0, moves[1..]);
    }
  }

  /** Every step fits and leaves the rows agreeing. */
  ghost predicate AgreesThroughout(s: System, moves: seq<Move>)
    requires Agree(s)
    decreases |moves|
  {
    moves == []
    || (Fits(s, moves[0]) && Agree(Step(s, moves[0]).0) && AgreesThroughout(Step(s, moves[0]).0, moves[1..]))
  }

  lemma StepStarted(s: System, m: Move)
    requires Agree(s) && Fits(s, m) && s.ledger.cursor.Some?
    ensures Step(s, m).0.ledger.cursor.Some?
  {
    hide Listed, JournalOf, CoreInv, Placed, OwnShares, LegBook.AddView, ReduceOp, Fresh, Taken;
    hide OwnOp, OtherOp, JudgeOp, Reaches;
    match m
    case Learns(op) =>
      ApplyInv(s.ledger, op);
      match op {
        case Push(at, size, updated) => ViewOnly(s.ledger, at, size, updated);
        case Other(e) => OtherOnly(s.ledger, e);
        case Reduce(at, quantity, dir) => ReduceOnly(s.ledger, at, quantity, dir);
      }
    case Books(e, after) =>
      ApplyInv(s.ledger, Own(e));
      OwnCursor(s.ledger, e);
    case Judges(_, _, _, _) =>
      StaysStarted(s.ledger, Journal(s), m);
  }

  lemma AgreeListed(s: System)
    requires Agree(s)
    ensures Listed(s.ids, s.rows)
  {
  }

  /** Of a started ledger, the rows agree throughout a run if and only if every sync in it can
      reach them. */
  lemma {:induction false} RunAgreesExactly(s: System, moves: seq<Move>)
    requires Agree(s) && s.ledger.cursor.Some?
    ensures AgreesThroughout(s, moves) <==> Runs(s, moves)
    decreases |moves|
  {
    hide Agree, Fits, Step;
    AgreeListed(s);
    if moves == [] {
    } else if Fits(s, moves[0]) {
      StepAgrees(s, moves[0]);
      if Step(s, moves[0]).1 {
        StepStarted(s, moves[0]);
        RunAgreesExactly(Step(s, moves[0]).0, moves[1..]);
      }
    }
  }
}

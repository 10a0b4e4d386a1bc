// The ledger over whole runs: what every reachable state keeps, whatever views,
// executions and judgements arrive and in whatever order.

module LegRuns {
  import opened Common
  import opened LegTypes
  import opened LegBook
  import opened LegFold
  import opened LegOrder
  import opened LegInvariant

  /** One step of the program around the ledger of one leg. */
  datatype Op =
    | Push(at: int, size: int, updated: Option<int>)
    | Own(own: LegEvent)
    | Other(other: LegEvent)
    | Reduce(seqNo: int, quantity: int, dir: int)
    | Net
    | Judging(journalShare: int, now: int, grace: int, known: set<int>, provable: bool)

  const EMPTY := Book([], [], None, None, 0, None, 0, None, None,
                      Core(0, 0, 0, 0, [], map[], [], map[]))

  function OwnOp(b: Book, e: LegEvent): (Book, seq<Outcome>)
    requires b.cursor.Some? ==> b.blindSeq.Some?
  {
    if Beyond(b, e.at) then (AddEvent(b, e), [])
    else
      var r := LateOwn(b, e);
      (r.0, if r.1.Some? then [r.1.value] else [])
  }

  function OtherOp(b: Book, e: LegEvent): (Book, seq<Outcome>) {
    if Beyond(b, e.at) then (AddEvent(b, e), [])
    else if b.anchor.Some? && e.at <= b.anchor.value then (b, [])
    else
      var r := LateForeign(b, e);
      if r.1 then (r.0, [])
      else (r.0, [Outcome(Some(e), 0, false, Abs(b.core.share), b.leg, e.at, 0, 0, 0, false)])
  }

  function ReduceOp(b: Book, at: int, quantity: int, dir: int): Book {
    if b.cursor.None? || at > b.cursor.value then b
    else b.(core := b.core.(credits := TakeCredit(b.core.credits, at, quantity, dir).0))
  }

  /** Start or re-sync on the journal share, then judge. */
  function JudgeOp(b: Book, journalShare: int, now: int, grace: int, known: set<int>, provable: bool)
    : (Book, seq<Outcome>)
  {
    if b.cursor.None? then
      var s := Start(b, journalShare);
      var r := Advance(s.0, now, grace, known, provable);
      (r.0, (if s.1.Some? then [s.1.value] else []) + r.1)
    else Advance(SyncJournal(b, journalShare), now, grace, known, provable)
  }

  function Apply(b: Book, op: Op): (Book, seq<Outcome>)
    requires b.cursor.Some? ==> b.blindSeq.Some?
  {
    match op
    case Push(at, size, updated) => (AddView(b, at, size, updated), [])
    case Own(e) => OwnOp(b, e)
    case Other(e) => OtherOp(b, e)
    case Reduce(at, quantity, dir) => (ReduceOp(b, at, quantity, dir), [])
    case Net => (b.(core := b.core.(toNet := map[])), [])
    case Judging(share, now, grace, known, provable) => JudgeOp(b, share, now, grace, known, provable)
  }

  // ---- The invariant of a reachable state -------------------------------------------------------

  predicate Ids(events: seq<LegEvent>) {
    forall i, j :: 0 <= i < j < |events| ==> events[i].execId != events[j].execId
  }

  /** Views in order, none behind the cursor; executions once each, all beyond it. */
  predicate Placed(b: Book) {
    && Increasing(b.views) && |b.views| <= MAX_VIEWS
    && Ids(b.events) && |b.events| <= MAX_EVENTS
    && (b.cursor.Some? ==>
          (forall v :: v in b.views ==> v.at >= b.cursor.value)
          && (forall e :: e in b.events ==> e.at > b.cursor.value))
  }

  predicate Inv(b: Book) {
    && Placed(b)
    && (if b.cursor.None? then b.core == EMPTY.core && b.blindSeq.None?
        else b.blindSeq.Some? && b.blindSeq.value <= b.cursor.value && CoreInv(b.core, b.leg))
  }

  // ---- Views and executions ---------------------------------------------------------------------

  lemma IncreasingTail(views: seq<View>)
    requires Increasing(views) && views != []
    ensures Increasing(views[1..]) && forall w :: w in views[1..] ==> views[0].at < w.at
  {
  }

  lemma IncreasingCons(v: View, views: seq<View>)
    requires Increasing(views) && forall w :: w in views ==> v.at < w.at
    ensures Increasing([v] + views)
  {
  }

  lemma InsertViewIncreasing(v: View, views: seq<View>)
    requires Increasing(views) && forall w :: w in views ==> w.at != v.at
    ensures Increasing(InsertView(v, views))
    ensures forall w :: w in InsertView(v, views) ==> w == v || w in views
  {
    hide Increasing;
    if views == [] {
      assert Increasing([v]) by { One(v); }
    } else {
      IncreasingTail(views);
      assert forall w :: w in views ==> w == views[0] || w in views[1..];
      if v.at < views[0].at {
        IncreasingCons(v, views);
      } else {
        InsertViewIncreasing(v, views[1..]);
        IncreasingCons(views[0], InsertView(v, views[1..]));
      }
    }
  }

  lemma One(v: View)
    ensures Increasing([v])
  {
  }

  lemma SortedViewsStay(views: seq<View>)
    requires Increasing(views)
    ensures SortViews(views) == views
  {
    if views == [] {
    } else {
      var init, last := views[..|views| - 1], views[|views| - 1];
      SortedViewsStay(init);
      AppendView(last, init);
      assert views == init + [last];
    }
  }

  lemma AppendView(v: View, views: seq<View>)
    requires forall w :: w in views ==> w.at <= v.at
    ensures InsertView(v, views) == views + [v]
  {
  }

  lemma DropAtKeeps(views: seq<View>, at: int)
    requires Increasing(views)
    ensures Increasing(DropAt(views, at))
    ensures forall w :: w in DropAt(views, at) <==> w in views && w.at != at
  {
  }

  lemma SortAppended(views: seq<View>, v: View)
    requires Increasing(views) && forall w :: w in views ==> w.at != v.at
    ensures Increasing(SortViews(views + [v]))
    ensures forall w :: w in SortViews(views + [v]) ==> w == v || w in views
  {
    hide Increasing;
    assert (views + [v])[..|views|] == views && (views + [v])[|views|] == v;
    SortedViewsStay(views);
    InsertViewIncreasing(v, views);
  }

  lemma NewestIncreasing(views: seq<View>)
    requires Increasing(views)
    ensures Increasing(NewestViews(views)) && |NewestViews(views)| <= MAX_VIEWS
    ensures forall w :: w in NewestViews(views) ==> w in views
  {
  }

  lemma ViewPlaced(b: Book, at: int, size: int, updated: Option<int>)
    requires Placed(b)
    ensures Placed(AddView(b, at, size, updated))
  {
    hide Increasing, SortViews, DropAt, NewestViews;
    DropAtKeeps(b.views, at);
    SortAppended(DropAt(b.views, at), View(at, size));
    NewestIncreasing(SortViews(DropAt(b.views, at) + [View(at, size)]));
  }

  lemma PutKeeps(events: seq<LegEvent>, e: LegEvent)
    requires Ids(events)
    ensures var r := Put(events, e);
            && Ids(r) && |r| <= |events| + 1
            && forall x :: x in r ==> x == e || (x in events && x.execId != e.execId)
  {
  }

  lemma PutFresh(events: seq<LegEvent>, e: LegEvent)
    requires forall x :: x in events ==> x.execId != e.execId
    ensures Put(events, e) == events + [e]
  {
  }

  lemma EvictKeeps(events: seq<LegEvent>)
    requires Ids(events) && |events| <= MAX_EVENTS + 1
    ensures var r := EvictEvents(events);
            Ids(r) && |r| <= MAX_EVENTS && forall x :: x in r ==> x in events
  {
    hide Ids, OldestIndex;
    if |events| > MAX_EVENTS {
      IdsWithout(events, OldestIndex(events));
    }
  }

  lemma IdsWithout(events: seq<LegEvent>, i: nat)
    requires Ids(events) && i < |events|
    ensures var r := events[..i] + events[i + 1..];
            Ids(r) && |r| == |events| - 1 && forall x :: x in r ==> x in events
  {
  }

  lemma EventPlaced(b: Book, e: LegEvent)
    requires Placed(b)
    ensures Placed(AddEvent(b, e))
  {
    hide Ids, Put, EvictEvents, Increasing;
    PutKeeps(b.events, e);
    EvictKeeps(Put(b.events, e));
  }

  lemma OutsidePlaced(s: seq<LegEvent>, lo: int, hi: int)
    requires Ids(s)
    ensures Ids(Outside(s, lo, hi)) && |Outside(s, lo, hi)| <= |s|
    ensures forall e :: e in Outside(s, lo, hi) ==> e in s && !(lo < e.at <= hi)
  {
  }

  lemma BeyondPlaced(s: seq<LegEvent>, at: int)
    requires Ids(s)
    ensures Ids(EventsBeyond(s, at)) && |EventsBeyond(s, at)| <= |s|
    ensures forall e :: e in EventsBeyond(s, at) ==> e in s && e.at > at
  {
  }

  lemma AtLeastIncreasing(views: seq<View>, at: int)
    requires Increasing(views)
    ensures Increasing(AtLeast(views, at))
  {
    hide Increasing;
    if views != [] {
      IncreasingTail(views);
      AtLeastIncreasing(views[1..], at);
      IncreasingCons(views[0], AtLeast(views[1..], at));
    } else {
      assert AtLeast(views, at) == views;
    }
  }

  // ---- Journal conservation -----------------------------------------------------------------------

  /** The journal share the entry rows hold: the ledger's, what it booked beyond the
      cursor, and the verdicts they were not netted for yet. */
  function Owed(b: Book): int {
    Bal(b.core) + OwnShares(b.events)
  }

  lemma OwnBetween(s: seq<LegEvent>, lo: int, hi: int)
    ensures OwnShares(Between(s, lo, hi)) + OwnShares(Outside(s, lo, hi)) == OwnShares(s)
  {
  }

  lemma OwnInsert(e: LegEvent, s: seq<LegEvent>, dir: int)
    ensures OwnShares(Insert(e, s, dir)) == (if e.own then e.share else 0) + OwnShares(s)
  {
  }

  lemma OwnSort(s: seq<LegEvent>, dir: int)
    ensures OwnShares(SortDue(s, dir)) == OwnShares(s)
  {
    if s == [] {
    } else {
      OwnSort(s[1..], dir);
      OwnInsert(s[0], SortDue(s[1..], dir), dir);
    }
  }

  lemma OwnAllBeyond(s: seq<LegEvent>, at: int)
    requires forall e :: e in s ==> e.at > at
    ensures OwnBeyond(s, at) == OwnShares(s)
  {
  }

  lemma OwnOfBeyond(s: seq<LegEvent>, at: int)
    ensures OwnShares(EventsBeyond(s, at)) == OwnBeyond(s, at)
  {
  }

  lemma OwnAppend(s: seq<LegEvent>, e: LegEvent)
    ensures OwnShares(s + [e]) == OwnShares(s) + if e.own then e.share else 0
  {
    if s == [] {
    } else {
      assert (s + [e])[1..] == s[1..] + [e];
      OwnAppend(s[1..], e);
    }
  }

  // ---- Judging ----------------------------------------------------------------------------------------

  lemma WalkInv(b: Book, view: View, proven: bool)
    requires Inv(b) && b.cursor.Some? && b.cursor.value < view.at
    ensures var w := Walk(b, view, proven);
            && Placed(w.0) && Books(w.0.core)
            && (proven ==> Inv(w.0) && w.0.core.doubt <= Abs(w.0.core.share))
            && Owed(w.0) == Owed(b) && NetTotal(w.0.core) == NetTotal(b.core) + Taken(w.1)
  {
    hide WalkEvents, SortDue, Between, Outside, AtLeast, CapDoubt, NoteRoom, Toward, GapDoubt, Capped;
    hide CreditsOk, NetOk;
    var due := Due(b, view);
    WalkKeeps(b.core, b.leg, due, proven);
    OwnSort(Between(b.events, b.cursor.value, view.at), Direction(b.core.share));
    OwnBetween(b.events, b.cursor.value, view.at);
    OutsidePlaced(b.events, b.cursor.value, view.at);
    AtLeastIncreasing(b.views, view.at);
    var c := WalkEvents(b.core, b.leg, due, proven).core;
    LimitsAreToward(c.share, view.size);
    var c1 := c.(share := if proven then Capped(c.share, view.size) else c.share);
    if proven {
      TowardInside(c.share, view.size, c.journal);
    }
    CapCovers(c1);
    if proven {
      NotedRoom(CapDoubt(c1), view.size);
    }
  }

  /** The share held in doubt, and the gap that accounts for it. */
  function HeldDoubt(c: Core, at: int, gap: LegGap): (r: Core)
    ensures r == c.(doubt := r.doubt, doubtSeq := r.doubtSeq, gaps := r.gaps)
  {
    var c1 := AddDoubt(c, at, Abs(c.share));
    if Abs(c1.share) > 0 then AddGap(c1, gap.(doubt := Abs(c1.share))) else c1
  }

  lemma HeldDoubtKeeps(c: Core, at: int, gap: LegGap)
    requires Covered(c) && GapOk(gap)
    ensures var r := HeldDoubt(c, at, gap);
            Covered(r) && (c.share != 0 ==> r.doubt == Abs(c.share))
  {
    hide CapDoubt, GapDoubt, AddGap;
    if c.share != 0 {
      DoubtAll(c, at);
      var c1 := AddDoubt(c, at, Abs(c.share));
      GapAdded(c1, gap.(doubt := Abs(c1.share)));
      GapDoubtNonneg(c1.gaps);
    }
  }

  lemma ClampKeeps(c: Core, first: View, gap: LegGap)
    requires Books(c) && GapOk(gap)
    ensures var r := ClampTo(c, first, gap);
            && CoreInv(r, first.size) && Bal(r) == Bal(c)
            && NetTotal(r) == NetTotal(c) + Excess(c.share, first.size)
            && (r.share != 0 ==> r.doubt == Abs(r.share))
  {
    hide NoteRoom, GapDoubt, AddGap, AddDoubt, TakeJournal, AddCredit, CreditsOk, NetOk, Covered;
    var dir := Direction(c.share);
    var clamped := Excess(c.share, first.size);
    var cut := c.(share := Along(Max(Along(first.size, dir), 0), dir));
    JournalTaken(cut, clamped, dir);
    var c1 := if clamped > 0 then TakeJournal(cut, clamped, dir) else c;
    CreditKept(c1, first.at, clamped, dir);
    var c2 := AddCredit(c1, first.at, clamped, dir);
    CoveredSame(c, c2);
    HeldDoubtKeeps(c2, first.at, gap);
    var c4 := HeldDoubt(c2, first.at, gap);
    NotedRoom(c4.(room := map[]), first.size);
    assert ClampTo(c, first, gap) == NoteRoom(c4.(room := map[]), first.size);
    CoveredSame(c4, ClampTo(c, first, gap));
  }

  /** A give-up that clamps the share to nothing leaves the doubt of before as it is: there is
      no share to hold in doubt, so nothing is capped. */
  lemma ClampLeavesDoubt(c: Core, first: View, gap: LegGap)
    requires c.share != 0 && Along(first.size, Direction(c.share)) <= 0
    ensures var r := ClampTo(c, first, gap);
            r.share == 0 && r.doubt == c.doubt && r.gaps == c.gaps
  {
  }

  /** Holding the whole share in doubt. */
  lemma DoubtAll(c: Core, at: int)
    requires Covered(c) && Abs(c.share) > 0
    ensures var r := AddDoubt(c, at, Abs(c.share));
            GapsOk(r.gaps) && |r.gaps| <= MAX_GAPS && r.doubt == Abs(c.share)
  {
    CapGapsSum(c.gaps, Abs(c.share));
  }

  lemma OpenedOk(b: Book, first: View)
    requires Inv(b) && b.cursor.Some?
    ensures GapOk(OpenedGap(b, first))
  {
    hide Between;
  }

  lemma GiveUpInv(b: Book, first: View)
    requires Inv(b) && b.cursor.Some? && b.cursor.value < first.at
    ensures var g := GiveUp(b, first);
            && Inv(g.0) && Owed(g.0) == Owed(b) && NetTotal(g.0.core) == NetTotal(b.core) + Taken(g.1)
            && (g.0.core.share != 0 ==> g.0.core.doubt == Abs(g.0.core.share))
  {
    hide Walk, ClampTo, Books, CoreInv, Bal, NetTotal, Excess;
    WalkInv(b, first, false);
    var w := Walk(b, first, false);
    OpenedOk(b, first);
    ClampKeeps(w.0.core, first, OpenedGap(b, first));
    var g := GiveUp(b, first);
    TakenSum(w.1, [g.1[|g.1| - 1]]);
    assert g.1 == w.1 + [g.1[|g.1| - 1]];
    assert Taken([g.1[|g.1| - 1]]) == Excess(w.0.core.share, first.size);
  }

  lemma TakenNone()
    ensures Taken([]) == 0
  {
  }

  /** The judging loop keeps the invariant and the rows' share, reports every verdict it
      took, and only moves the cursor forward. */
  lemma {:induction false} JudgeInv(b: Book, now: int, grace: int, known: set<int>, provable: bool)
    requires Inv(b) && b.cursor.Some?
    ensures var r := Judge(b, now, grace, known, provable);
            && Inv(r.0) && r.0.cursor.Some? && r.0.cursor.value >= b.cursor.value
            && Owed(r.0) == Owed(b) && NetTotal(r.0.core) == NetTotal(b.core) + Taken(r.1)
    decreases |Later(b.views, b.cursor.value)|
  {
    hide Walk, GiveUp, CoreInv, Placed, Bal, NetTotal, Taken, Target;
    var later := Later(b.views, b.cursor.value);
    TakenNone();
    if later != [] {
      var target := if provable then Target(b, later, known) else None;
      var b0 := b.(gapSince := None);
      assert Inv(b0) by { PlacedSame(b, b0); }
      if target.Some? {
        LaterAtLeast(b.views, b.cursor.value, target.value.at);
        WalkInv(b0, target.value, true);
        ViewsAfter(b0, target.value, true);
        var w := Walk(b0, target.value, true);
        JudgeInv(w.0, now, grace, known, provable);
        TakenSum(w.1, Judge(w.0, now, grace, known, provable).1);
      } else {
        var since := if b.gapSince.None? then now else b.gapSince.value;
        PlacedSame(b, b.(gapSince := Some(since)));
        if now - since >= grace {
          LaterAtLeast(b.views, b.cursor.value, later[0].at);
          assert later[0] in later;
          GiveUpInv(b0, later[0]);
          ViewsAfterGiveUp(b0, later[0]);
          var g := GiveUp(b0, later[0]);
          JudgeInv(g.0, now, grace, known, provable);
          TakenSum(g.1, Judge(g.0, now, grace, known, provable).1);
        }
      }
    } else {
      PlacedSame(b, b.(gapSince := None));
    }
  }

  /** Judging only ever moves on: the cursor strictly forward, or nothing at all is judged;
      without a grace period no view is left beyond it, and the gap clock runs exactly
      while one is. */
  lemma {:induction false} JudgeForward(b: Book, now: int, grace: int, known: set<int>, provable: bool)
    requires b.cursor.Some?
    ensures var r := Judge(b, now, grace, known, provable);
            && r.0.cursor.Some?
            && (r.0.cursor.value > b.cursor.value || (r.0 == b.(gapSince := r.0.gapSince) && r.1 == []))
            && (grace <= 0 && (b.gapSince.Some? ==> b.gapSince.value <= now) ==>
                  Later(r.0.views, r.0.cursor.value) == [])
            && (r.0.gapSince.None? <==> Later(r.0.views, r.0.cursor.value) == [])
    decreases |Later(b.views, b.cursor.value)|
  {
    hide Walk, GiveUp, Target, Later;
    var later := Later(b.views, b.cursor.value);
    if later == [] {
    } else {
      var target := if provable then Target(b, later, known) else None;
      var b0 := b.(gapSince := None);
      if target.Some? {
        LaterAtLeast(b.views, b.cursor.value, target.value.at);
        ViewsAfter(b0, target.value, true);
        JudgeForward(Walk(b0, target.value, true).0, now, grace, known, provable);
      } else {
        var since := if b.gapSince.None? then now else b.gapSince.value;
        if now - since >= grace {
          LaterAtLeast(b.views, b.cursor.value, later[0].at);
          assert later[0] in later;
          ViewsAfterGiveUp(b0, later[0]);
          JudgeForward(GiveUp(b0, later[0]).0, now, grace, known, provable);
        }
      }
    }
  }

  lemma PlacedSame(a: Book, b: Book)
    requires Placed(a) && a.views == b.views && a.events == b.events && a.cursor == b.cursor
    ensures Placed(b)
  {
  }

  lemma ViewsAfter(b: Book, view: View, proven: bool)
    requires b.cursor.Some?
    ensures Walk(b, view, proven).0.views == AtLeast(b.views, view.at)
    ensures Walk(b, view, proven).0.gapSince == b.gapSince
  {
  }

  lemma ViewsAfterGiveUp(b: Book, first: View)
    requires b.cursor.Some?
    ensures GiveUp(b, first).0.views == AtLeast(b.views, first.at)
    ensures GiveUp(b, first).0.gapSince == b.gapSince
  {
  }

  lemma SettleInv(b: Book, known: set<int>)
    requires Inv(b)
    ensures var s := SettleGaps(b, known);
            && Inv(s.0) && Owed(s.0) == Owed(b) && NetTotal(s.0.core) == NetTotal(b.core) && Taken(s.1) == 0
            && s.0 == b.(core := b.core.(doubt := s.0.core.doubt, gaps := s.0.core.gaps))
  {
    hide SettleFrom, GapDoubt, Taken, InHull, CreditsOk, NetOk;
    if b.cursor.Some? {
      SettleKeeps(b.core, known, 0);
    } else {
      TakenNone();
      NoGaps(b.core, known);
    }
  }

  lemma NoGaps(c: Core, known: set<int>)
    requires c.gaps == []
    ensures SettleFrom(c, known, 0) == (c, [])
  {
  }

  lemma AdvanceInv(b: Book, now: int, grace: int, known: set<int>, provable: bool)
    requires Inv(b)
    ensures var r := Advance(b, now, grace, known, provable);
            && Inv(r.0) && Owed(r.0) == Owed(b) && NetTotal(r.0.core) == NetTotal(b.core) + Taken(r.1)
            && (b.cursor.Some? ==> r.0.cursor.Some? && r.0.cursor.value >= b.cursor.value)
  {
    hide Judge, Taken, SettleGaps, Inv, Owed, NetTotal;
    TakenNone();
    if b.cursor.Some? {
      SettleInv(b, known);
      var s := if provable then SettleGaps(b, known) else (b, []);
      JudgeInv(s.0, now, grace, known, provable);
      TakenSum(s.1, Judge(s.0, now, grace, known, provable).1);
    }
  }

  // ---- The other operations ----------------------------------------------------------------------------

  lemma NoDoubt()
    ensures GapDoubt([]) == 0
  {
  }

  /** The accounts of a ledger anchored on its first view. */
  lemma AnchorKeeps(b: Book, v: View, share: int)
    requires b.core == EMPTY.core
    ensures var c := AnchorOn(b, v, share).core;
            && CoreInv(c, v.size) && c.doubt == 0 && c.gaps == [] && c.journal == share
            && c.share == Toward(share, v.size) && InHull(c.share, share) && c.toNet == map[]
  {
    hide NoteRoom, Toward, Capped, GapDoubt;
    LimitsAreToward(share, v.size);
    var c := b.core.(share := Capped(share, v.size), journal := share, doubt := 0, gaps := [], room := map[]);
    NotedRoom(c, v.size);
    NoDoubt();
    TowardInside(share, v.size, share);
  }

  lemma StartInv(b: Book, journalShare: int)
    requires Inv(b) && b.cursor.None?
    ensures var r := Start(b, journalShare);
            && Inv(r.0)
            && (r.0.cursor.Some? ==> Owed(r.0) == journalShare)
            && NetTotal(r.0.core) == Taken(if r.1.Some? then [r.1.value] else [])
  {
    hide OwnBeyond, EventsBeyond, ClampAtStart, CoreInv, NoteRoom, Capped, Toward, Increasing, Ids;
    if b.views == [] {
    } else {
      var v := b.views[|b.views| - 1];
      var share := journalShare - OwnBeyond(b.events, v.at);
      BeyondPlaced(b.events, v.at);
      OwnOfBeyond(b.events, v.at);
      One(v);
      AnchorKeeps(b, v, share);
      var c := AnchorOn(b, v, share).core;
      var clamped := Abs(share) - Abs(c.share);
      if clamped > 0 {
        StartClampKeeps(c, v, clamped, Direction(share));
      }
    }
  }

  lemma StartClampKeeps(c: Core, v: View, clamped: int, dir: int)
    requires CoreInv(c, v.size) && c.doubt == 0 && c.gaps == []
    requires Sign(dir) && 0 < clamped && Direction(c.journal) == dir && Abs(c.share) + clamped == Abs(c.journal)
    ensures var r := ClampAtStart(c, v, clamped, dir);
            CoreInv(r, v.size) && Bal(r) == Bal(c) && NetTotal(r) == NetTotal(c) + clamped
  {
    hide CapDoubt, AddGap, GapDoubt, TakeJournal, AddCredit;
    JournalTaken(c, clamped, dir);
    var c0 := TakeJournal(c, clamped, dir);
    assert Covered(c0) by { GapDoubtNonneg([]); CoveredSame(c, c0); }
    if Abs(c.share) > 0 {
      DoubtAll(c0, v.at);
    }
    var c1 := AddDoubt(c0, v.at, Abs(c.share));
    CreditKept(c1, v.at, clamped, dir);
    var c2 := AddCredit(c1, v.at, clamped, dir);
    if c2.doubt != 0 {
      var g := LegGap(None, v.at, v.size, v.size, c2.share, c2.journal, 0, [], {}, c2.doubt, false);
      GapAdded(c2, g);
      GapDoubtNonneg(c2.gaps);
    }
    RoomSame(c, ClampAtStart(c, v, clamped, dir), v.size);
  }

  lemma SyncInv(b: Book, journalShare: int)
    requires Inv(b) && b.cursor.Some?
    ensures var r := SyncJournal(b, journalShare);
            && Inv(r) && r.core.doubt <= Abs(r.core.share)
            && Owed(r) == journalShare + Get(b.core.toNet, 1) - Get(b.core.toNet, -1)
  {
    hide OwnBeyond, CapDoubt, GapDoubt, Bounded, Toward;
    OwnAllBeyond(b.events, b.cursor.value);
    var journal := journalShare - OwnBeyond(b.events, b.cursor.value);
    LimitsAreToward(b.core.share, journal);
    TowardInside(b.core.share, journal, b.leg);
    TowardInside(b.core.share, journal, b.core.share);
    CapCovers(b.core.(journal := journal, share := Bounded(b.core.share, journal)));
  }

  lemma JoinKeeps(c: Core, i: nat, e: LegEvent)
    requires Covered(c) && i < |c.gaps|
    ensures Covered(c.(gaps := c.gaps[i := JoinGap(c.gaps[i], e)]))
  {
    SetGap(c.gaps, i, JoinGap(c.gaps[i], e));
  }

  lemma PositiveKept(credits: seq<Credit>)
    requires forall i :: 0 <= i < |credits| ==> credits[i].qty >= 0 && Sign(credits[i].dir)
    ensures |Positive(credits)| <= |credits|
    ensures forall i :: 0 <= i < |Positive(credits)| ==>
              Positive(credits)[i].qty > 0 && Sign(Positive(credits)[i].dir)
  {
  }

  lemma DrawKeeps(credits: seq<Credit>, at: int, quantity: int, dir: int)
    requires forall i :: 0 <= i < |credits| ==> credits[i].qty > 0 && Sign(credits[i].dir)
    ensures var r := Draw(credits, at, quantity, dir).0;
            |r| == |credits| && forall i :: 0 <= i < |r| ==> r[i].qty >= 0 && Sign(r[i].dir)
  {
  }

  lemma TakeKeeps(credits: seq<Credit>, at: int, quantity: int, dir: int)
    requires CreditsOk(credits)
    ensures CreditsOk(TakeCredit(credits, at, quantity, dir).0)
  {
    DrawKeeps(credits, at, quantity, dir);
    PositiveKept(Draw(credits, at, quantity, dir).0);
  }

  // ---- Every run ------------------------------------------------------------------------------------------

  lemma PushInv(b: Book, at: int, size: int, updated: Option<int>)
    requires Inv(b)
    ensures Inv(AddView(b, at, size, updated))
  {
    hide AddView, CoreInv, Placed;
    ViewPlaced(b, at, size, updated);
    ViewOnly(b, at, size, updated);
  }

  lemma OwnInv(b: Book, e: LegEvent)
    requires Inv(b)
    ensures Inv(OwnOp(b, e).0)
  {
    hide AddEvent, LateCore, CoreInv, Placed;
    if Beyond(b, e.at) {
      EventPlaced(b, e);
      EventOnly(b, e);
    } else {
      LateKeeps(b.core, b.leg, b.cursor.value, b.blindSeq.value, e);
      PlacedSame(b, LateOwn(b, e).0);
    }
  }

  lemma JoinInv(c: Core, leg: int, i: nat, e: LegEvent)
    requires CoreInv(c, leg) && i < |c.gaps|
    ensures CoreInv(c.(gaps := c.gaps[i := JoinGap(c.gaps[i], e)]), leg)
  {
    hide GapDoubt, InHull, CreditsOk, NetOk;
    JoinKeeps(c, i, e);
  }

  lemma OtherInv(b: Book, e: LegEvent)
    requires Inv(b)
    ensures Inv(OtherOp(b, e).0)
  {
    hide AddEvent, CoreInv, Placed, JoinGap;
    if Beyond(b, e.at) {
      EventPlaced(b, e);
      EventOnly(b, e);
    } else {
      var i := GapOf(b.core.gaps, e.at);
      if i.Some? {
        JoinInv(b.core, b.leg, i.value, e);
      }
      PlacedSame(b, OtherOp(b, e).0);
    }
  }

  lemma ReduceInv(b: Book, at: int, quantity: int, dir: int)
    requires Inv(b)
    ensures Inv(ReduceOp(b, at, quantity, dir))
  {
    hide TakeCredit, GapDoubt, InHull, NetOk, Increasing, Ids;
    TakeKeeps(b.core.credits, at, quantity, dir);
  }

  lemma NetInv(b: Book)
    requires Inv(b)
    ensures Inv(b.(core := b.core.(toNet := map[])))
  {
  }

  lemma JudgeOpInv(b: Book, share: int, now: int, grace: int, known: set<int>, provable: bool)
    requires Inv(b)
    ensures Inv(JudgeOp(b, share, now, grace, known, provable).0)
  {
    hide Start, SyncJournal, Advance, Inv, Owed, NetTotal, Taken;
    assert b.cursor.Some? ==> b.blindSeq.Some? by { Standing(b); }
    if b.cursor.None? {
      StartInv(b, share);
      AdvanceInv(Start(b, share).0, now, grace, known, provable);
    } else {
      SyncInv(b, share);
      AdvanceInv(SyncJournal(b, share), now, grace, known, provable);
    }
  }

  lemma Standing(b: Book)
    requires Inv(b)
    ensures b.cursor.Some? ==> b.blindSeq.Some?
  {
  }

  /** Every operation keeps the invariant, whatever its arguments. */
  lemma ApplyInv(b: Book, op: Op)
    requires Inv(b)
    ensures b.cursor.Some? ==> b.blindSeq.Some?
    ensures Inv(Apply(b, op).0)
  {
    hide AddView, OwnOp, OtherOp, ReduceOp, JudgeOp, Inv;
    Standing(b);
    match op
    case Push(at, size, updated) => PushInv(b, at, size, updated);
    case Own(e) => OwnInv(b, e);
    case Other(e) => OtherInv(b, e);
    case Reduce(at, quantity, dir) => ReduceInv(b, at, quantity, dir);
    case Net => NetInv(b);
    case Judging(share, now, grace, known, provable) => JudgeOpInv(b, share, now, grace, known, provable);
  }

  lemma ViewOnly(b: Book, at: int, size: int, updated: Option<int>)
    ensures var r := AddView(b, at, size, updated);
            r == b.(views := r.views, latestViewSeq := r.latestViewSeq, newestView := r.newestView)
  {
  }

  lemma EventOnly(b: Book, e: LegEvent)
    ensures var r := AddEvent(b, e); r == b.(events := r.events)
  {
  }

  /** An execution not recorded yet, with room to record it. */
  predicate Fresh(b: Book, e: LegEvent) {
    |b.events| < MAX_EVENTS && forall x :: x in b.events ==> x.execId != e.execId
  }

  /** The change an operation makes to what the entry rows hold for the ledger. */
  function OwedChange(b: Book, op: Op): int {
    match op
    case Own(e) => if e.own then e.share else 0
    case Net => Get(b.core.toNet, -1) - Get(b.core.toNet, 1)
    case Judging(share, _, _, _, _) =>
      if b.cursor.Some? then share + Get(b.core.toNet, 1) - Get(b.core.toNet, -1) - Owed(b)
      else if b.views == [] then 0
      else share - Owed(b)
    case _ => 0
  }

  lemma RecordOwed(b: Book, e: LegEvent)
    requires Fresh(b, e)
    ensures Owed(AddEvent(b, e)) == Owed(b) + if Beyond(b, e.at) && e.own then e.share else 0
  {
    hide Put;
    PutFresh(b.events, e);
    OwnAppend(b.events, e);
  }

  lemma OwnConserves(b: Book, e: LegEvent)
    requires Inv(b) && e.own && Fresh(b, e)
    ensures var r := OwnOp(b, e);
            Owed(r.0) == Owed(b) + e.share && NetTotal(r.0.core) == NetTotal(b.core) + Taken(r.1)
  {
    hide AddEvent, LateCore, CoreInv, Placed, OwnShares, Taken, Bal, NetTotal, Fresh;
    TakenNone();
    RecordOwed(b, e);
    EventOnly(b, e);
    if !Beyond(b, e.at) {
      LateKeeps(b.core, b.leg, b.cursor.value, b.blindSeq.value, e);
    }
  }

  lemma OtherConserves(b: Book, e: LegEvent)
    requires Inv(b) && !e.own && Fresh(b, e)
    ensures var r := OtherOp(b, e);
            Owed(r.0) == Owed(b) && NetTotal(r.0.core) == NetTotal(b.core) + Taken(r.1)
  {
    hide AddEvent, CoreInv, Placed, OwnShares, Taken, GapOf, Fresh;
    TakenNone();
    RecordOwed(b, e);
    EventOnly(b, e);
    TakenOne(Outcome(Some(e), 0, false, Abs(b.core.share), b.leg, e.at, 0, 0, 0, false));
  }

  lemma JudgeConserves(b: Book, share: int, now: int, grace: int, known: set<int>, provable: bool)
    requires Inv(b)
    ensures var r := JudgeOp(b, share, now, grace, known, provable);
            && NetTotal(r.0.core) == NetTotal(b.core) + Taken(r.1)
            && (b.cursor.Some? ==> Owed(r.0) == share + Get(b.core.toNet, 1) - Get(b.core.toNet, -1))
            && (b.cursor.None? && b.views != [] ==> Owed(r.0) == share)
            && (b.cursor.None? && b.views == [] ==> r == (b, []))
  {
    hide Start, SyncJournal, Advance, CoreInv, Placed, OwnShares, Taken, Bal, NetTotal;
    TakenNone();
    if b.cursor.None? {
      StartInv(b, share);
      var s := Start(b, share);
      AdvanceInv(s.0, now, grace, known, provable);
      TakenSum(if s.1.Some? then [s.1.value] else [], Advance(s.0, now, grace, known, provable).1);
      assert NetTotal(b.core) == 0 by { NoNet(b.core); }
      if b.views == [] {
        NoStart(b, share, now, grace, known, provable);
        var none: seq<Outcome> := [];
        assert none + none == none;
      } else {
        Starts(b, share);
      }
    } else {
      SyncInv(b, share);
      SyncNet(b, share);
      SameNet(SyncJournal(b, share).core, b.core);
      AdvanceInv(SyncJournal(b, share), now, grace, known, provable);
    }
  }

  lemma NoNet(c: Core)
    requires c.toNet == map[]
    ensures NetTotal(c) == 0
  {
  }

  lemma PushConserves(b: Book, at: int, size: int, updated: Option<int>)
    ensures var r := AddView(b, at, size, updated);
            Owed(r) == Owed(b) && NetTotal(r.core) == NetTotal(b.core)
  {
  }

  lemma ReduceConserves(b: Book, at: int, quantity: int, dir: int)
    ensures var r := ReduceOp(b, at, quantity, dir);
            Owed(r) == Owed(b) && NetTotal(r.core) == NetTotal(b.core)
  {
  }

  lemma NetConserves(b: Book)
    ensures var r := b.(core := b.core.(toNet := map[]));
            Owed(r) == Owed(b) + OwedChange(b, Net) && NetTotal(r.core) == 0
  {
  }

  /** The journal is conserved: only an own booking, a hand-over to the rows or a re-sync
      to them moves what the rows hold; and every verdict taken is reported once. */
  lemma ApplyConserves(b: Book, op: Op)
    requires Inv(b)
    requires op.Own? ==> op.own.own && Fresh(b, op.own)
    requires op.Other? ==> !op.other.own && Fresh(b, op.other)
    ensures b.cursor.Some? ==> b.blindSeq.Some?
    ensures var r := Apply(b, op);
            && Owed(r.0) == Owed(b) + OwedChange(b, op)
            && NetTotal(r.0.core) == if op.Net? then 0 else NetTotal(b.core) + Taken(r.1)
  {
    hide AddView, OwnOp, OtherOp, ReduceOp, JudgeOp, Owed, NetTotal, Taken, Fresh, Inv;
    Standing(b);
    TakenNone();
    match op
    case Push(at, size, updated) => PushConserves(b, at, size, updated);
    case Own(e) => OwnConserves(b, e);
    case Other(e) => OtherConserves(b, e);
    case Reduce(at, quantity, dir) => ReduceConserves(b, at, quantity, dir);
    case Net => NetConserves(b);
    case Judging(share, now, grace, known, provable) =>
      JudgeConserves(b, share, now, grace, known, provable);
  }

  lemma TakenOne(o: Outcome)
    ensures Taken([o]) == if o.settled then 0 else o.consumed
  {
  }

  lemma NoStart(b: Book, share: int, now: int, grace: int, known: set<int>, provable: bool)
    requires b.cursor.None? && b.views == []
    ensures Start(b, share) == (b, None) && Advance(b, now, grace, known, provable) == (b, [])
  {
  }

  lemma Starts(b: Book, share: int)
    requires b.views != []
    ensures Start(b, share).0.cursor.Some?
  {
  }

  lemma SyncNet(b: Book, share: int)
    ensures SyncJournal(b, share).core.toNet == b.core.toNet
  {
  }

  function Run(b: Book, ops: seq<Op>): Book
    requires Inv(b)
    decreases |ops|
  {
    if ops == [] then b
    else
      ApplyInv(b, ops[0]);
      Run(Apply(b, ops[0]).0, ops[1..])
  }

  /** Every state a run reaches from the empty ledger keeps the invariant. */
  lemma {:induction false} RunInv(b: Book, ops: seq<Op>)
    requires Inv(b)
    ensures Inv(Run(b, ops))
    decreases |ops|
  {
    hide Apply, CoreInv, Placed;
    if ops == [] {
    } else {
      ApplyInv(b, ops[0]);
      RunInv(Apply(b, ops[0]).0, ops[1..]);
    }
  }

  // ---- Conservation over a run ---------------------------------------------------------------------------

  /** Everything a run reports. */
  function Outs(b: Book, ops: seq<Op>): seq<Outcome>
    requires Inv(b)
    decreases |ops|
  {
    if ops == [] then []
    else
      ApplyInv(b, ops[0]);
      Apply(b, ops[0]).1 + Outs(Apply(b, ops[0]).0, ops[1..])
  }

  /** Every execution of the run comes for the first time, as what it is, and is recorded. */
  predicate Records(b: Book, ops: seq<Op>)
    requires Inv(b)
    decreases |ops|
  {
    ops == []
    || ((ops[0].Own? ==> ops[0].own.own && Fresh(b, ops[0].own))
        && (ops[0].Other? ==> !ops[0].other.own && Fresh(b, ops[0].other))
        && (ApplyInv(b, ops[0]); Records(Apply(b, ops[0]).0, ops[1..])))
  }

  /** The share changes of a run's own executions. */
  function OwnBooked(ops: seq<Op>): int {
    if ops == [] then 0 else (if ops[0].Own? then ops[0].own.share else 0) + OwnBooked(ops[1..])
  }

  /** What a run handed over to the rows of one side. */
  function Handed(b: Book, ops: seq<Op>, side: int): int
    requires Inv(b)
    decreases |ops|
  {
    if ops == [] then 0
    else
      ApplyInv(b, ops[0]);
      (if ops[0].Net? then Get(b.core.toNet, side) else 0) + Handed(Apply(b, ops[0]).0, ops[1..], side)
  }

  /** By how much the rows had moved outside the ledger, each time they were read again. */
  function Resynced(b: Book, ops: seq<Op>): int
    requires Inv(b)
    decreases |ops|
  {
    if ops == [] then 0
    else
      ApplyInv(b, ops[0]);
      (if ops[0].Judging? then OwedChange(b, ops[0]) else 0) + Resynced(Apply(b, ops[0]).0, ops[1..])
  }

  lemma ChangeIs(b: Book, op: Op)
    requires op.Own? ==> op.own.own
    ensures OwedChange(b, op)
            == (if op.Own? then op.own.share else 0) + (if op.Judging? then OwedChange(b, op) else 0)
               - (if op.Net? then Get(b.core.toNet, 1) else 0) + (if op.Net? then Get(b.core.toNet, -1) else 0)
    ensures NetTotal(b.core) == Get(b.core.toNet, 1) + Get(b.core.toNet, -1)
  {
  }

  lemma NetReportsNothing(b: Book, op: Op)
    requires (b.cursor.Some? ==> b.blindSeq.Some?) && op.Net?
    ensures Apply(b, op).1 == []
  {
  }

  /** Over any run the journal the rows hold is what they held at the start, with the own share
      changes booked and the changes read in from the rows, less the verdicts handed over for
      its long side and more those for its short side; and all verdicts reported are those handed
      over, on both sides together, and those still to net. */
  lemma {:induction false} RunConserves(b: Book, ops: seq<Op>)
    requires Inv(b) && Records(b, ops)
    ensures var r := Run(b, ops);
            && Owed(r) == Owed(b) + OwnBooked(ops) + Resynced(b, ops) - Handed(b, ops, 1) + Handed(b, ops, -1)
            && Handed(b, ops, 1) + Handed(b, ops, -1) + NetTotal(r.core) == NetTotal(b.core) + Taken(Outs(b, ops))
    decreases |ops|
  {
    hide Apply, Inv, Owed, NetTotal, Taken, OwedChange, Fresh;
    if ops == [] {
      TakenNone();
    } else {
      ApplyInv(b, ops[0]);
      ApplyConserves(b, ops[0]);
      ChangeIs(b, ops[0]);
      var n := Apply(b, ops[0]);
      RunConserves(n.0, ops[1..]);
      TakenSum(n.1, Outs(n.0, ops[1..]));
      if ops[0].Net? {
        NetReportsNothing(b, ops[0]);
        TakenNone();
      }
    }
  }

  lemma EmptyInv()
    ensures Inv(EMPTY)
  {
  }
}

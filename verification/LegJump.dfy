// Walking straight to the furthest matching view against walking view by view through
// every matching view between: when exactly they leave the same ledger and outcomes.

module LegJump {
  import opened Common
  import opened LegTypes
  import opened LegBook
  import opened LegFold
  import opened LegOrder
  import opened LegInvariant
  import opened LegDoubt
  import opened LegRuns

  // ---- A walk that starts or ends with nothing left to cap ----------------------------------------

  /** Nothing is left to cap or to note: the doubt is within the share, the room at
      most the foreign exposure of the leg. */
  predicate Calm(c: Core, leg: int) {
    CapDoubt(c) == c && NoteRoom(c, leg) == c
  }

  lemma CapGapsTwice(gaps: seq<LegGap>, limit: int)
    ensures CapGaps(CapGaps(gaps, limit), limit) == CapGaps(gaps, limit)
  {
  }

  lemma CapTwice(c: Core)
    ensures CapDoubt(CapDoubt(c)) == CapDoubt(c)
  {
    CapGapsTwice(c.gaps, Abs(c.share));
  }

  lemma NoteTwice(room: map<int, int>, leg: int, share: int)
    ensures NoteSides(NoteSides(room, leg, share), leg, share) == NoteSides(room, leg, share)
  {
  }

  lemma NotedCalm(before: Core, leg: int)
    ensures Calm(NoteRoom(CapDoubt(before), leg), leg)
  {
    hide NoteSides, CapDoubt;
    var c := CapDoubt(before);
    CapTwice(before);
    CapIgnoresRoom(c, NoteSides(c.room, leg, c.share));
    NoteTwice(c.room, leg, c.share);
  }

  /** A proven step ends calm. */
  lemma StepCalms(c: Core, leg: int, e: LegEvent)
    ensures var s := StepOf(c, leg, e, true); Calm(s.core, s.leg)
  {
    hide NoteRoom, CapDoubt, AddCredit, TakeJournal, Charge, Bounded, Capped, Calm;
    forall before: Core
      ensures Calm(NoteRoom(CapDoubt(before), leg + e.delta), leg + e.delta)
    {
      NotedCalm(before, leg + e.delta);
    }
  }

  lemma CapIgnoresRoom(c: Core, room: map<int, int>)
    ensures CapDoubt(c.(room := room)) == CapDoubt(c).(room := room)
  {
  }

  /** A proven walk of any execution ends calm, whatever it started from. */
  lemma {:induction false} WalkCalms(c: Core, leg: int, due: seq<LegEvent>)
    requires due != [] || Calm(c, leg)
    ensures var w := WalkEvents(c, leg, due, true); Calm(w.core, w.leg)
    decreases |due|
  {
    if due == [] {
      WalkNone(c, leg, true);
    } else {
      hide StepOf, Calm, WalkEvents;
      var s := StepOf(c, leg, due[0], true);
      WalkFirst(c, leg, due, true);
      StepCalms(c, leg, due[0]);
      WalkCalms(s.core, s.leg, due[1..]);
    }
  }

  /** The executions a walk's verdicts name. */
  function Named(verdicts: seq<(LegEvent, int)>): seq<LegEvent> {
    if verdicts == [] then [] else [verdicts[0].0] + Named(verdicts[1..])
  }

  lemma NamedAppend(a: seq<(LegEvent, int)>, b: seq<(LegEvent, int)>)
    ensures Named(a + b) == Named(a) + Named(b)
  {
    if a == [] {
      assert a + b == b;
    } else {
      assert (a + b)[1..] == a[1..] + b;
    }
  }

  lemma ChargesName(r: Ref, due: seq<LegEvent>)
    ensures Named(Charges(r, due)) == Foreigns(due)
    decreases |due|
  {
    hide RefStep;
    if due == [] {
    } else {
      ChargesName(RefStep(r, due[0]), due[1..]);
    }
  }

  /** A proven walk onto `view`, its executions ordered as for side `dir`. */
  function WalkAs(b: Book, view: View, dir: int): (Book, seq<Outcome>)
    requires b.cursor.Some?
  {
    var w := WalkEvents(b.core, b.leg, DueAs(b, view, dir), true);
    (b.(events := Outside(b.events, b.cursor.value, view.at), cursor := Some(view.at), leg := view.size,
        views := AtLeast(b.views, view.at), core := Ended(w.core, view)), w.outs)
  }

  function DueAs(b: Book, view: View, dir: int): seq<LegEvent>
    requires b.cursor.Some?
  {
    SortDue(Between(b.events, b.cursor.value, view.at), dir)
  }

  /** The share capped to the view, the doubt to the share, and the room noted. */
  function Ended(c: Core, view: View): Core {
    NoteRoom(CapDoubt(c.(share := Capped(c.share, view.size))), view.size)
  }

  lemma WalkIsAs(b: Book, view: View)
    requires b.cursor.Some?
    ensures Walk(b, view, true) == WalkAs(b, view, Direction(b.core.share))
    ensures DueAs(b, view, Direction(b.core.share)) == Due(b, view)
  {
  }

  /** What a holding ledger's walk onto a matching view makes of it, in any walk order. */
  lemma WalkEnds(b: Book, view: View, dir: int)
    requires b.cursor.Some? && Held(b.core, b.leg) && Matches(b, view)
    ensures var w := WalkEvents(b.core, b.leg, DueAs(b, view, dir), true);
            && w.leg == view.size && Held(w.core, w.leg)
            && Ended(w.core, view) == NoteRoom(CapDoubt(w.core), view.size)
            && Calm(Ended(w.core, view), view.size) && Held(Ended(w.core, view), view.size)
            && Ended(w.core, view).share == w.core.share
            && (Calm(b.core, b.leg) || DueAs(b, view, dir) != [] ==> Ended(w.core, view) == w.core)
  {
    hide Between, SortDue, NoteRoom, CapDoubt, WalkEvents, SumDelta, Calm;
    var due := DueAs(b, view, dir);
    WalkRefinesFold(b.core, b.leg, due);
    WalkLeg(b.core, b.leg, due, true);
    SortSums(Between(b.events, b.cursor.value, view.at), dir);
    var c := WalkEvents(b.core, b.leg, due, true).core;
    LimitsAreToward(c.share, view.size);
    assert c.(share := Capped(c.share, view.size)) == c;
    NotedCalm(c, view.size);
    if Calm(b.core, b.leg) || due != [] {
      WalkCalms(b.core, b.leg, due);
      CalmEnds(c, view.size);
    }
  }

  lemma CalmEnds(c: Core, leg: int)
    requires Calm(c, leg)
    ensures NoteRoom(CapDoubt(c), leg) == c
  {
  }

  /** The executions a walk's verdicts name are its foreign ones, in walk order. */
  lemma WalkNames(b: Book, view: View, dir: int)
    requires b.cursor.Some? && Held(b.core, b.leg)
    ensures Named(Verdicts(WalkAs(b, view, dir).1)) == Foreigns(DueAs(b, view, dir))
  {
    hide WalkEvents, DueAs, Held, Fold, Charges, Foreigns, Ended, Outside, AtLeast;
    WalkRefinesFold(b.core, b.leg, DueAs(b, view, dir));
    ChargesName(RefOf(b.core, b.leg), DueAs(b, view, dir));
  }

  // ---- One view stopped on ----------------------------------------------------------------------------

  /** The walk onto a view is the walk onto an earlier one and on from there in the same
      order, when the stop caps nothing. */
  lemma SplitWalk(b: Book, mid: View, view: View, dir: int)
    requires b.cursor.Some? && Held(b.core, b.leg) && Matches(b, mid) && Matches(b, view) && mid.at < view.at
    requires Calm(b.core, b.leg) || DueAs(b, mid, dir) != []
    ensures var s := WalkAs(b, mid, dir);
            var t := WalkAs(s.0, view, dir);
            WalkAs(b, view, dir) == (t.0, s.1 + t.1)
  {
    hide WalkEvents, SortDue, Held, Calm, SumDelta, Between, Outside, AtLeast, Matches, Ended;
    CursorBefore(b, mid);
    WalkEnds(b, mid, dir);
    SortSplit(b.events, b.cursor.value, mid.at, view.at, dir);
    OutsideTwice(b.events, b.cursor.value, mid.at, view.at);
    AtLeastTwice(b.views, mid.at, view.at);
    WalkAppend(b.core, b.leg, DueAs(b, mid, dir), DueAs(WalkAs(b, mid, dir).0, view, dir), true);
  }

  // ---- Every matching view between ---------------------------------------------------------------------

  /** Walking view by view. */
  function StepThrough(b: Book, views: seq<View>): (Book, seq<Outcome>)
    requires b.cursor.Some?
    decreases |views|
  {
    if views == [] then (b, [])
    else
      var s := Walk(b, views[0], true);
      var r := StepThrough(s.0, views[1..]);
      (r.0, s.1 + r.1)
  }

  /** Every interval between the stops is ranked alike by `dir` and by the side held there. */
  predicate Alike(b: Book, dir: int, views: seq<View>)
    requires b.cursor.Some?
    decreases |views|
  {
    views == []
    || (SameOrder(Between(b.events, b.cursor.value, views[0].at), dir, Direction(b.core.share))
        && Alike(Walk(b, views[0], true).0, dir, views[1..]))
  }

  /** What stepping needs of its views: in order, each matching the known executions. */
  predicate Steppable(b: Book, views: seq<View>)
    requires b.cursor.Some?
  {
    && Held(b.core, b.leg) && Ids(b.events) && views != [] && Increasing(views)
    && forall v :: v in views ==> Matches(b, v)
  }

  /** Behind its first stop the rest is steppable, and nothing is left to cap. */
  lemma SteppableRest(b: Book, views: seq<View>)
    requires b.cursor.Some? && Steppable(b, views)
    ensures Matches(b, views[0]) && Matches(b, views[|views| - 1])
    ensures var s := Walk(b, views[0], true).0;
            && Held(s.core, s.leg) && Calm(s.core, s.leg) && s.cursor == Some(views[0].at)
            && (|views| > 1 ==> views[0].at < views[|views| - 1].at && Steppable(s, views[1..])
                                && views[1..][|views| - 2] == views[|views| - 1])
            && (|views| > 1 ==> Between(s.events, views[0].at, views[|views| - 1].at)
                                == Between(b.events, views[0].at, views[|views| - 1].at))
  {
    hide Held, Calm, Matches, Walk, Between, Ended, WalkEvents, Ids;
    var first, last, s := views[0], views[|views| - 1], Walk(b, views[0], true).0;
    assert first in views && last in views;
    WalkIsAs(b, first);
    WalkEnds(b, first, Direction(b.core.share));
    CursorBefore(b, first);
    OutsidePlaced(b.events, b.cursor.value, first.at);
    if |views| > 1 {
      forall v | v in views[1..]
        ensures Matches(s, v)
      {
        assert v in views && first.at < v.at;
        MatchAfter(b, first, v);
      }
      OutsideTwice(b.events, b.cursor.value, first.at, last.at);
    }
  }

  lemma StepFirst(b: Book, views: seq<View>)
    requires b.cursor.Some? && views != []
    ensures var s := Walk(b, views[0], true);
            StepThrough(b, views)
            == (StepThrough(s.0, views[1..]).0, s.1 + StepThrough(s.0, views[1..]).1)
  {
  }

  lemma StepLast(b: Book, views: seq<View>)
    requires b.cursor.Some? && |views| == 1
    ensures StepThrough(b, views) == Walk(b, views[0], true)
  {
    hide Walk;
    var s := Walk(b, views[0], true);
    assert views[1..] == [] && s.1 + [] == s.1;
  }

  lemma AlikeFirst(b: Book, dir: int, views: seq<View>)
    requires b.cursor.Some? && views != []
    ensures Alike(b, dir, views)
            <==> SameOrder(Between(b.events, b.cursor.value, views[0].at), dir, Direction(b.core.share))
                 && Alike(Walk(b, views[0], true).0, dir, views[1..])
    ensures Alike(b, dir, [])
  {
  }

  /** Ranked alike throughout, the jump is the walk through all of them, when the first stop
      caps nothing. */
  lemma {:induction false} AlikeJumps(b: Book, dir: int, views: seq<View>)
    requires b.cursor.Some? && Steppable(b, views) && Alike(b, dir, views)
    requires Calm(b.core, b.leg) || Between(b.events, b.cursor.value, views[0].at) != []
    ensures WalkAs(b, views[|views| - 1], dir) == StepThrough(b, views)
    decreases |views|
  {
    hide Walk, WalkAs, Alike, SameOrder, StepThrough, Held, Calm, Matches, Between, SortDue, Steppable;
    HeldIn(b, views);
    var first, last, own := views[0], views[|views| - 1], Direction(b.core.share);
    AlikeFirst(b, dir, views);
    SameWalk(b, first, dir);
    if |views| == 1 {
      StepLast(b, views);
    } else {
      var s := Walk(b, first, true);
      SteppableRest(b, views);
      SomeDue(b, first, dir);
      SplitWalk(b, first, last, dir);
      AlikeJumps(s.0, dir, views[1..]);
      StepFirst(b, views);
    }
  }

  lemma HeldIn(b: Book, views: seq<View>)
    requires b.cursor.Some? && Steppable(b, views)
    ensures Held(b.core, b.leg) && Ids(b.events) && views != []
  {
  }

  lemma SameWalk(b: Book, view: View, dir: int)
    requires b.cursor.Some?
    requires SameOrder(Between(b.events, b.cursor.value, view.at), dir, Direction(b.core.share))
    ensures WalkAs(b, view, dir) == Walk(b, view, true)
  {
    hide WalkEvents, SortDue, Between, Ended, Walk, SameOrder, Outside, AtLeast;
    WalkIsAs(b, view);
    SortSame(Between(b.events, b.cursor.value, view.at), dir, Direction(b.core.share));
  }

  lemma SomeDue(b: Book, view: View, dir: int)
    requires b.cursor.Some?
    ensures DueAs(b, view, dir) != [] <==> Between(b.events, b.cursor.value, view.at) != []
  {
  }

  lemma InsertSize(e: LegEvent, s: seq<LegEvent>, dir: int)
    ensures |Foreigns(Insert(e, s, dir))| == |Foreigns(s)| + if e.own then 0 else 1
  {
  }

  lemma SortSize(s: seq<LegEvent>, dir: int)
    ensures |Foreigns(SortDue(s, dir))| == |Foreigns(s)|
  {
    if s == [] {
    } else {
      SortSize(s[1..], dir);
      InsertSize(s[0], SortDue(s[1..], dir), dir);
    }
  }

  lemma IdsOnce(s: seq<LegEvent>, lo: int, hi: int)
    requires Ids(s)
    ensures Once(Between(s, lo, hi))
  {
    if s == [] {
    } else {
      var rest := Between(s[1..], lo, hi);
      assert Ids(s[1..]) by { assert forall i :: 0 <= i < |s| - 1 ==> s[1..][i] == s[i + 1]; }
      IdsOnce(s[1..], lo, hi);
      if lo < s[0].at <= hi {
        BetweenIn(s[1..], lo, hi);
        forall x | x in s[1..]
          ensures x.execId != s[0].execId
        {
          var k :| 0 <= k < |s[1..]| && s[1..][k] == x;
          assert s[k + 1] == x;
        }
        OnceCons(s[0], rest);
      }
    }
  }

  lemma OnceCons(e: LegEvent, s: seq<LegEvent>)
    requires Once(s) && e !in s
    ensures Once([e] + s)
  {
  }

  lemma SplitNames(a: seq<LegEvent>, b: seq<LegEvent>, x: seq<LegEvent>, y: seq<LegEvent>)
    requires a + b == x + y && |a| == |x|
    ensures a == x && b == y
  {
    assert a == (a + b)[..|a|] && x == (x + y)[..|x|];
    assert b == (a + b)[|a|..] && y == (x + y)[|x|..];
  }

  /** Naming the foreign executions in the order of one side throughout is ranking alike
      throughout. */
  lemma {:induction false} NamesAlike(b: Book, dir: int, views: seq<View>)
    requires b.cursor.Some? && Steppable(b, views)
    requires Foreigns(DueAs(b, views[|views| - 1], dir)) == Named(Verdicts(StepThrough(b, views).1))
    ensures Alike(b, dir, views)
    decreases |views|
  {
    hide Walk, WalkAs, Alike, SameOrder, StepThrough, Held, Calm, Matches, Between, SortDue, Steppable;
    hide Foreigns, Named, Verdicts, Once;
    HeldIn(b, views);
    var first, last, own := views[0], views[|views| - 1], Direction(b.core.share);
    var seg := Between(b.events, b.cursor.value, first.at);
    IdsOnce(b.events, b.cursor.value, first.at);
    WalkIsAs(b, first);
    WalkNames(b, first, own);
    AlikeFirst(b, dir, views);
    if |views| == 1 {
      StepLast(b, views);
      ForeignOrder(seg, dir, own);
      assert views[1..] == [];
      AlikeFirst(Walk(b, first, true).0, dir, views);
    } else {
      var s := Walk(b, first, true);
      var r := StepThrough(s.0, views[1..]);
      StepFirst(b, views);
      SteppableRest(b, views);
      CursorBefore(b, first);
      VerdictsOfSum(s.1, r.1);
      NamedAppend(Verdicts(s.1), Verdicts(r.1));
      SortSplit(b.events, b.cursor.value, first.at, last.at, dir);
      ForeignsAppend(SortDue(seg, dir), SortDue(Between(b.events, first.at, last.at), dir));
      SortSize(seg, dir);
      SortSize(seg, own);
      SplitNames(Foreigns(SortDue(seg, dir)), Foreigns(SortDue(Between(b.events, first.at, last.at), dir)),
                 Foreigns(SortDue(seg, own)), Named(Verdicts(r.1)));
      ForeignOrder(seg, dir, own);
      NamesAlike(s.0, dir, views[1..]);
    }
  }

  // ---- Exactly when it is the same ------------------------------------------------------------------------

  /** Stopping on the first of the views caps no doubt that the walk to the last would keep:
      it comes behind some execution, or the executions behind it use the doubt up as well. */
  predicate StopIdle(b: Book, first: View, last: View)
    requires b.cursor.Some?
  {
    Between(b.events, b.cursor.value, first.at) == [] ==> Idle(b.core, b.leg, Due(b, last))
  }

  /** The ledger with its doubt capped where it stands. */
  function CappedBook(b: Book): Book { b.(core := CapDoubt(b.core)) }

  lemma CappedCalm(b: Book)
    requires CoreInv(b.core, b.leg)
    ensures var k := CappedBook(b);
            && Calm(k.core, k.leg) && Held(k.core, k.leg) && k.core.share == b.core.share
            && NoteRoom(CapDoubt(b.core), b.leg) == CapDoubt(b.core) && CoreInvDoubt(b.core)
  {
    hide CapDoubt;
    CapTwice(b.core);
    var c := CapDoubt(b.core);
    NotedAlready(c, b.leg);
  }

  lemma NotedAlready(c: Core, leg: int)
    requires RoomOk(c, leg)
    ensures NoteRoom(c, leg) == c
  {
  }

  /** Without an execution before it, the first stop is capping the doubt where it stands. */
  lemma EmptyStop(b: Book, views: seq<View>)
    requires b.cursor.Some? && Steppable(b, views) && CoreInv(b.core, b.leg)
    requires Between(b.events, b.cursor.value, views[0].at) == []
    ensures var k := CappedBook(b);
            && Steppable(k, views) && StepThrough(k, views) == StepThrough(b, views)
            && forall dir :: Alike(k, dir, views) <==> Alike(b, dir, views)
  {
    hide StepThrough, Alike, Calm, Held, Between, CapDoubt, SumDelta, Walk, Steppable, SameOrder;
    var k := CappedBook(b);
    CappedCalm(b);
    SteppableSame(b, k, views);
    HeldIn(b, views);
    SteppableRest(b, views);
    SteppableRest(k, views);
    EmptyWalk(b, views[0]);
    CapTwice(b.core);
    assert RoomOk(k.core, k.leg);
    EmptyWalk(k, views[0]);
    StepFirst(b, views);
    StepFirst(k, views);
    forall dir
      ensures Alike(k, dir, views) <==> Alike(b, dir, views)
    {
      AlikeFirst(b, dir, views);
      AlikeFirst(k, dir, views);
    }
  }

  lemma SteppableSame(b: Book, k: Book, views: seq<View>)
    requires b.cursor.Some? && k.cursor == b.cursor && k.events == b.events && k.leg == b.leg
    requires Steppable(b, views) && Held(k.core, k.leg)
    ensures Steppable(k, views)
  {
  }

  lemma EmptyWalk(b: Book, view: View)
    requires b.cursor.Some? && Matches(b, view) && Held(b.core, b.leg) && RoomOk(b.core, b.leg)
    requires Between(b.events, b.cursor.value, view.at) == []
    ensures Walk(b, view, true)
            == (b.(events := Outside(b.events, b.cursor.value, view.at), cursor := Some(view.at),
                   leg := view.size, views := AtLeast(b.views, view.at), core := CapDoubt(b.core)), [])
  {
    hide CapDoubt, Outside, AtLeast, Between;
    LimitsAreToward(b.core.share, view.size);
    assert SortDue([], Direction(b.core.share)) == [] && SumDelta([]) == 0;
    assert b.core.(share := Capped(b.core.share, view.size)) == b.core;
    NotedAlready(CapDoubt(b.core), b.leg);
  }

  /** The jump from a ledger and from the same with its doubt capped. */
  lemma CappedJump(b: Book, view: View, dir: int)
    requires b.cursor.Some? && CoreInv(b.core, b.leg) && Matches(b, view)
    ensures WalkAs(b, view, dir) == WalkAs(CappedBook(b), view, dir) <==> Idle(b.core, b.leg, DueAs(b, view, dir))
  {
    hide WalkEvents, SortDue, Between, Calm, Held, CapDoubt, Idle, Outside, AtLeast, Ended, SumDelta, CoreInv;
    var k, due := CappedBook(b), DueAs(b, view, dir);
    CappedCalm(b);
    InvHeld(b.core, b.leg);
    assert Matches(k, view);
    WalkEnds(b, view, dir);
    WalkEnds(k, view, dir);
    if due == [] {
      WalkNone(b.core, b.leg, true);
      WalkNone(k.core, k.leg, true);
      CapTwice(b.core);
      IdleNone(b.core, b.leg);
    } else {
      CapFirst(b.core, b.leg, due);
      SameLeg(b, k, due);
    }
  }

  lemma InvHeld(c: Core, leg: int)
    requires CoreInv(c, leg)
    ensures Held(c, leg)
  {
  }

  lemma IdleNone(c: Core, leg: int)
    ensures Idle(c, leg, [])
  {
  }

  lemma SameLeg(b: Book, k: Book, due: seq<LegEvent>)
    requires b.leg == k.leg
    ensures WalkEvents(b.core, b.leg, due, true).leg == WalkEvents(k.core, k.leg, due, true).leg
  {
    WalkLeg(b.core, b.leg, due, true);
    WalkLeg(k.core, k.leg, due, true);
  }

  /** Jumping to the last of any matching views is walking through all of them if and only if
      every interval between them is ranked alike by the side held at the start and the side
      held where it begins, and the first stop caps no doubt the jump would keep. */
  lemma JumpExactly(b: Book, views: seq<View>)
    requires Inv(b) && b.cursor.Some? && views != [] && Increasing(views)
    requires forall v :: v in views ==> Matches(b, v)
    ensures Walk(b, views[|views| - 1], true) == StepThrough(b, views)
            <==> Alike(b, Direction(b.core.share), views) && StopIdle(b, views[0], views[|views| - 1])
  {
    hide Walk, WalkAs, Alike, StepThrough, Held, Calm, Matches, Between, SortDue, CoreInv, Increasing, Ids;
    hide Foreigns, Named, Verdicts, Idle;
    var first, last, dir := views[0], views[|views| - 1], Direction(b.core.share);
    assert last in views;
    InvHeld(b.core, b.leg);
    assert Steppable(b, views);
    WalkIsAs(b, last);
    WalkNames(b, last, dir);
    if Walk(b, last, true) == StepThrough(b, views) {
      NamesAlike(b, dir, views);
    }
    if Alike(b, dir, views) {
      if Between(b.events, b.cursor.value, first.at) != [] {
        AlikeJumps(b, dir, views);
      } else {
        CappedCalm(b);
        EmptyStop(b, views);
        AlikeJumps(CappedBook(b), dir, views);
        CappedJump(b, last, dir);
      }
    }
  }

  /** One view stopped on. */
  lemma JumpEqualsStepExactly(b: Book, mid: View, view: View)
    requires Inv(b) && b.cursor.Some? && Matches(b, mid) && Matches(b, view) && mid.at < view.at
    ensures var s := Walk(b, mid, true);
            var t := Walk(s.0, view, true);
            Walk(b, view, true) == (t.0, s.1 + t.1)
            <==> SameOrder(Between(b.events, mid.at, view.at), Direction(b.core.share), Direction(s.0.core.share))
                 && StopIdle(b, mid, view)
  {
    hide Walk, Alike, StepThrough, Matches, Between, Inv, SameOrder, StopIdle;
    var views, s := [mid, view], Walk(b, mid, true);
    assert views[1..] == [view];
    JumpExactly(b, views);
    StepFirst(b, views);
    StepLast(s.0, [view]);
    AlikeFirst(b, Direction(b.core.share), views);
    AlikeFirst(s.0, Direction(b.core.share), [view]);
    assert [view][1..] == [];
    AlikeFirst(Walk(s.0, view, true).0, Direction(b.core.share), [view]);
    SameSide(Between(b.events, b.cursor.value, mid.at), Direction(b.core.share));
    CursorBefore(b, mid);
    EventsAfter(b, mid);
    OutsideTwice(b.events, b.cursor.value, mid.at, view.at);
  }

  lemma SameSide(s: seq<LegEvent>, dir: int)
    ensures SameOrder(s, dir, dir)
  {
  }

  // ---- Conditions one can see at once -------------------------------------------------------------------------

  lemma NoClashSame(s: seq<LegEvent>, d1: int, d2: int)
    requires NoClash(s)
    ensures SameOrder(s, d1, d2)
  {
  }

  lemma {:induction false} NoClashAlike(b: Book, dir: int, views: seq<View>)
    requires b.cursor.Some? && Steppable(b, views)
    requires NoClash(Between(b.events, b.cursor.value, views[|views| - 1].at))
    ensures Alike(b, dir, views)
    decreases |views|
  {
    hide Walk, Alike, SameOrder, Held, Calm, Matches, Between, NoClash, Steppable;
    HeldIn(b, views);
    var first, last := views[0], views[|views| - 1];
    SteppableRest(b, views);
    AlikeFirst(b, dir, views);
    CursorBefore(b, first);
    if |views| == 1 {
      assert views[1..] == [];
      AlikeFirst(Walk(b, first, true).0, dir, views);
    } else {
      ClashFirst(b.events, b.cursor.value, first.at, last.at);
      ClashPart(b.events, b.cursor.value, first.at, last.at);
      NoClashAlike(Walk(b, first, true).0, dir, views[1..]);
    }
    NoClashSame(Between(b.events, b.cursor.value, first.at), dir, Direction(b.core.share));
  }

  lemma ClashFirst(s: seq<LegEvent>, lo: int, mid: int, hi: int)
    requires lo <= mid <= hi && NoClash(Between(s, lo, hi))
    ensures NoClash(Between(s, lo, mid))
  {
    BetweenAll(s, lo, hi);
    BetweenIn(s, lo, mid);
  }

  /** A doubt within the share whose gaps are too is capped by no stop. */
  lemma WithinIsIdle(c: Core, leg: int, due: seq<LegEvent>)
    requires c.doubt <= Abs(c.share) && forall i :: 0 <= i < |c.gaps| ==> c.gaps[i].doubt <= Abs(c.share)
    ensures Idle(c, leg, due)
  {
  }

  /** It is the same whenever no two foreign executions of one sequence move the leg in opposite
      directions, and an execution precedes the first stop or the doubts are within the share. */
  lemma JumpEqualsSteps(b: Book, views: seq<View>)
    requires Inv(b) && b.cursor.Some? && views != [] && Increasing(views)
    requires forall v :: v in views ==> Matches(b, v)
    requires NoClash(Between(b.events, b.cursor.value, views[|views| - 1].at))
    requires Between(b.events, b.cursor.value, views[0].at) != []
             || (b.core.doubt <= Abs(b.core.share)
                 && forall i :: 0 <= i < |b.core.gaps| ==> b.core.gaps[i].doubt <= Abs(b.core.share))
    ensures Walk(b, views[|views| - 1], true) == StepThrough(b, views)
  {
    hide Walk, Alike, StepThrough, Matches, Between, NoClash, Idle, CoreInv;
    JumpExactly(b, views);
    InvHeld(b.core, b.leg);
    NoClashAlike(b, Direction(b.core.share), views);
    if Between(b.events, b.cursor.value, views[0].at) == [] {
      WithinIsIdle(b.core, b.leg, Due(b, views[|views| - 1]));
    }
  }

  // ---- The judging loop's target ----------------------------------------------------------------------------------

  /** The views up to the one judging jumps to: each of them matches. */
  function Matched(b: Book, later: seq<View>, known: set<int>): seq<View>
    requires b.cursor.Some?
  {
    if later == [] || ExpectedLeg(b, later[0].at) != later[0].size || later[0].at !in known then []
    else [later[0]] + Matched(b, later[1..], known)
  }

  lemma MatchedUpTo(b: Book, later: seq<View>, known: set<int>)
    requires b.cursor.Some? && forall v :: v in later ==> b.cursor.value < v.at
    ensures var m := Matched(b, later, known);
            && m <= later
            && (forall v :: v in m ==> Matches(b, v) && v.at in known)
            && Target(b, later, known) == if m == [] then None else Some(m[|m| - 1])
  {
  }

  lemma PrefixIncreasing(m: seq<View>, later: seq<View>)
    requires m <= later && Increasing(later)
    ensures Increasing(m)
  {
  }

  /** The judging loop's jump onto its target is the walk through every matching view exactly
      then, whatever state the loop finds the ledger in. */
  lemma TargetIsStepping(b: Book, later: seq<View>, known: set<int>)
    requires Inv(b) && b.cursor.Some?
    requires (forall v :: v in later ==> b.cursor.value < v.at) && Increasing(later)
    requires Target(b, later, known).Some?
    ensures var m := Matched(b, later, known);
            && m != [] && Target(b, later, known) == Some(m[|m| - 1])
            && (Walk(b, m[|m| - 1], true) == StepThrough(b, m)
                <==> Alike(b, Direction(b.core.share), m) && StopIdle(b, m[0], m[|m| - 1]))
  {
    hide Walk, Alike, Matches, Increasing, Target, Matched, StepThrough, StopIdle, Inv;
    MatchedUpTo(b, later, known);
    PrefixIncreasing(Matched(b, later, known), later);
    JumpExactly(b, Matched(b, later, known));
  }

  // ---- Where it is not ------------------------------------------------------------------------------------------

  /** A long of one; an own reversal to one short; then someone's buy and sell of one sequence. */
  predicate Clash(b: Book, own: LegEvent, buy: LegEvent, sell: LegEvent) {
    && b.events == [own, buy, sell] && b.cursor == Some(0) && b.leg == 1
    && b.core.share == 1 && b.core.journal == 1 && b.core.doubt == 0 && b.core.gaps == []
    && b.core.room == map[1 := 0, -1 := 0]
    && own.at == 1 && own.own && own.delta == -2 && own.share == -2
    && buy.at == 2 && !buy.own && buy.delta == 1
    && sell.at == 2 && !sell.own && sell.delta == -1
  }

  lemma OneDue(x: LegEvent, dir: int, r: Ref)
    ensures SumDelta([x]) == x.delta && SortDue([x], dir) == [x] && Fold(r, [x]) == RefStep(r, x)
  {
  }

  lemma TwoDue(x: LegEvent, y: LegEvent, dir: int, r: Ref)
    ensures SumDelta([x, y]) == x.delta + y.delta
    ensures SortDue([x, y], dir) == if RankLeq(x, y, dir) then [x, y] else [y, x]
    ensures Fold(r, [x, y]) == RefStep(RefStep(r, x), y)
  {
    hide RefStep, RankLeq;
    assert [x, y][1..] == [y] && [x, y][0] == x;
    OneDue(y, dir, RefStep(r, x));
    assert [y][1..] == [];
    assert Insert(x, [y], dir) == if RankLeq(x, y, dir) then [x, y] else [y, x];
  }

  /** The walk order of the clash, before and after the run's side turned. */
  lemma ClashOrder(b: Book, own: LegEvent, buy: LegEvent, sell: LegEvent, mid: View, end: View)
    requires Clash(b, own, buy, sell) && mid.at == 1 && end.at == 2 && mid.size == -1 && end.size == -1
    ensures Due(b, mid) == [own] && Due(b, end) == [own, buy, sell]
    ensures SortDue(Between(b.events, mid.at, end.at), -1) == [sell, buy]
    ensures Matches(b, mid) && Matches(b, end)
  {
    hide SortDue, SumDelta;
    var s := b.events;
    assert s[1..] == [buy, sell] && s[1..][1..] == [sell] && s[1..][1..][1..] == [];
    BetweenThree(own, buy, sell, 0, mid.at);
    BetweenThree(own, buy, sell, 0, end.at);
    BetweenThree(own, buy, sell, mid.at, end.at);
    assert Between(s, 0, mid.at) == [own];
    assert Between(s, 0, end.at) == s;
    assert Between(s, mid.at, end.at) == [buy, sell];
    OneDue(own, 1, RefOf(b.core, 1));
    TwoDue(buy, sell, 1, RefOf(b.core, 1));
    TwoDue(buy, sell, -1, RefOf(b.core, 1));
    SumFirst(s);
    SortFirst(s, 1);
    assert Insert(own, [buy, sell], 1) == s;
  }

  lemma BetweenThree(x: LegEvent, y: LegEvent, z: LegEvent, lo: int, hi: int)
    ensures Between([x, y, z], lo, hi)
            == (if lo < x.at <= hi then [x] else []) + (if lo < y.at <= hi then [y] else [])
               + (if lo < z.at <= hi then [z] else [])
  {
    assert [x, y, z][1..] == [y, z] && [y, z][1..] == [z] && [z][1..] == [];
    assert Between([z], lo, hi) == if lo < z.at <= hi then [z] else [];
    assert Between([y, z], lo, hi)
           == (if lo < y.at <= hi then [y] else []) + (if lo < z.at <= hi then [z] else []);
  }

  lemma SortFirst(s: seq<LegEvent>, dir: int)
    requires s != []
    ensures SortDue(s, dir) == Insert(s[0], SortDue(s[1..], dir), dir)
  {
  }

  lemma ClashFolds(r: Ref, own: LegEvent, buy: LegEvent, sell: LegEvent)
    requires own.own && own.delta == -2 && own.share == -2
    requires !buy.own && buy.delta == 1 && !sell.own && sell.delta == -1
    requires r.leg == 1 && r.share == 1 && r.journal == 1
    ensures Fold(r, [own]).leg == -1 && Fold(r, [own]).share == -1 && Fold(r, [own]).journal == -1
    ensures Fold(r, [own, buy, sell]).share == 0
    ensures Fold(Fold(r, [own]), [sell, buy]).share == -1
  {
    hide Fold;
    var s := RefStep(r, own);
    OneDue(own, 1, r);
    TwoDue(buy, sell, 1, s);
    TwoDue(sell, buy, 1, s);
    FoldFirst(r, [own, buy, sell]);
    assert [own, buy, sell][1..] == [buy, sell];
  }

  /** With opposite foreign executions of one sequence the claim fails once the run's
      side turns before them: jumping charges the run, stepping does not. */
  lemma ClashingOrderMatters(b: Book, own: LegEvent, buy: LegEvent, sell: LegEvent, mid: View, end: View)
    requires Clash(b, own, buy, sell) && mid == View(1, -1) && end == View(2, -1)
    ensures Matches(b, mid) && Matches(b, end)
    ensures Walk(b, end, true).0.core.share == 0
    ensures Walk(Walk(b, mid, true).0, end, true).0.core.share == -1
  {
    hide Walk, CapDoubt, Fold, Charges, Due, Between, SortDue, Matches, SumDelta;
    ClashOrder(b, own, buy, sell, mid, end);
    ClashFolds(RefOf(b.core, b.leg), own, buy, sell);
    ProvenWalkIsFold(b, mid);
    ProvenWalkIsFold(b, end);
    var s := Walk(b, mid, true).0;
    MatchAfter(b, mid, end);
    ProvenWalkIsFold(s, end);
  }

  /** Such a ledger, as a run may reach it. */
  lemma ClashInput() returns (b: Book, mid: View, end: View)
    ensures Inv(b) && b.cursor.Some? && mid.at < end.at && Matches(b, mid) && Matches(b, end)
    ensures StopIdle(b, mid, end)
    ensures Walk(b, end, true).0.core.share == 0
    ensures Walk(Walk(b, mid, true).0, end, true).0.core.share == -1
  {
    hide Walk, Matches, Between, SortDue, CapDoubt, Idle, SumDelta;
    var own := LegEvent("own", 1, -2, true, -2, 0, User);
    var buy := LegEvent("buy", 2, 1, false, 0, 0, User);
    var sell := LegEvent("sell", 2, -1, false, 0, 0, User);
    mid, end := View(1, -1), View(2, -1);
    b := Book([], [own, buy, sell], Some(0), Some(0), 1, None, 2, None, Some(0),
              Core(1, 1, 0, 0, [], map[1 := 0, -1 := 0], [], map[]));
    ClashingOrderMatters(b, own, buy, sell, mid, end);
    WithinIsIdle(b.core, b.leg, Due(b, end));
  }

  /** A flat run whose doubt outlived the share a give-up clamped to nothing, and an own open. */
  predicate Outlived(b: Book, own: LegEvent) {
    && b.cursor == Some(2) && b.leg == 0 && b.core.share == 0 && b.core.journal == 0
    && b.core.doubt == 5 && |b.core.gaps| == 1 && b.core.gaps[0].doubt == 5
    && b.core.room == map[1 := 0, -1 := 0]
    && b.events == [own] && own.at == 4 && own.own && own.delta == 3 && own.share == 3
  }

  /** Stopping on the view before the open forgets the doubt; jumping over it does not. */
  lemma StopForgetsDoubt(b: Book, own: LegEvent, mid: View, end: View)
    requires Inv(b) && Outlived(b, own) && mid == View(3, 0) && end == View(4, 3)
    ensures Matches(b, mid) && Matches(b, end)
    ensures SameOrder(Between(b.events, mid.at, end.at), 0, 0)
    ensures Walk(b, end, true).0.core.share == 3 && Walk(b, end, true).0.core.doubt == 3
    ensures var t := Walk(Walk(b, mid, true).0, end, true).0.core; t.share == 3 && t.doubt == 0
  {
    hide Walk, CapDoubt, Between, SortDue, SumDelta, CoreInv, WalkEvents, RefStep;
    OneBetween(own, 2, 3);
    OneBetween(own, 2, 4);
    OneBetween(own, 3, 4);
    OneDue(own, 0, RefOf(b.core, 0));
    NoDue();
    InvHeld(b.core, 0);
    EmptyWalkOf(b, mid);
    OneWalk(b, own, end);
    var s := Walk(b, mid, true).0;
    CappedCalm(b);
    CapShape(b.core);
    OneWalk(s, own, end);
  }

  lemma NoDue()
    ensures SumDelta([]) == 0
  {
  }

  lemma OneBetween(x: LegEvent, lo: int, hi: int)
    ensures Between([x], lo, hi) == if lo < x.at <= hi then [x] else []
  {
  }

  lemma EmptyWalkOf(b: Book, mid: View)
    requires b.cursor.Some? && CoreInv(b.core, b.leg) && Matches(b, mid)
    requires Between(b.events, b.cursor.value, mid.at) == []
    ensures var s := Walk(b, mid, true).0;
            s.core == CapDoubt(b.core) && s.leg == mid.size && s.cursor == Some(mid.at)
            && s.events == Outside(b.events, b.cursor.value, mid.at)
  {
    hide CapDoubt, Outside, AtLeast, Between, Walk;
    InvHeld(b.core, b.leg);
    EmptyWalk(b, mid);
  }

  /** The walk of one own open from nothing. */
  lemma OneWalk(b: Book, own: LegEvent, end: View)
    requires b.cursor.Some? && b.events == [own] && b.cursor.value < own.at <= end.at
    requires own.own && own.delta == own.share == end.size && end.size > 0
    requires b.leg == 0 && b.core.share == 0 && b.core.journal == 0 && b.core.doubt >= 0
    ensures var c := Walk(b, end, true).0.core;
            c.share == end.size && c.doubt == Min(b.core.doubt, end.size)
  {
    hide Walk, CapDoubt, WalkEvents, SortDue, Between, SumDelta;
    var r := RefOf(b.core, 0);
    OneBetween(own, b.cursor.value, end.at);
    OneDue(own, 0, r);
    assert Matches(b, end);
    ProvenWalkIsFold(b, end);
    WalkIsAs(b, end);
    WalkEnds(b, end, 0);
    WalkDoubt(b.core, 0, [own]);
  }

  /** Such a ledger satisfies the invariant. */
  lemma OutlivedInput() returns (b: Book, own: LegEvent)
    ensures Inv(b) && Outlived(b, own)
  {
    own := LegEvent("own", 4, 3, true, 3, 0, User);
    var gap := LegGap(Some(0), 1, 5, 5, 5, 5, 0, [], {}, 5, false);
    b := Book([View(2, 0), View(3, 0), View(4, 3)], [own], Some(2), Some(0), 0, None, 4, None, Some(2),
              Core(0, 0, 5, 1, [], map[1 := 0, -1 := 0], [gap], map[]));
    OneDoubtGap(b.core.gaps, gap);
  }

  lemma OneDoubtGap(gaps: seq<LegGap>, gap: LegGap)
    requires gaps == [gap]
    ensures GapDoubt(gaps) == gap.doubt
  {
  }
}

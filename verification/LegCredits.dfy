// Credits are drawn exactly: what a late reduce does not net again is what a clamp
// netted ahead of it, and no credit is drawn twice.

module LegCredits {
  import opened Common
  import opened LegTypes
  import opened LegBook
  import opened LegFold
  import opened LegInvariant
  import opened LegRuns

  /** The credits a reduce at `at` on side `dir` cannot draw on. */
  function Others(credits: seq<Credit>, at: int, dir: int): seq<Credit> {
    if credits == [] then []
    else if !Eligible(credits[0], at, dir) && credits[0].qty > 0
    then [credits[0]] + Others(credits[1..], at, dir)
    else Others(credits[1..], at, dir)
  }

  function Total(credits: seq<Credit>): int {
    if credits == [] then 0 else credits[0].qty + Total(credits[1..])
  }

  predicate Stock(credits: seq<Credit>) {
    forall k :: k in credits ==> k.qty >= 0
  }

  lemma OpenNonneg(credits: seq<Credit>, at: int, dir: int)
    ensures OpenCredit(credits, at, dir) >= 0
  {
  }

  lemma {:induction false} DrawExact(credits: seq<Credit>, at: int, quantity: int, dir: int)
    requires Stock(credits) && quantity >= 0
    ensures var r := Draw(credits, at, quantity, dir);
            && r.1 == Min(quantity, OpenCredit(credits, at, dir))
            && OpenCredit(r.0, at, dir) == OpenCredit(credits, at, dir) - r.1
            && Others(r.0, at, dir) == Others(credits, at, dir)
            && Total(r.0) == Total(credits) - r.1
            && Stock(r.0)
  {
    OpenNonneg(credits, at, dir);
    if credits != [] && quantity > 0 {
      OpenNonneg(credits[1..], at, dir);
      var part := if Eligible(credits[0], at, dir) then Min(credits[0].qty, quantity) else 0;
      DrawExact(credits[1..], at, quantity - part, dir);
      var rest := Draw(credits[1..], at, quantity - part, dir).0;
      var r := Draw(credits, at, quantity, dir).0;
      assert r == [credits[0].(qty := credits[0].qty - part)] + rest;
      assert r[1..] == rest;
    }
  }

  lemma PositiveSame(credits: seq<Credit>, at: int, dir: int)
    requires Stock(credits)
    ensures var p := Positive(credits);
            && OpenCredit(p, at, dir) == OpenCredit(credits, at, dir)
            && Others(p, at, dir) == Others(credits, at, dir)
            && Total(p) == Total(credits) && Stock(p)
  {
  }

  /** A late reduce draws exactly the open credit up to its quantity; the open credit
      falls by exactly that, and every other credit stays as it is. */
  lemma TakeExact(credits: seq<Credit>, at: int, quantity: int, dir: int)
    requires Stock(credits) && quantity >= 0
    ensures var r := TakeCredit(credits, at, quantity, dir);
            && r.1 == Min(quantity, OpenCredit(credits, at, dir))
            && OpenCredit(r.0, at, dir) == OpenCredit(credits, at, dir) - r.1
            && Others(r.0, at, dir) == Others(credits, at, dir)
            && Total(r.0) == Total(credits) - r.1
            && Stock(r.0)
  {
    DrawExact(credits, at, quantity, dir);
    PositiveSame(Draw(credits, at, quantity, dir).0, at, dir);
  }

  /** It spends no credit of the other side. */
  lemma {:induction false} DrawSpares(credits: seq<Credit>, at: int, quantity: int, dir: int, at': int, dir': int)
    requires Stock(credits) && quantity >= 0 && dir' != dir
    ensures var r := Draw(credits, at, quantity, dir).0;
            OpenCredit(r, at', dir') == OpenCredit(credits, at', dir') && Stock(r)
    decreases |credits|
  {
    if credits != [] && quantity > 0 {
      assert credits[0] in credits && forall k :: k in credits[1..] ==> k in credits;
      var part := if Eligible(credits[0], at, dir) then Min(credits[0].qty, quantity) else 0;
      DrawSpares(credits[1..], at, quantity - part, dir, at', dir');
      var t := Draw(credits[1..], at, quantity - part, dir).0;
      var k := credits[0].(qty := credits[0].qty - part);
      assert ([k] + t)[1..] == t;
    }
  }

  lemma TakeSpares(credits: seq<Credit>, at: int, quantity: int, dir: int, at': int, dir': int)
    requires Stock(credits) && quantity >= 0 && dir' != dir
    ensures OpenCredit(TakeCredit(credits, at, quantity, dir).0, at', dir') == OpenCredit(credits, at', dir')
  {
    DrawSpares(credits, at, quantity, dir, at', dir');
    PositiveSame(Draw(credits, at, quantity, dir).0, at', dir');
  }

  // ---- A run of clamps and reduces -----------------------------------------------------------------

  /** A credit issued by a clamp, or one late reduce. */
  datatype Deal = Issue(credit: Credit) | Draws(at: int, quantity: nat, dir: int)

  /** What is left of the credits after a run of clamps and late reduces, and all they drew. */
  function Deals(credits: seq<Credit>, deals: seq<Deal>): (seq<Credit>, int)
    decreases |deals|
  {
    if deals == [] then (credits, 0)
    else
      match deals[0]
      case Issue(k) => Deals(credits + [k], deals[1..])
      case Draws(at, quantity, dir) =>
        var t := TakeCredit(credits, at, quantity, dir);
        var r := Deals(t.0, deals[1..]);
        (r.0, t.1 + r.1)
  }

  function Issued(deals: seq<Deal>): int {
    if deals == [] then 0
    else (if deals[0].Issue? then deals[0].credit.qty else 0) + Issued(deals[1..])
  }

  lemma TotalAppend(credits: seq<Credit>, k: Credit)
    ensures Total(credits + [k]) == Total(credits) + k.qty
  {
    if credits == [] {
      assert credits + [k] == [k] && [k][1..] == [];
    } else {
      assert (credits + [k])[1..] == credits[1..] + [k];
      TotalAppend(credits[1..], k);
    }
  }

  lemma TotalNonneg(credits: seq<Credit>)
    requires Stock(credits)
    ensures Total(credits) >= 0
  {
  }

  /** Over any run of clamps and late reduces, what was drawn and what is left are
      together what the clamps issued: no credit is drawn twice. */
  lemma {:induction false} NeverOverdrawn(credits: seq<Credit>, deals: seq<Deal>)
    requires Stock(credits)
    requires forall d :: d in deals && d.Issue? ==> d.credit.qty >= 0
    ensures var r := Deals(credits, deals);
            && Total(r.0) + r.1 == Total(credits) + Issued(deals)
            && 0 <= r.1 <= Total(credits) + Issued(deals)
    decreases |deals|
  {
    TotalNonneg(credits);
    if deals == [] {
    } else {
      assert deals[0] in deals && forall d :: d in deals[1..] ==> d in deals;
      match deals[0] {
        case Issue(k) =>
          TotalAppend(credits, k);
          NeverOverdrawn(credits + [k], deals[1..]);
        case Draws(at, quantity, dir) =>
          TakeExact(credits, at, quantity, dir);
          OpenNonneg(credits, at, dir);
          NeverOverdrawn(TakeCredit(credits, at, quantity, dir).0, deals[1..]);
      }
    }
  }

  // ---- Over the runs of a ledger -------------------------------------------------------------------

  /** From `a` to `b`, up to sequence `at`: no more is credited than the verdicts took, and each
      new credit is stamped no later than that. */
  predicate Issues(a: Core, b: Core, at: int) {
    && Total(b.credits) - Total(a.credits) <= NetTotal(b) - NetTotal(a)
    && b.doubtSeq <= Max(a.doubtSeq, at)
    && forall k :: k in b.credits ==> k in a.credits || k.at <= Max(a.doubtSeq, at)
  }

  lemma IssuesThen(a: Core, b: Core, c: Core, at: int, end: int)
    requires Issues(a, b, at) && Issues(b, c, end) && at <= end
    ensures Issues(a, c, end)
  {
  }

  lemma IssuesNothing(a: Core, b: Core, at: int)
    requires b.credits == a.credits && b.toNet == a.toNet && b.doubtSeq <= Max(a.doubtSeq, at)
    ensures Issues(a, b, at)
  {
  }

  lemma TotalSplit(a: seq<Credit>, b: seq<Credit>)
    ensures Total(a + b) == Total(a) + Total(b)
  {
    if a == [] {
      assert a + b == b;
    } else {
      assert (a + b)[1..] == a[1..] + b;
      TotalSplit(a[1..], b);
    }
  }

  /** The eviction only ever lowers what is credited. */
  lemma LastTotal(credits: seq<Credit>)
    requires Stock(credits)
    ensures Total(LastCredits(credits)) <= Total(credits)
    ensures forall k :: k in LastCredits(credits) ==> k in credits
  {
    if |credits| > MAX_CREDITS {
      var n := |credits| - MAX_CREDITS;
      assert credits == credits[..n] + credits[n..];
      TotalSplit(credits[..n], credits[n..]);
      TotalNonneg(credits[..n]);
    }
  }

  lemma AddIssues(c: Core, at: int, quantity: int, dir: int)
    requires CreditsOk(c.credits)
    ensures var r := AddCredit(c, at, quantity, dir);
            && Total(r.credits) <= Total(c.credits) + Max(0, quantity)
            && forall k :: k in r.credits ==> k in c.credits || k.at == at
  {
    if quantity > 0 && dir != 0 {
      TotalAppend(c.credits, Credit(at, quantity, dir));
      LastTotal(c.credits + [Credit(at, quantity, dir)]);
    }
  }

  lemma OwnIssues(c: Core, leg: int, e: LegEvent, proven: bool, at: int)
    requires Books(c) && e.own && (proven ==> CoreInv(c, leg))
    ensures Issues(c, OwnStep(c, leg, e, proven).core, at)
  {
  }

  lemma ChargedCredits(c: Core, charge: (int, int))
    ensures ChargedCore(c, charge).credits
            == if charge.1 != 0 then AddCredit(c, c.doubtSeq, charge.1, Direction(c.share)).credits else c.credits
  {
  }

  lemma ForeignIssues(c: Core, leg: int, e: LegEvent, proven: bool, at: int)
    requires Books(c) && !e.own && (proven ==> CoreInv(c, leg))
    ensures Issues(c, ForeignStep(c, leg, e, proven).core, at)
  {
    hide ForeignStep, Charge, ChargedCore, CapDoubt, NoteRoom, Covered, NetTotal, Taken, Total, AddCredit;
    var charge := Charge(c, leg, e, proven);
    ForeignStepIs(c, leg, e, proven);
    ForeignKeeps(c, leg, e, proven);
    ChargeBounds(c, leg, e, proven);
    ChargedCredits(c, charge);
    AddIssues(c, c.doubtSeq, charge.1, Direction(c.share));
  }

  /** A walk credits no more than its verdicts took. */
  lemma {:induction false} WalkIssues(c: Core, leg: int, due: seq<LegEvent>, proven: bool, at: int)
    requires Books(c) && (proven ==> CoreInv(c, leg))
    ensures Issues(c, WalkEvents(c, leg, due, proven).core, at)
    decreases |due|
  {
    hide OwnStep, ForeignStep, Books, CoreInv, Issues, WalkEvents;
    if due == [] {
      WalkNone(c, leg, proven);
      IssuesNothing(c, c, at);
    } else {
      WalkFirst(c, leg, due, proven);
      var s := StepOf(c, leg, due[0], proven);
      if due[0].own {
        OwnKeeps(c, leg, due[0], proven);
        OwnIssues(c, leg, due[0], proven, at);
      } else {
        ForeignKeeps(c, leg, due[0], proven);
        ForeignIssues(c, leg, due[0], proven, at);
      }
      WalkIssues(s.core, s.leg, due[1..], proven, at);
      IssuesThen(c, s.core, WalkEvents(s.core, s.leg, due[1..], proven).core, at, at);
    }
  }

  lemma BookWalkIssues(b: Book, view: View, proven: bool)
    requires Inv(b) && b.cursor.Some?
    ensures Issues(b.core, Walk(b, view, proven).0.core, view.at)
  {
    hide WalkEvents, Issues, SortDue, Between, CapDoubt, NoteRoom, GapDoubt, Capped;
    var w := WalkEvents(b.core, b.leg, Due(b, view), proven).core;
    WalkIssues(b.core, b.leg, Due(b, view), proven, view.at);
    var r := Walk(b, view, proven).0.core;
    IssuesNothing(w, r, view.at);
    IssuesThen(b.core, w, r, view.at, view.at);
  }

  lemma ClampIssues(c: Core, first: View, gap: LegGap)
    requires Books(c) && GapOk(gap)
    ensures Issues(c, ClampTo(c, first, gap), first.at)
  {
    hide Books, NetTotal, CoreInv, Bal, Excess, HeldDoubt, NoteRoom, AddCredit, TakeJournal, Total;
    ClampKeeps(c, first, gap);
    ClampParts(c, first, gap);
    assert CreditsOk(c.credits) by { BooksCredits(c); }
    AddIssues(c, first.at, Excess(c.share, first.size), Direction(c.share));
    assert Excess(c.share, first.size) >= 0 by { ExcessNonneg(c.share, first.size); }
  }

  lemma BooksCredits(c: Core)
    requires Books(c)
    ensures CreditsOk(c.credits)
  {
  }

  lemma ExcessNonneg(share: int, size: int)
    ensures Excess(share, size) >= 0
  {
  }

  lemma ClampParts(c: Core, first: View, gap: LegGap)
    ensures var r := ClampTo(c, first, gap);
            && r.credits == AddCredit(c, first.at, Excess(c.share, first.size), Direction(c.share)).credits
            && r.doubtSeq <= Max(c.doubtSeq, first.at)
  {
  }

  lemma GiveUpIssues(b: Book, first: View)
    requires Inv(b) && b.cursor.Some? && b.cursor.value < first.at
    ensures Issues(b.core, GiveUp(b, first).0.core, first.at)
  {
    hide Walk, ClampTo, Issues, Books, CoreInv, Bal, NetTotal;
    WalkInv(b, first, false);
    BookWalkIssues(b, first, false);
    var c := Walk(b, first, false).0.core;
    OpenedOk(b, first);
    ClampIssues(c, first, OpenedGap(b, first));
    IssuesThen(b.core, c, GiveUp(b, first).0.core, first.at, first.at);
  }

  lemma {:induction false} JudgeIssues(b: Book, now: int, grace: int, known: set<int>, provable: bool)
    requires Inv(b) && b.cursor.Some?
    ensures var r := Judge(b, now, grace, known, provable).0;
            r.cursor.Some? && Issues(b.core, r.core, r.cursor.value)
    decreases |Later(b.views, b.cursor.value)|
  {
    hide Walk, GiveUp, Target, CoreInv, Placed, Issues, Owed, NetTotal, Taken;
    var later := Later(b.views, b.cursor.value);
    var target := if provable && later != [] then Target(b, later, known) else None;
    var since := if b.gapSince.None? then now else b.gapSince.value;
    JudgeInv(b, now, grace, known, provable);
    if later == [] {
      IssuesNothing(b.core, b.core, b.cursor.value);
    } else if target.Some? {
      var b0 := b.(gapSince := None);
      PlacedSame(b, b0);
      LaterAtLeast(b.views, b.cursor.value, target.value.at);
      WalkInv(b0, target.value, true);
      ViewsAfter(b0, target.value, true);
      BookWalkIssues(b0, target.value, true);
      var w := Walk(b0, target.value, true).0;
      JudgeInv(w, now, grace, known, provable);
      JudgeIssues(w, now, grace, known, provable);
      var r := Judge(w, now, grace, known, provable).0;
      IssuesThen(b.core, w.core, r.core, target.value.at, r.cursor.value);
    } else if now - since >= grace {
      var b0 := b.(gapSince := None);
      PlacedSame(b, b0);
      LaterAtLeast(b.views, b.cursor.value, later[0].at);
      assert later[0] in later;
      GiveUpInv(b0, later[0]);
      ViewsAfterGiveUp(b0, later[0]);
      GiveUpIssues(b0, later[0]);
      var g := GiveUp(b0, later[0]).0;
      JudgeInv(g, now, grace, known, provable);
      JudgeIssues(g, now, grace, known, provable);
      var r := Judge(g, now, grace, known, provable).0;
      IssuesThen(b.core, g.core, r.core, later[0].at, r.cursor.value);
    } else {
      IssuesNothing(b.core, b.core, b.cursor.value);
    }
  }

  lemma AdvanceIssues(b: Book, now: int, grace: int, known: set<int>, provable: bool)
    requires Inv(b) && b.cursor.Some?
    ensures var r := Advance(b, now, grace, known, provable).0;
            r.cursor.Some? && r.cursor.value >= b.cursor.value && Issues(b.core, r.core, r.cursor.value)
  {
    hide Judge, SettleGaps, Inv, Issues, Owed, NetTotal, Taken;
    SettleInv(b, known);
    AdvanceInv(b, now, grace, known, provable);
    var s := if provable then SettleGaps(b, known).0 else b;
    JudgeIssues(s, now, grace, known, provable);
    var r := Judge(s, now, grace, known, provable).0;
    IssuesNothing(b.core, s.core, r.cursor.value);
    IssuesThen(b.core, s.core, r.core, r.cursor.value, r.cursor.value);
  }

  lemma StartIssues(b: Book, journalShare: int)
    requires Inv(b) && b.cursor.None? && b.views != []
    ensures var r := Start(b, journalShare).0;
            r.cursor.Some? && Issues(b.core, r.core, r.cursor.value)
  {
    hide OwnBeyond, EventsBeyond, NoteSides, Capped, CapDoubt, AddGap, AddCredit, Total, Placed, Taken, Owed, NetTotal;
    StartInv(b, journalShare);
    NoNet(b.core);
    var v := b.views[|b.views| - 1];
    var share := journalShare - OwnBeyond(b.events, v.at);
    var clamped := Abs(share) - Abs(AnchorOn(b, v, share).core.share);
    StartReport(b, journalShare);
    AddIssues(b.core, v.at, clamped, Direction(share));
  }

  lemma StartReport(b: Book, journalShare: int)
    requires b.views != []
    ensures var v := b.views[|b.views| - 1];
            var share := journalShare - OwnBeyond(b.events, v.at);
            var clamped := Abs(share) - Abs(AnchorOn(b, v, share).core.share);
            var r := Start(b, journalShare);
            && Taken(if r.1.Some? then [r.1.value] else []) == Max(0, clamped)
            && r.0.core.credits == AddCredit(b.core, v.at, clamped, Direction(share)).credits
            && r.0.core.doubtSeq <= Max(b.core.doubtSeq, v.at) && r.0.cursor == Some(v.at)
  {
    hide OwnBeyond, EventsBeyond, NoteSides, Capped, CapDoubt, AddGap, LastCredits;
  }

  lemma SyncIssues(b: Book, journalShare: int)
    requires b.cursor.Some?
    ensures var r := SyncJournal(b, journalShare);
            r.cursor == b.cursor && Issues(b.core, r.core, b.cursor.value)
  {
  }

  lemma LateParts(c: Core, leg: int, cursor: int, blind: int, e: LegEvent)
    ensures var r := LateCore(c, leg, cursor, blind, e);
            && r.0.credits == (if r.1.Some?
                               then AddCredit(c, cursor, r.1.value.consumed,
                                              Direction(Bounded(c.share + e.share, c.journal + e.share))).credits
                               else c.credits)
            && r.0.doubtSeq <= Max(c.doubtSeq, blind)
            && (r.1.Some? ==> !r.1.value.settled && r.1.value.consumed > 0)
  {
    hide Bounded, CapDoubt, LateResolve, AddGap, LastCredits;
  }

  lemma LateIssues(b: Book, e: LegEvent)
    requires Inv(b) && b.cursor.Some? && b.blindSeq.Some?
    ensures Issues(b.core, LateOwn(b, e).0.core, b.cursor.value)
  {
    hide LateCore, CoreInv, Placed, NetTotal, AddCredit, Total, Bounded, Bal;
    var r := LateCore(b.core, b.leg, b.cursor.value, b.blindSeq.value, e);
    LateKeeps(b.core, b.leg, b.cursor.value, b.blindSeq.value, e);
    LateParts(b.core, b.leg, b.cursor.value, b.blindSeq.value, e);
    assert CreditsOk(b.core.credits) by { InvCredits(b); }
    if r.1.Some? {
      TakenOne(r.1.value);
      AddIssues(b.core, b.cursor.value, r.1.value.consumed,
                Direction(Bounded(b.core.share + e.share, b.core.journal + e.share)));
    } else {
      TakenNone();
    }
  }

  lemma InvCredits(b: Book)
    requires Inv(b) && b.cursor.Some?
    ensures CreditsOk(b.core.credits)
  {
  }

  /** Every credit and the doubt are stamped no later than the cursor; sequences are counted
      from nothing. */
  predicate Stamped(b: Book) {
    var at := if b.cursor.Some? then Max(0, b.cursor.value) else 0;
    b.core.doubtSeq <= at && forall k :: k in b.core.credits ==> k.at <= at
  }

  /** What a late reduce draws. */
  function DrawnBy(b: Book, op: Op): int {
    if op.Reduce? && b.cursor.Some? && op.seqNo <= b.cursor.value
    then TakeCredit(b.core.credits, op.seqNo, op.quantity, op.dir).1 else 0
  }

  lemma JudgeOpIssues(b: Book, share: int, now: int, grace: int, known: set<int>, provable: bool)
    requires Inv(b)
    ensures var r := JudgeOp(b, share, now, grace, known, provable).0;
            && (b.cursor.Some? ==> r.cursor.Some? && r.cursor.value >= b.cursor.value)
            && (if r.cursor.Some? then Issues(b.core, r.core, r.cursor.value)
                else r == b && b.views == [])
  {
    hide Start, SyncJournal, Advance, Inv, Issues, Owed, NetTotal, Taken;
    if b.cursor.None? {
      StartInv(b, share);
      if b.views == [] {
        NoStart(b, share, now, grace, known, provable);
      } else {
        StartIssues(b, share);
        var s := Start(b, share).0;
        AdvanceIssues(s, now, grace, known, provable);
        var r := Advance(s, now, grace, known, provable).0;
        IssuesThen(b.core, s.core, r.core, s.cursor.value, r.cursor.value);
      }
    } else {
      SyncInv(b, share);
      SyncIssues(b, share);
      var s := SyncJournal(b, share);
      AdvanceIssues(s, now, grace, known, provable);
      var r := Advance(s, now, grace, known, provable).0;
      IssuesThen(b.core, s.core, r.core, s.cursor.value, r.cursor.value);
    }
  }

  lemma StampsKept(a: Book, b: Book)
    requires Stamped(a) && b.cursor.Some? && Issues(a.core, b.core, b.cursor.value)
    requires a.cursor.Some? ==> b.cursor.value >= a.cursor.value
    ensures Stamped(b)
  {
  }

  lemma OwnOpIssues(b: Book, e: LegEvent)
    requires Inv(b) && (b.cursor.Some? ==> b.blindSeq.Some?)
    ensures var r := OwnOp(b, e).0;
            r.cursor == b.cursor
            && (if Beyond(b, e.at) then r.core == b.core else Issues(b.core, r.core, b.cursor.value))
  {
    hide AddEvent, LateCore, Issues, CoreInv, Placed;
    EventOnly(b, e);
    if !Beyond(b, e.at) {
      LateIssues(b, e);
    }
  }

  lemma OtherOpIssues(b: Book, e: LegEvent)
    ensures var r := OtherOp(b, e).0; r.cursor == b.cursor && r.core == b.core.(gaps := r.core.gaps)
  {
  }

  lemma ReduceDraws(b: Book, at: int, quantity: int, dir: int)
    requires Inv(b) && quantity >= 0
    ensures var r := ReduceOp(b, at, quantity, dir);
            && Total(r.core.credits) + DrawnBy(b, Reduce(at, quantity, dir)) == Total(b.core.credits)
            && r == b.(core := b.core.(credits := r.core.credits))
            && (Stamped(b) ==> Stamped(r))
  {
    hide TakeCredit, CoreInv, Placed, Total;
    if b.cursor.Some? && at <= b.cursor.value {
      InvCredits(b);
      TakeExact(b.core.credits, at, quantity, dir);
      if Stamped(b) {
        TakeStamps(b.core.credits, at, quantity, dir, Max(0, b.cursor.value));
      }
    }
  }

  lemma TakeStamps(credits: seq<Credit>, at: int, quantity: int, dir: int, last: int)
    requires forall k :: k in credits ==> k.at <= last
    ensures forall k :: k in TakeCredit(credits, at, quantity, dir).0 ==> k.at <= last
  {
    DrawStamps(credits, at, quantity, dir, last);
    PositiveStamps(Draw(credits, at, quantity, dir).0, last);
  }

  lemma DrawStamps(credits: seq<Credit>, at: int, quantity: int, dir: int, last: int)
    requires forall k :: k in credits ==> k.at <= last
    ensures forall k :: k in Draw(credits, at, quantity, dir).0 ==> k.at <= last
  {
  }

  lemma PositiveStamps(credits: seq<Credit>, last: int)
    requires forall k :: k in credits ==> k.at <= last
    ensures forall k :: k in Positive(credits) ==> k.at <= last
  {
  }

  lemma SameCredits(a: Book, b: Book)
    requires a.core.credits == b.core.credits && a.core.doubtSeq == b.core.doubtSeq && a.cursor == b.cursor
    ensures Total(a.core.credits) == Total(b.core.credits) && (Stamped(a) ==> Stamped(b))
  {
  }

  /** One operation: what it credits the verdicts it reports took, and it stamps by the cursor. */
  lemma ApplyIssues(b: Book, op: Op)
    requires Inv(b) && Stamped(b)
    requires op.Own? ==> op.own.own && Fresh(b, op.own)
    requires op.Other? ==> !op.other.own && Fresh(b, op.other)
    requires op.Reduce? ==> op.quantity >= 0
    ensures b.cursor.Some? ==> b.blindSeq.Some?
    ensures var r := Apply(b, op);
            && Stamped(r.0)
            && Total(r.0.core.credits) + DrawnBy(b, op) <= Total(b.core.credits) + Taken(r.1)
  {
    hide AddView, OwnOp, OtherOp, ReduceOp, JudgeOp, Owed, Taken, Fresh, Inv, Stamped, TakeCredit, Total, NetTotal;
    Standing(b);
    TakenNone();
    ApplyConserves(b, op);
    var r := Apply(b, op).0;
    match op {
      case Push(at, size, updated) =>
        ViewOnly(b, at, size, updated);
        SameCredits(b, r);
      case Own(e) =>
        OwnOpIssues(b, e);
        if Beyond(b, e.at) {
          SameCredits(b, r);
          NothingTaken(b, op);
        } else {
          StampsKept(b, r);
        }
      case Other(e) =>
        OtherOpIssues(b, e);
        SameCredits(b, r);
        NothingTaken(b, op);
      case Reduce(at, quantity, dir) =>
        ReduceDraws(b, at, quantity, dir);
      case Net =>
        SameCredits(b, r);
      case Judging(share, now, grace, known, provable) =>
        JudgeOpIssues(b, share, now, grace, known, provable);
        if r.cursor.Some? {
          StampsKept(b, r);
        } else {
          NothingTaken(b, op);
        }
    }
  }

  lemma NothingTaken(b: Book, op: Op)
    requires b.cursor.Some? ==> b.blindSeq.Some?
    requires (op.Own? && Beyond(b, op.own.at)) || op.Other?
             || (op.Judging? && b.cursor.None? && b.views == [])
    ensures Taken(Apply(b, op).1) == 0
  {
    hide AddEvent, Advance, GapOf;
    TakenNone();
    if op.Judging? {
      NoStart(b, op.journalShare, op.now, op.grace, op.known, op.provable);
      var none: seq<Outcome> := [];
      assert none + none == none;
    } else if op.Other? {
      TakenOne(Outcome(Some(op.other), 0, false, Abs(b.core.share), b.leg, op.other.at, 0, 0, 0, false));
    }
  }

  /** Every reduce of a run is of some quantity. */
  predicate Reduces(ops: seq<Op>) {
    forall op :: op in ops && op.Reduce? ==> op.quantity >= 0
  }

  /** All that a run's late reduces draw. */
  function DrawnInAll(b: Book, ops: seq<Op>): int
    requires Inv(b)
    decreases |ops|
  {
    if ops == [] then 0
    else
      ApplyInv(b, ops[0]);
      DrawnBy(b, ops[0]) + DrawnInAll(Apply(b, ops[0]).0, ops[1..])
  }

  /** Over any run, late reduces draw no more than was credited before and the verdicts of the
      run took, whatever was evicted in between; and every credit is stamped by the cursor. */
  lemma {:induction false} RunNeverOverdrawn(b: Book, ops: seq<Op>)
    requires Inv(b) && Stamped(b) && Records(b, ops) && Reduces(ops)
    ensures var r := Run(b, ops);
            && Stamped(r)
            && Total(r.core.credits) + DrawnInAll(b, ops) <= Total(b.core.credits) + Taken(Outs(b, ops))
    decreases |ops|
  {
    hide Apply, Inv, Taken, Fresh, Stamped, Total, DrawnBy;
    if ops == [] {
      TakenNone();
    } else {
      assert ops[0] in ops && forall op :: op in ops[1..] ==> op in ops;
      ApplyInv(b, ops[0]);
      ApplyIssues(b, ops[0]);
      var n := Apply(b, ops[0]);
      RunNeverOverdrawn(n.0, ops[1..]);
      TakenSum(n.1, Outs(n.0, ops[1..]));
    }
  }

  lemma EmptyStamped()
    ensures Stamped(EMPTY)
  {
  }
}

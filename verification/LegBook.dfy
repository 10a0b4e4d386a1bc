// The position ledger of one leg as values: what every operation of the ledger
// makes of its state. Quantities are whole grid steps; the tolerance of the
// program is half a step, so its "at most the tolerance" reads "at most zero".

module LegTypes {
  import opened Common

  /** A position view: the leg's size after every execution up to `at`. */
  datatype View = View(at: int, size: int)

  datatype Origin = User | Venue | Ambiguous | Unproven

  /** What an execution did to the leg; `at` is its cross sequence. */
  datatype LegEvent = LegEvent(
    execId: string, at: int, delta: int, own: bool, share: int, credit: int, origin: Origin)
  {
    /** The journal change before a credit was taken off it. */
    function OwnShare(): int {
      if delta > 0 then share + credit else share - credit
    }
  }

  datatype Outcome = Outcome(
    event: Option<LegEvent>, consumed: int, proven: bool, shareBefore: int, legAfter: int,
    at: int, unexplained: int, doubtful: int, clipped: int, settled: bool)

  datatype Credit = Credit(at: int, qty: int, dir: int)

  /** A given-up interval that may still turn out complete. */
  datatype LegGap = LegGap(
    startSeq: Option<int>, endSeq: int, startLeg: int, endLeg: int, startShare: int,
    startJournal: int, startDoubt: int, events: seq<LegEvent>, late: set<string>,
    doubt: int, settled: bool)

  /** The part of the ledger a walk over executions moves. */
  datatype Core = Core(
    share: int, journal: int, doubt: int, doubtSeq: int, credits: seq<Credit>,
    room: map<int, int>, gaps: seq<LegGap>, toNet: map<int, int>)

  /** The whole ledger of one leg. */
  datatype Book = Book(
    views: seq<View>, events: seq<LegEvent>, cursor: Option<int>, anchor: Option<int>,
    leg: int, gapSince: Option<int>, latestViewSeq: int,
    newestView: Option<(View, int)>, blindSeq: Option<int>, core: Core)

  const MAX_VIEWS := 64
  const MAX_EVENTS := 512
  const MAX_CREDITS := 8
  const MAX_GAPS := 16
}

module LegBook {
  import opened Common
  import opened LegTypes

  /** Which way a share points: up, down, or nowhere. */
  function Direction(share: int): int {
    if share > 0 then 1 else if share < 0 then -1 else 0
  }

  /** `x * dir` for a sign `dir`. */
  function Along(x: int, dir: int): int {
    if dir > 0 then x else if dir < 0 then -x else 0
  }

  function Bounded(share: int, journal: int): int {
    if share == 0 || Direction(share) != Direction(journal) then 0
    else if Abs(share) <= Abs(journal) then share
    else journal
  }

  function Capped(share: int, leg: int): int {
    var dir := Direction(share);
    if dir == 0 then 0
    else
      var room := Max(Along(leg, dir), 0);
      if Abs(share) <= room then share else Along(room, dir)
  }

  function Get(m: map<int, int>, side: int): int {
    if side in m then m[side] else 0
  }

  // ---- Bookkeeping on the core -------------------------------------------------

  function TakeJournal(c: Core, quantity: int, dir: int): (r: Core)
    ensures r == c.(journal := r.journal, toNet := r.toNet)
  {
    if quantity <= 0 || dir == 0 then c
    else c.(journal := c.journal - Along(quantity, dir),
            toNet := c.toNet[dir := Get(c.toNet, dir) + quantity])
  }

  /** The newest `MAX_CREDITS` credits. */
  function LastCredits(credits: seq<Credit>): seq<Credit> {
    if |credits| <= MAX_CREDITS then credits else credits[|credits| - MAX_CREDITS..]
  }

  function AddCredit(c: Core, at: int, quantity: int, dir: int): (r: Core)
    ensures r == c.(credits := r.credits)
  {
    if quantity <= 0 || dir == 0 then c
    else c.(credits := LastCredits(c.credits + [Credit(at, quantity, dir)]))
  }

  /** Every gap's doubt, at most `limit`. */
  function CapGaps(gaps: seq<LegGap>, limit: int): (r: seq<LegGap>)
    ensures |r| == |gaps|
  {
    if gaps == [] then [] else [gaps[0].(doubt := Min(gaps[0].doubt, limit))] + CapGaps(gaps[1..], limit)
  }

  function CapDoubt(c: Core): (r: Core)
    ensures r == c.(doubt := r.doubt, gaps := r.gaps)
    ensures |r.gaps| <= |c.gaps|
  {
    var doubt := Min(c.doubt, Abs(c.share));
    if doubt <= 0 then c.(doubt := 0, gaps := [])
    else c.(doubt := doubt, gaps := CapGaps(c.gaps, Abs(c.share)))
  }

  function AddDoubt(c: Core, at: int, quantity: int): (r: Core)
    ensures r == c.(doubt := r.doubt, doubtSeq := r.doubtSeq, gaps := r.gaps)
  {
    if quantity <= 0 then c
    else CapDoubt(c.(doubt := c.doubt + quantity, doubtSeq := Max(c.doubtSeq, at)))
  }

  /** The foreign exposure of a leg holding `share` of the run's, on one side. */
  function Foreign(leg: int, share: int, side: int): int {
    Max(Along(leg, side), 0) - Max(Along(share, side), 0)
  }

  function NoteSide(room: map<int, int>, leg: int, share: int, side: int): map<int, int> {
    var foreign := Foreign(leg, share, side);
    room[side := if side in room then Min(room[side], foreign) else foreign]
  }

  function NoteSides(room: map<int, int>, leg: int, share: int): map<int, int> {
    NoteSide(NoteSide(room, leg, share, 1), leg, share, -1)
  }

  function NoteRoom(c: Core, leg: int): (r: Core)
    ensures r == c.(room := r.room)
  {
    c.(room := NoteSides(c.room, leg, c.share))
  }

  /** Two oldest gaps as one that never completes. */
  function Merged(oldest: LegGap, next: LegGap): LegGap {
    LegGap(None, next.endSeq, next.endLeg, next.endLeg, next.startShare, next.startJournal,
           next.startDoubt, [], {}, oldest.doubt + next.doubt, false)
  }

  function MergeGaps(gaps: seq<LegGap>): seq<LegGap>
    decreases |gaps|
  {
    if |gaps| <= MAX_GAPS then gaps
    else MergeGaps([Merged(gaps[0], gaps[1])] + gaps[2..])
  }

  function AddGap(c: Core, gap: LegGap): (r: Core)
    ensures r == c.(gaps := r.gaps)
  {
    c.(gaps := MergeGaps(c.gaps + [gap]))
  }

  // ---- Walking executions --------------------------------------------------------

  datatype Walked = Walked(core: Core, leg: int, outs: seq<Outcome>)

  function OwnStep(c: Core, leg: int, e: LegEvent, proven: bool): Walked {
    var leg' := leg + e.delta;
    var journal := c.journal + e.share;
    var wanted := Bounded(c.share + e.share, journal);
    var share := if proven then Bounded(Capped(c.share + e.share, leg'), journal) else wanted;
    var clipped := Abs(wanted) - Abs(share);
    var outs := if clipped > 0
                then [Outcome(Some(e), 0, proven, Abs(c.share), Along(leg', Direction(wanted)), e.at,
                              0, 0, clipped, false)]
                else [];
    var c' := CapDoubt(c.(journal := journal, share := share));
    Walked(if proven then NoteRoom(c', leg') else c', leg', outs)
  }

  /** What a foreign execution provably or doubtfully took of the share: `(consumed, doubtful)`. */
  function Charge(c: Core, leg: int, e: LegEvent, proven: bool): (int, int) {
    var dir := Direction(c.share);
    var share := Abs(c.share);
    var legAfter := Along(leg + e.delta, dir);
    if !(proven && dir != 0 && Along(e.delta, dir) < 0) then (0, 0)
    else
      var consumed := Min(share, Max(0, share - legAfter));
      if consumed <= 0 then (0, 0)
      else
        var taken := Min(consumed, Max(0, share - c.doubt - legAfter));
        var doubtful := consumed - taken;
        (consumed, if doubtful <= 0 then 0 else if taken <= 0 then consumed else doubtful)
  }

  function ForeignStep(c: Core, leg: int, e: LegEvent, proven: bool): Walked {
    var dir := Direction(c.share);
    var leg' := leg + e.delta;
    var charge := Charge(c, leg, e, proven);
    var out := Outcome(Some(e), charge.0, proven, Abs(c.share),
                       if dir != 0 then Along(leg', dir) else leg', e.at, 0, charge.1, 0, false);
    var c1 := if charge.0 != 0
              then TakeJournal(c.(share := Along(Abs(c.share) - charge.0, dir)), charge.0, dir)
              else c;
    var c2 := if charge.1 != 0
              then AddCredit(c1.(doubt := Max(0, c1.doubt - charge.1)), c1.doubtSeq, charge.1, dir)
              else c1;
    var c3 := CapDoubt(c2);
    Walked(if proven then NoteRoom(c3, leg') else c3, leg', [out])
  }

  function StepOf(c: Core, leg: int, e: LegEvent, proven: bool): Walked {
    if e.own then OwnStep(c, leg, e, proven) else ForeignStep(c, leg, e, proven)
  }

  function WalkEvents(c: Core, leg: int, due: seq<LegEvent>, proven: bool): Walked
    decreases |due|
  {
    if due == [] then Walked(c, leg, [])
    else
      var s := StepOf(c, leg, due[0], proven);
      var r := WalkEvents(s.core, s.leg, due[1..], proven);
      Walked(r.core, r.leg, s.outs + r.outs)
  }

  // ---- The order executions are walked in -----------------------------------------

  function Rank(e: LegEvent, dir: int): int {
    if e.own then 0 else if Along(e.delta, dir) >= 0 then 1 else 2
  }

  predicate RankLeq(a: LegEvent, b: LegEvent, dir: int) {
    a.at < b.at || (a.at == b.at && Rank(a, dir) <= Rank(b, dir))
  }

  function Insert(e: LegEvent, s: seq<LegEvent>, dir: int): seq<LegEvent> {
    if s == [] then [e]
    else if RankLeq(e, s[0], dir) then [e] + s
    else [s[0]] + Insert(e, s[1..], dir)
  }

  /** Stable sort by `(at, rank)`. */
  function SortDue(s: seq<LegEvent>, dir: int): seq<LegEvent> {
    if s == [] then [] else Insert(s[0], SortDue(s[1..], dir), dir)
  }

  /** The executions in `(lo, hi]`, in recorded order. */
  function Between(s: seq<LegEvent>, lo: int, hi: int): seq<LegEvent> {
    if s == [] then []
    else if lo < s[0].at <= hi then [s[0]] + Between(s[1..], lo, hi)
    else Between(s[1..], lo, hi)
  }

  /** The executions outside `(lo, hi]`, in recorded order. */
  function Outside(s: seq<LegEvent>, lo: int, hi: int): seq<LegEvent> {
    if s == [] then []
    else if lo < s[0].at <= hi then Outside(s[1..], lo, hi)
    else [s[0]] + Outside(s[1..], lo, hi)
  }

  /** The executions beyond `at`, in recorded order. */
  function EventsBeyond(s: seq<LegEvent>, at: int): seq<LegEvent> {
    if s == [] then []
    else if s[0].at > at then [s[0]] + EventsBeyond(s[1..], at)
    else EventsBeyond(s[1..], at)
  }

  function SumDelta(s: seq<LegEvent>): int {
    if s == [] then 0 else s[0].delta + SumDelta(s[1..])
  }

  // ---- Views -----------------------------------------------------------------------

  /** The views beyond `at`, in order. */
  function Later(views: seq<View>, at: int): (r: seq<View>)
    ensures |r| <= |views|
    ensures forall v :: v in r ==> v in views && v.at > at
  {
    if views == [] then []
    else if views[0].at > at then [views[0]] + Later(views[1..], at)
    else Later(views[1..], at)
  }

  /** The views at or beyond `at`, in order. */
  function AtLeast(views: seq<View>, at: int): (r: seq<View>)
    ensures |r| <= |views|
    ensures forall v :: v in r ==> v in views && v.at >= at
  {
    if views == [] then []
    else if views[0].at >= at then [views[0]] + AtLeast(views[1..], at)
    else AtLeast(views[1..], at)
  }

  function DropAt(views: seq<View>, at: int): seq<View> {
    if views == [] then []
    else if views[0].at != at then [views[0]] + DropAt(views[1..], at)
    else DropAt(views[1..], at)
  }

  function InsertView(v: View, views: seq<View>): seq<View> {
    if views == [] then [v]
    else if v.at < views[0].at then [v] + views
    else [views[0]] + InsertView(v, views[1..])
  }

  function SortViews(views: seq<View>): seq<View> {
    if views == [] then [] else InsertView(views[|views| - 1], SortViews(views[..|views| - 1]))
  }

  function NewestViews(views: seq<View>): seq<View> {
    if |views| <= MAX_VIEWS then views else views[|views| - MAX_VIEWS..]
  }

  function AddView(b: Book, at: int, size: int, updated: Option<int>): Book {
    var b0 := b.(latestViewSeq := Max(b.latestViewSeq, at));
    if b.newestView.Some? && updated.Some? && at > b.newestView.value.0.at
       && size == b.newestView.value.0.size && updated.value == b.newestView.value.1
    then b0
    else
      var b1 := if b.newestView.None? || at >= b.newestView.value.0.at
                then b0.(newestView := if updated.None? then None
                                       else Some((View(at, size), updated.value)))
                else b0;
      if b.cursor.Some? && at <= b.cursor.value then b1
      else b1.(views := NewestViews(SortViews(DropAt(b1.views, at) + [View(at, size)])))
  }

  // ---- Executions --------------------------------------------------------------------

  /** A dictionary write: an id known already keeps its place. */
  function Put(events: seq<LegEvent>, e: LegEvent): seq<LegEvent> {
    if events == [] then [e]
    else if events[0].execId == e.execId then [e] + events[1..]
    else [events[0]] + Put(events[1..], e)
  }

  /** The position of the first execution with the least `at`. */
  function OldestIndex(events: seq<LegEvent>): (i: nat)
    requires events != []
    ensures i < |events|
    ensures forall k :: 0 <= k < |events| ==> events[i].at <= events[k].at
    ensures forall k :: 0 <= k < i ==> events[i].at < events[k].at
  {
    if |events| == 1 then 0
    else
      var j := OldestIndex(events[1..]);
      if events[0].at <= events[1..][j].at then 0 else j + 1
  }

  function EvictEvents(events: seq<LegEvent>): seq<LegEvent> {
    if |events| <= MAX_EVENTS then events
    else var i := OldestIndex(events); events[..i] + events[i + 1..]
  }

  predicate Beyond(b: Book, at: int) {
    b.cursor.None? || at > b.cursor.value
  }

  function AddEvent(b: Book, e: LegEvent): Book {
    if Beyond(b, e.at) then b.(events := EvictEvents(Put(b.events, e))) else b
  }

  /** What own executions still recorded behind `at` will add to the journal. */
  function OwnBeyond(events: seq<LegEvent>, at: int): int {
    if events == [] then 0
    else (if events[0].own && events[0].at > at then events[0].share else 0)
         + OwnBeyond(events[1..], at)
  }

  function ExpectedLeg(b: Book, at: int): int
    requires b.cursor.Some?
  {
    b.leg + SumDelta(Between(b.events, b.cursor.value, at))
  }

  // ---- Starting and re-syncing ----------------------------------------------------------

  /** The cursor anchored on `v`, the run holding at most what `v` shows of `share`. */
  function AnchorOn(b: Book, v: View, share: int): Book {
    b.(cursor := Some(v.at), anchor := Some(v.at), leg := v.size, views := [v],
       events := EventsBeyond(b.events, v.at), blindSeq := Some(v.at),
       core := NoteRoom(b.core.(share := Capped(share, v.size), journal := share, doubt := 0,
                                gaps := [], room := map[]), v.size))
  }

  /** The journal netted down to the view the ledger starts on. */
  function ClampAtStart(c: Core, v: View, clamped: int, dir: int): Core {
    var c1 := AddDoubt(TakeJournal(c, clamped, dir), v.at, Abs(c.share));
    var c2 := AddCredit(c1, v.at, clamped, dir);
    if c2.doubt != 0
    then AddGap(c2, LegGap(None, v.at, v.size, v.size, c2.share, c2.journal, 0, [], {}, c2.doubt, false))
    else c2
  }

  function Start(b: Book, journalShare: int): (Book, Option<Outcome>) {
    if b.views == [] then (b, None)
    else
      var v := b.views[|b.views| - 1];
      var share := journalShare - OwnBeyond(b.events, v.at);
      var b' := AnchorOn(b, v, share);
      var clamped := Abs(share) - Abs(b'.core.share);
      var dir := Direction(share);
      if clamped <= 0 then (b', None)
      else
        var c := ClampAtStart(b'.core, v, clamped, dir);
        (b'.(core := c),
         Some(Outcome(None, clamped, false, Abs(share), Max(Along(v.size, dir), 0), v.at, 0, c.doubt, 0, false)))
  }

  function SyncJournal(b: Book, journalShare: int): Book {
    if b.cursor.None? then b
    else
      var journal := journalShare - OwnBeyond(b.events, b.cursor.value);
      b.(core := CapDoubt(b.core.(journal := journal, share := Bounded(b.core.share, journal))))
  }

  // ---- Late executions ---------------------------------------------------------------------

  predicate Holds(g: LegGap, at: int) {
    at <= g.endSeq && (g.startSeq.Some? ==> g.startSeq.value < at)
  }

  /** The first kept gap an execution at `at` falls into. */
  function GapOf(gaps: seq<LegGap>, at: int): (r: Option<nat>)
    ensures r.Some? ==> r.value < |gaps| && Holds(gaps[r.value], at)
    ensures r.Some? ==> forall k :: 0 <= k < r.value ==> !Holds(gaps[k], at)
    ensures r.None? ==> forall k :: 0 <= k < |gaps| ==> !Holds(gaps[k], at)
  {
    if gaps == [] then None
    else if Holds(gaps[0], at) then Some(0)
    else
      var r := GapOf(gaps[1..], at);
      if r.Some? then Some(r.value + 1) else None
  }

  function JoinGap(g: LegGap, e: LegEvent): LegGap {
    g.(events := Put(g.events, e), late := g.late + {e.execId})
  }

  /** How a late fill moves the share before its growth is judged: `(shrunk, grown)`. */
  function ShareMove(before: int, wanted: int): (int, int) {
    if Direction(wanted) == Direction(before)
    then (Max(0, Abs(before) - Abs(wanted)), Max(0, Abs(wanted) - Abs(before)))
    else (Abs(before), Abs(wanted))
  }

  /** The late fill entered into its gap, and the doubt an own reduce resolves. */
  function LateResolve(c: Core, e: LegEvent): (r: Core)
    ensures r == c.(doubt := r.doubt, gaps := r.gaps)
  {
    var side := Direction(c.share);
    var i := GapOf(c.gaps, e.at);
    var joined := if i.Some? then c.gaps[i.value := JoinGap(c.gaps[i.value], e)] else c.gaps;
    if side != 0 && e.at <= c.doubtSeq then
      var resolved := Max(0, -Along(e.share, side));
      c.(doubt := Max(0, c.doubt - resolved),
         gaps := if i.Some?
                 then joined[i.value := joined[i.value].(doubt := Max(0, joined[i.value].doubt - resolved))]
                 else joined)
    else c.(gaps := joined)
  }

  /** The doubt a kept part not stamped with the blind view is held in. */
  function LateDoubt(c: Core, leg: int, cursor: int, blind: int, e: LegEvent, kept: int): (r: Core)
    ensures r == c.(doubt := r.doubt, doubtSeq := r.doubtSeq, gaps := r.gaps)
  {
    var i := GapOf(c.gaps, e.at);
    if kept > 0 && e.at != blind then
      var held :=
        if i.Some? && c.gaps[i.value].startSeq.Some? && c.gaps[i.value].endSeq == blind
        then c.(gaps := c.gaps[i.value := c.gaps[i.value].(doubt := c.gaps[i.value].doubt + kept)])
        else AddGap(c, LegGap(None, cursor, leg, leg, c.share, c.journal, c.doubt, [], {}, kept, false));
      AddDoubt(held, blind, kept)
    else c
  }

  /** The room a late reduce gives back. */
  function LateShrink(c: Core, side: int, shrunk: int, late: bool): Core {
    if shrunk > 0 && late then c.(room := c.room[side := Get(c.room, side) + shrunk]) else c
  }

  /** How much of a growth the room of its side leaves. */
  function Kept(room: map<int, int>, side: int, grown: int): int {
    if grown > 0 then Min(grown, Max(Get(room, side), 0)) else 0
  }

  /** The growth charged to the room of its side, what it does not leave booked gone. */
  function LateGrow(c: Core, cursor: int, side: int, grown: int): Core {
    if grown <= 0 then c
    else
      var kept := Kept(c.room, side, grown);
      var c1 := c.(room := c.room[side := Get(c.room, side) - kept]);
      AddCredit(TakeJournal(c1, grown - kept, side), cursor, grown - kept, side)
  }

  function LateCore(c: Core, leg: int, cursor: int, blind: int, e: LegEvent): (Core, Option<Outcome>) {
    var before := c.share;
    var oldSide := Direction(before);
    var wanted := Bounded(before + e.share, c.journal + e.share);
    var newSide := Direction(wanted);
    var move := ShareMove(before, wanted);
    var c1 := LateShrink(c.(journal := c.journal + e.share), oldSide, move.0, e.at <= blind);
    var c2 := LateResolve(c1, e);
    var kept := Kept(c2.room, newSide, move.1);
    var gone := if move.1 > 0 then move.1 - kept else 0;
    var c3 := LateGrow(c2, cursor, newSide, move.1);
    var c4 := c3.(share := before - Along(move.0, oldSide) + Along(kept, newSide));
    var c5 := CapDoubt(LateDoubt(c4, leg, cursor, blind, e, kept));
    (c5, if gone <= 0 then None
         else Some(Outcome(Some(e), gone, false, Abs(wanted), Max(Along(leg, newSide), 0), e.at,
                           0, 0, 0, false)))
  }

  function LateOwn(b: Book, e: LegEvent): (Book, Option<Outcome>)
    requires b.cursor.Some? && b.blindSeq.Some?
  {
    var r := LateCore(b.core, b.leg, b.cursor.value, b.blindSeq.value, e);
    (b.(core := r.0), r.1)
  }

  function LateForeign(b: Book, e: LegEvent): (Book, bool) {
    var i := GapOf(b.core.gaps, e.at);
    if i.None? || b.core.gaps[i.value].startSeq.None? then (b, false)
    else (b.(core := b.core.(gaps := b.core.gaps[i.value := JoinGap(b.core.gaps[i.value], e)])), true)
  }

  // ---- Credits --------------------------------------------------------------------------------

  predicate Eligible(k: Credit, at: int, dir: int) {
    at <= k.at && k.qty > 0 && k.dir == dir
  }

  function OpenCredit(credits: seq<Credit>, at: int, dir: int): int {
    if credits == [] then 0
    else (if Eligible(credits[0], at, dir) then credits[0].qty else 0)
         + OpenCredit(credits[1..], at, dir)
  }

  /** Draw up to `quantity` off the eligible credits, oldest first. */
  function Draw(credits: seq<Credit>, at: int, quantity: int, dir: int): (seq<Credit>, int) {
    if credits == [] || quantity <= 0 then (credits, 0)
    else if !Eligible(credits[0], at, dir) then
      var r := Draw(credits[1..], at, quantity, dir);
      ([credits[0]] + r.0, r.1)
    else
      var part := Min(credits[0].qty, quantity);
      var r := Draw(credits[1..], at, quantity - part, dir);
      ([credits[0].(qty := credits[0].qty - part)] + r.0, part + r.1)
  }

  function Positive(credits: seq<Credit>): seq<Credit> {
    if credits == [] then []
    else if credits[0].qty > 0 then [credits[0]] + Positive(credits[1..])
    else Positive(credits[1..])
  }

  function TakeCredit(credits: seq<Credit>, at: int, quantity: int, dir: int): (seq<Credit>, int) {
    var r := Draw(credits, at, quantity, dir);
    (Positive(r.0), r.1)
  }

  // ---- Judging intervals --------------------------------------------------------------------------

  /** The ledger standing on `view`, the executions up to there walked. */
  function Walk(b: Book, view: View, proven: bool): (r: (Book, seq<Outcome>))
    requires b.cursor.Some?
    ensures r.0.cursor == Some(view.at) && r.0.leg == view.size && r.0.blindSeq == b.blindSeq
  {
    var due := SortDue(Between(b.events, b.cursor.value, view.at), Direction(b.core.share));
    var w := WalkEvents(b.core, b.leg, due, proven);
    var c1 := CapDoubt(w.core.(share := if proven then Capped(w.core.share, view.size) else w.core.share));
    (b.(events := Outside(b.events, b.cursor.value, view.at), cursor := Some(view.at),
        leg := view.size, views := AtLeast(b.views, view.at),
        core := if proven then NoteRoom(c1, view.size) else c1),
     w.outs)
  }

  /** The furthest view every view up to which matches the known executions. */
  function Target(b: Book, later: seq<View>, known: set<int>): (r: Option<View>)
    requires b.cursor.Some?
    ensures r.Some? ==> r.value in later
  {
    if later == [] || ExpectedLeg(b, later[0].at) != later[0].size || later[0].at !in known then None
    else
      var r := Target(b, later[1..], known);
      if r.Some? then r else Some(later[0])
  }

  /** The interval up to `first` as the ledger stood before giving it up. */
  function OpenedGap(b: Book, first: View): LegGap
    requires b.cursor.Some?
  {
    LegGap(b.cursor, first.at, b.leg, first.size, b.core.share, b.core.journal, b.core.doubt,
           Between(b.events, b.cursor.value, first.at), {}, 0, false)
  }

  /** The share above a view, which giving up clamps off. */
  function Excess(share: int, size: int): int {
    var dir := Direction(share);
    if dir != 0 && Abs(share) > Max(Along(size, dir), 0) then Abs(share) - Max(Along(size, dir), 0) else 0
  }

  /** The share clamped to the view given up on, what is left of it held in doubt. */
  function ClampTo(c: Core, first: View, gap: LegGap): Core {
    var dir := Direction(c.share);
    var clamped := Excess(c.share, first.size);
    var c1 := if clamped > 0
              then TakeJournal(c.(share := Along(Max(Along(first.size, dir), 0), dir)), clamped, dir)
              else c;
    var c2 := AddCredit(c1, first.at, clamped, dir);
    var c3 := AddDoubt(c2, first.at, Abs(c2.share));
    var c4 := if Abs(c3.share) > 0 then AddGap(c3, gap.(doubt := Abs(c3.share))) else c3;
    NoteRoom(c4.(room := map[]), first.size)
  }

  function GiveUp(b: Book, first: View): (r: (Book, seq<Outcome>))
    requires b.cursor.Some?
    ensures r.0.cursor == Some(first.at) && r.0.leg == first.size && r.0.blindSeq == Some(first.at)
  {
    var w := Walk(b, first, false);
    var c := w.0.core;
    var c' := ClampTo(c, first, OpenedGap(b, first));
    (w.0.(blindSeq := Some(first.at), core := c'),
     w.1 + [Outcome(None, Excess(c.share, first.size), false, Abs(c.share),
                    Along(first.size, Direction(c.share)), first.at,
                    first.size - ExpectedLeg(b, first.at), Abs(c'.share), 0, false)])
  }

  predicate Complete(g: LegGap, known: set<int>): (r: bool)
    ensures r ==> g.startSeq.Some?
  {
    g.startSeq.Some? && g.endSeq in known && g.startLeg + SumDelta(g.events) == g.endLeg
  }

  function Restated(events: seq<LegEvent>): (r: seq<LegEvent>)
    ensures |r| == |events|
  {
    if events == [] then []
    else [if events[0].own then events[0].(share := events[0].OwnShare(), credit := 0) else events[0]]
         + Restated(events[1..])
  }

  /** A completed gap as a ledger of its own, standing at the gap's start. */
  function Scratch(g: LegGap): Book
    requires g.startSeq.Some?
  {
    Book([], Restated(g.events), g.startSeq, None, g.startLeg, None, 0, None, None,
         Core(g.startShare, g.startJournal, g.startDoubt, 0, [], map[], [], map[]))
  }

  /** Whether a re-walk took part of the share or clipped an own fill. */
  predicate Guessed(outs: seq<Outcome>) {
    exists i :: 0 <= i < |outs| && GuessedOne(outs[i])
  }

  predicate GuessedOne(o: Outcome) {
    if o.event.Some? && o.event.value.own then o.clipped > 0 else o.consumed > 0
  }

  /** The verdicts of a re-walk on foreign executions. */
  function Settled(outs: seq<Outcome>): seq<Outcome> {
    if outs == [] then []
    else if outs[0].event.Some? && outs[0].event.value.own then Settled(outs[1..])
    else [outs[0].(proven := false, settled := true)] + Settled(outs[1..])
  }

  function GapDoubt(gaps: seq<LegGap>): int {
    if gaps == [] then 0 else gaps[0].doubt + GapDoubt(gaps[1..])
  }

  function Rewalk(g: LegGap): seq<Outcome>
    requires g.startSeq.Some?
  {
    Walk(Scratch(g), View(g.endSeq, g.endLeg), true).1
  }

  /** Judge again the gaps from position `i` on. */
  function SettleFrom(c: Core, known: set<int>, i: nat): (r: (Core, seq<Outcome>))
    decreases |c.gaps| - i
  {
    if i >= |c.gaps| then (c, [])
    else
      var g := c.gaps[i];
      if g.settled || !Complete(g, known) then SettleFrom(c, known, i + 1)
      else
        var walked := Rewalk(g);
        if Guessed(walked) then
          var r := SettleFrom(c.(gaps := c.gaps[i := g.(settled := true)]), known, i + 1);
          (r.0, Settled(walked) + r.1)
        else
          var rest := c.gaps[..i] + c.gaps[i + 1..];
          var c' := CapDoubt(c.(gaps := rest, doubt := Min(c.doubt, GapDoubt(rest))));
          var r := SettleFrom(c', known, i);
          (r.0, Settled(walked) + r.1)
  }

  function SettleGaps(b: Book, known: set<int>): (Book, seq<Outcome>) {
    var r := SettleFrom(b.core, known, 0);
    (b.(core := r.0), r.1)
  }

  lemma LaterAtLeast(views: seq<View>, cursor: int, at: int)
    requires cursor < at
    ensures |Later(AtLeast(views, at), at)| <= |Later(views, cursor)|
    ensures (exists v :: v in views && v.at == at)
            ==> |Later(AtLeast(views, at), at)| < |Later(views, cursor)|
  {
  }

  /** The judging loop, gaps settled already. */
  function Judge(b: Book, now: int, grace: int, known: set<int>, provable: bool): (Book, seq<Outcome>)
    requires b.cursor.Some?
    decreases |Later(b.views, b.cursor.value)|
  {
    var later := Later(b.views, b.cursor.value);
    if later == [] then (b.(gapSince := None), [])
    else
      var target := if provable then Target(b, later, known) else None;
      if target.Some? then
        var w := Walk(b.(gapSince := None), target.value, true);
        LaterAtLeast(b.views, b.cursor.value, target.value.at);
        var r := Judge(w.0, now, grace, known, provable);
        (r.0, w.1 + r.1)
      else
        var since := if b.gapSince.None? then now else b.gapSince.value;
        if now - since < grace then (b.(gapSince := Some(since)), [])
        else
          var g := GiveUp(b.(gapSince := None), later[0]);
          LaterAtLeast(b.views, b.cursor.value, later[0].at);
          var r := Judge(g.0, now, grace, known, provable);
          (r.0, g.1 + r.1)
  }

  function Advance(b: Book, now: int, grace: int, known: set<int>, provable: bool): (Book, seq<Outcome>) {
    if b.cursor.None? then (b, [])
    else
      var s := if provable then SettleGaps(b, known) else (b, []);
      var r := Judge(s.0, now, grace, known, provable);
      (r.0, s.1 + r.1)
  }
}

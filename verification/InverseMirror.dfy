// The net-position mirror of an inverse market: contracts the venue holds for the run
// beside the base its fills told the core. Contracts are whole; bases and conversion
// factors are exact ratios.

module InverseMirror {
  import opened Common
  import opened QuantityGrid

  /** Signed contracts and signed base. */
  datatype Mirror = Mirror(contracts: int, base: real)

  function AbsR(x: real): real { if x < 0.0 then -x else x }

  function Sign(side: Side): int { if side.Buy? then 1 else -1 }

  /** One own fill folded in: a flat contract count is a flat base. */
  function ApplyFill(m: Mirror, side: Side, contracts: int, base: real): Mirror {
    var c := m.contracts + Sign(side) * contracts;
    var b := m.base + Sign(side) as real * base;
    Mirror(c, if c == 0 then 0.0 else b)
  }

  const EPS := 0.000000001

  /** A reduce of `contracts` that covers the whole mirror, up to a relative billionth. */
  predicate Covers(m: Mirror, side: Side, contracts: int) {
    && m.contracts != 0 && AbsR(m.base) > 0.0
    && side.Sell? == (m.contracts > 0)
    && Abs(m.contracts) as real * (1.0 - EPS) <= contracts as real <= Abs(m.contracts) as real * (1.0 + EPS)
  }

  /** The contracts one unit of base stands for in a slice; `anchor` is what the dispatch,
      or else its parent entry, recorded. */
  function FillAnchor(m: Mirror, side: Side, contracts: int, anchor: real): real
    requires contracts > 0 && anchor > 0.0
  {
    if Covers(m, side, contracts) then contracts as real / AbsR(m.base) else anchor
  }

  lemma AnchorPositive(m: Mirror, side: Side, contracts: int, anchor: real)
    requires contracts > 0 && anchor > 0.0
    ensures FillAnchor(m, side, contracts, anchor) > 0.0
  {
  }

  /** A slice's base, and the mirror after it. */
  function Reduce(m: Mirror, side: Side, contracts: int, anchor: real): (Mirror, real)
    requires contracts > 0 && anchor > 0.0
  {
    var base := contracts as real / FillAnchor(m, side, contracts, anchor);
    (ApplyFill(m, side, contracts, base), base)
  }

  /** A close cut by the venue into executions: `(mirror, base the core was told)`. */
  function Slices(m: Mirror, side: Side, cuts: seq<int>, anchor: real): (Mirror, real)
    requires (forall k :: k in cuts ==> k > 0) && anchor > 0.0
    decreases |cuts|
  {
    if cuts == [] then (m, 0.0)
    else
      assert cuts[0] in cuts && forall k :: k in cuts[1..] ==> k in cuts;
      var r := Reduce(m, side, cuts[0], anchor);
      var t := Slices(r.0, side, cuts[1..], anchor);
      (t.0, r.1 + t.1)
  }

  lemma SumPositive(cuts: seq<int>)
    requires forall k :: k in cuts ==> k > 0
    ensures Sum(cuts) >= 0 && (cuts != [] ==> Sum(cuts) >= cuts[0] > 0)
  {
    if cuts == [] {
    } else {
      assert cuts[0] in cuts && forall k :: k in cuts[1..] ==> k in cuts;
      SumPositive(cuts[1..]);
    }
  }

  /** The closing side of a mirror whose base is on its contracts' side. */
  predicate Closes(m: Mirror, side: Side) {
    if side.Sell? then m.contracts > 0 && m.base > 0.0 else m.contracts < 0 && m.base < 0.0
  }

  /** Contracts per base of a mirror. */
  function Ratio(m: Mirror): real
    requires m.base != 0.0
  {
    m.contracts as real / m.base
  }

  /** A cut leaves contracts behind that the covering tolerance does not see. */
  predicate Blurs(held: int, cut: int) {
    0 < cut < held && held as real * (1.0 - EPS) <= cut as real
  }

  /** No cut of a close of `held` contracts blurs what it leaves. */
  predicate Sharp(held: int, cuts: seq<int>)
    decreases |cuts|
  {
    cuts == [] || (!Blurs(held, cuts[0]) && Sharp(held - cuts[0], cuts[1..]))
  }

  // ---- Arithmetic ------------------------------------------------------------------------------

  lemma DivMul(a: real, b: real)
    requires b != 0.0
    ensures a / b * b == a
  {
  }

  lemma DivDiv(c: real, b: real)
    requires b > 0.0 && c > 0.0
    ensures c / (c / b) == b && c / b > 0.0
  {
    assert (c / b) * b == c;
  }

  /** A part taken at the ratio leaves the rest at the ratio. */
  lemma RatioLeft(held: real, base: real, cut: real)
    requires base > 0.0 && 0.0 < cut < held
    ensures var a := held / base;
            a > 0.0 && base - cut / a > 0.0 && (held - cut) / (base - cut / a) == a
  {
    var a := held / base;
    assert a * base == held;
    var part := cut / a;
    assert part * a == cut;
    assert (base - part) * a == held - cut by { assert (base - part) * a == base * a - part * a; }
    PositiveFactor(base - part, a);
    assert (held - cut) / (base - part) == a by { Quotient(held - cut, base - part, a); }
  }

  lemma PositiveFactor(x: real, a: real)
    requires a > 0.0 && x * a > 0.0
    ensures x > 0.0
  {
  }

  lemma Quotient(x: real, y: real, a: real)
    requires y != 0.0 && y * a == x
    ensures x / y == a
  {
  }

  // ---- One slice ---------------------------------------------------------------------------------

  /** A slice that covers the mirror exactly books all of its base and leaves it flat. */
  lemma CoveringSlice(m: Mirror, side: Side, anchor: real)
    requires Closes(m, side) && anchor > 0.0
    ensures Reduce(m, side, Abs(m.contracts), anchor) == (Mirror(0, 0.0), AbsR(m.base))
  {
    var c := Abs(m.contracts);
    assert Covers(m, side, c);
    DivDiv(c as real, AbsR(m.base));
  }

  /** A smaller slice that does not blur what it leaves keeps the ratio. */
  lemma PartialSlice(m: Mirror, side: Side, cut: int)
    requires Closes(m, side) && 0 < cut < Abs(m.contracts) && !Blurs(Abs(m.contracts), cut)
    ensures Ratio(m) > 0.0
    ensures var r := Reduce(m, side, cut, Ratio(m));
            && Closes(r.0, side) && Abs(r.0.contracts) == Abs(m.contracts) - cut
            && AbsR(r.0.base) == AbsR(m.base) - r.1 && Ratio(r.0) == Ratio(m)
  {
    var held, base := Abs(m.contracts) as real, AbsR(m.base);
    RatioLeft(held, base, cut as real);
    RatioSides(m);
    assert !Covers(m, side, cut);
    var r := Reduce(m, side, cut, Ratio(m));
    RatioSides(r.0);
  }

  lemma RatioSides(m: Mirror)
    requires m.base != 0.0 && (m.contracts > 0) == (m.base > 0.0) && m.contracts != 0
    ensures Ratio(m) == Abs(m.contracts) as real / AbsR(m.base)
  {
    if m.base < 0.0 {
      var x, y := m.contracts as real, m.base;
      Quotient(-x, -y, x / y);
    }
  }

  /** An execution that does not close the mirror converts at its own anchor, whatever its size. */
  lemma OpeningAnchor(m: Mirror, side: Side, contracts: int, anchor: real)
    requires contracts > 0 && anchor > 0.0
    requires m.contracts == 0 || (side.Buy? <==> m.contracts > 0)
    ensures FillAnchor(m, side, contracts, anchor) == anchor
    ensures Reduce(m, side, contracts, anchor).1 == contracts as real / anchor
  {
  }

  /** A slice that blurs what it leaves books all the base: the contracts left have none. */
  lemma BlurringSlice(m: Mirror, side: Side, cut: int, anchor: real)
    requires Closes(m, side) && Blurs(Abs(m.contracts), cut) && anchor > 0.0
    ensures var r := Reduce(m, side, cut, anchor);
            && r.1 == AbsR(m.base) && r.0.base == 0.0 && r.0.contracts != 0
            && Abs(r.0.contracts) == Abs(m.contracts) - cut
            && (side.Sell? <==> r.0.contracts > 0)
  {
    assert Covers(m, side, cut);
    DivDiv(cut as real, AbsR(m.base));
  }

  /** Without a base every slice converts at its anchor. */
  lemma {:induction false} BaseGone(m: Mirror, side: Side, cuts: seq<int>, anchor: real)
    requires (forall k :: k in cuts ==> k > 0) && anchor > 0.0
    requires m.base == 0.0 && Sum(cuts) == Abs(m.contracts) && (side.Sell? <==> m.contracts > 0) && m.contracts != 0
    ensures cuts != [] && Slices(m, side, cuts, anchor).1 > 0.0
  {
    SumPositive(cuts);
    assert cuts[0] in cuts && forall k :: k in cuts[1..] ==> k in cuts;
    assert !Covers(m, side, cuts[0]);
    var r := Reduce(m, side, cuts[0], anchor);
    Positive(cuts[0] as real, anchor);
    SlicesNonneg(r.0, side, cuts[1..], anchor);
  }

  lemma Positive(x: real, y: real)
    requires x > 0.0 && y > 0.0
    ensures x / y > 0.0
  {
  }

  lemma {:induction false} SlicesNonneg(m: Mirror, side: Side, cuts: seq<int>, anchor: real)
    requires (forall k :: k in cuts ==> k > 0) && anchor > 0.0
    ensures Slices(m, side, cuts, anchor).1 >= 0.0
    decreases |cuts|
  {
    if cuts == [] {
    } else {
      assert cuts[0] in cuts && forall k :: k in cuts[1..] ==> k in cuts;
      if Covers(m, side, cuts[0]) {
        Positive(cuts[0] as real, AbsR(m.base));
      }
      Positive(cuts[0] as real, FillAnchor(m, side, cuts[0], anchor));
      SlicesNonneg(Reduce(m, side, cuts[0], anchor).0, side, cuts[1..], anchor);
    }
  }

  /** A full close at the mirror's own ratio books exactly the mirror's base and leaves it
      flat however the venue cuts it, if and only if no cut leaves so little of what is
      held that the covering tolerance takes it for the whole. */
  lemma {:induction false} FullCloseExact(m: Mirror, side: Side, cuts: seq<int>)
    requires Closes(m, side) && (forall k :: k in cuts ==> k > 0) && Sum(cuts) == Abs(m.contracts)
    ensures Ratio(m) > 0.0
    ensures Slices(m, side, cuts, Ratio(m)) == (Mirror(0, 0.0), AbsR(m.base))
            <==> Sharp(Abs(m.contracts), cuts)
    decreases |cuts|
  {
    RatioSides(m);
    Positive(Abs(m.contracts) as real, AbsR(m.base));
    SumPositive(cuts);
    var cut, rest := cuts[0], cuts[1..];
    assert cut in cuts && forall k :: k in rest ==> k in cuts;
    SumPositive(rest);
    var r := Reduce(m, side, cut, Ratio(m));
    if cut == Abs(m.contracts) {
      assert rest == [];
      CoveringSlice(m, side, Ratio(m));
    } else if Blurs(Abs(m.contracts), cut) {
      BlurringSlice(m, side, cut, Ratio(m));
      BaseGone(r.0, side, rest, Ratio(m));
    } else {
      PartialSlice(m, side, cut);
      FullCloseExact(r.0, side, rest);
    }
  }

  /** A position of a billion and one contracts closed in two executions: the first takes the
      whole base, and the second books base the mirror does not hold. */
  lemma BlurredClose(m: Mirror)
    requires m.contracts == 1_000_000_001 && m.base > 0.0
    ensures var cuts := [1_000_000_000, 1];
            && Closes(m, Sell) && Sum(cuts) == m.contracts && Blurs(m.contracts, cuts[0])
            && Ratio(m) > 0.0 && Slices(m, Sell, cuts, Ratio(m)) != (Mirror(0, 0.0), m.base)
  {
    hide Slices;
    var cuts := [1_000_000_000, 1];
    assert cuts[1..] == [1] && [1][1..] == [];
    assert Sum(cuts) == 1_000_000_001;
    FullCloseExact(m, Sell, cuts);
  }

  /** Below a billion contracts no cut can blur: the close is exact under any slicing. */
  lemma {:induction false} SmallIsSharp(held: int, cuts: seq<int>)
    requires 0 <= held < 1_000_000_000 && (forall k :: k in cuts ==> k > 0) && Sum(cuts) == held
    ensures Sharp(held, cuts)
    decreases |cuts|
  {
    if cuts == [] {
    } else {
      assert cuts[0] in cuts && forall k :: k in cuts[1..] ==> k in cuts;
      SumPositive(cuts);
      SumPositive(cuts[1..]);
      if 0 < cuts[0] < held {
        assert cuts[0] as real <= held as real - 1.0;
        assert held as real * EPS < 1.0;
      }
      SmallIsSharp(held - cuts[0], cuts[1..]);
    }
  }

  // ---- Dispatching a reduce -----------------------------------------------------------------------

  function MinR(x: real, y: real): real { if x <= y then x else y }

  /** Contracts and conversion factor of a reduce of `qty` base: at the parent entry's own
      anchor, else through the mirror, else at the last price; the whole base snaps onto
      the whole contract count. `None`: it converts to no contract, nothing is sent. */
  function ReduceContracts(m: Mirror, qty: real, entry: Option<real>, lastPrice: real, step: real)
    : Option<(real, real)>
  {
    var c, b := Abs(m.contracts) as real, AbsR(m.base);
    var held := FloorToStep(c, step);
    var r :=
      if c > 0.0 && b > 0.0 then
        if qty >= b * (1.0 - EPS) then (held, c / b)
        else if entry.Some? then (MinR(BaseToContracts(qty, entry.value, step), held), entry.value)
        else (MinR(BaseToContractsReduce(qty, c / b, step), held), c / b)
      else if entry.Some? then (BaseToContracts(qty, entry.value, step), entry.value)
      else (BaseToContractsReduce(qty, lastPrice, step), lastPrice);
    if r.0 <= 0.0 then None else Some(r)
  }

  /** A close of the whole base dispatches exactly the mirror's contracts at its ratio. */
  lemma FullCloseDispatch(m: Mirror, side: Side, qty: real, entry: Option<real>, lastPrice: real)
    requires Closes(m, side) && qty >= AbsR(m.base) * (1.0 - EPS)
    ensures ReduceContracts(m, qty, entry, lastPrice, 1.0) == Some((Abs(m.contracts) as real, Ratio(m)))
  {
    FloorFixesGrid(Abs(m.contracts), 1.0);
    RatioSides(m);
  }

  predicate Known(m: Mirror) { m.contracts != 0 && m.base != 0.0 }

  /** A request for the whole of a known mirror's base. */
  predicate Whole(m: Mirror, qty: real) { Known(m) && qty >= AbsR(m.base) * (1.0 - EPS) }

  /** The factor a reduce converts at: the mirror's ratio for the whole of it, or where no parent
      entry is named; else the parent's anchor, else the last price. */
  function Factor(m: Mirror, qty: real, entry: Option<real>, lastPrice: real): real {
    if Whole(m, qty) || (Known(m) && entry.None?) then Abs(m.contracts) as real / AbsR(m.base)
    else if entry.Some? then entry.value
    else lastPrice
  }

  /** The contracts `qty` base is worth at that factor. */
  function Worth(m: Mirror, qty: real, entry: Option<real>, lastPrice: real): real {
    qty * Factor(m, qty, entry, lastPrice)
  }

  /** What a reduce sends: of the whole base the contracts held; of a part the nearest count to its
      worth at the mirror's ratio, or the most within its worth at the parent's anchor, never more
      than are held; without a mirror the same counts at the anchor or the last price. Nothing is
      sent exactly when that is no contract. */
  lemma ReduceSends(m: Mirror, qty: real, entry: Option<real>, lastPrice: real, step: real)
    returns (n: nat, held: nat, sent: nat)
    requires step > 0.0 && qty >= 0.0 && lastPrice >= 0.0 && (entry.Some? ==> entry.value >= 0.0)
    ensures MostWithin(held, Abs(m.contracts) as real, step)
    ensures if Whole(m, qty) then n == held
            else if entry.Some? then MostWithin(n, Worth(m, qty, entry, lastPrice), step)
            else NearestTo(n, Worth(m, qty, entry, lastPrice), step)
    ensures sent == if Known(m) then Min(n, held) else n
    ensures ReduceContracts(m, qty, entry, lastPrice, step)
            == if sent == 0 then None else Some((sent as real * step, Factor(m, qty, entry, lastPrice)))
  {
    hide FloorToStep, BaseToContracts, BaseToContractsReduce, ReduceContracts, Factor, Worth, Whole;
    hide MinR, MostWithin, NearestTo;
    held := MostOf(Abs(m.contracts) as real, step);
    n := CountSent(m, qty, entry, lastPrice, step);
    if Whole(m, qty) {
      n := held;
    }
    sent := if Known(m) then Min(n, held) else n;
    SentCount(n, held, step, Known(m));
    ReduceIs(m, qty, entry, lastPrice, step);
    var factor, most := Factor(m, qty, entry, lastPrice), FloorToStep(Abs(m.contracts) as real, step);
    var worth := if Whole(m, qty) then most
                 else if entry.Some? then BaseToContracts(qty, factor, step)
                 else BaseToContractsReduce(qty, factor, step);
    assert worth == n as real * step && most == held as real * step;
    SameSend(ReduceContracts(m, qty, entry, lastPrice, step), if Known(m) then MinR(worth, most) else worth,
             sent, step, factor);
  }

  lemma SameSend(r: Option<(real, real)>, worth: real, sent: nat, step: real, factor: real)
    requires r == if worth <= 0.0 then None else Some((worth, factor))
    requires worth == sent as real * step && (worth <= 0.0 <==> sent == 0)
    ensures r == if sent == 0 then None else Some((sent as real * step, factor))
  {
  }

  lemma FactorNonneg(m: Mirror, qty: real, entry: Option<real>, lastPrice: real)
    requires lastPrice >= 0.0 && (entry.Some? ==> entry.value >= 0.0)
    ensures Factor(m, qty, entry, lastPrice) >= 0.0
  {
    if Known(m) {
      Positive(Abs(m.contracts) as real, AbsR(m.base));
    }
  }

  lemma CountSent(m: Mirror, qty: real, entry: Option<real>, lastPrice: real, step: real) returns (n: nat)
    requires step > 0.0 && qty >= 0.0 && lastPrice >= 0.0 && (entry.Some? ==> entry.value >= 0.0)
    ensures var factor, worth := Factor(m, qty, entry, lastPrice), Worth(m, qty, entry, lastPrice);
            if entry.Some? then MostWithin(n, worth, step) && BaseToContracts(qty, factor, step) == n as real * step
            else NearestTo(n, worth, step) && BaseToContractsReduce(qty, factor, step) == n as real * step
  {
    hide FloorToStep, BaseToContracts, BaseToContractsReduce, MostWithin, NearestTo, Factor, Worth;
    var factor, worth := Factor(m, qty, entry, lastPrice), Worth(m, qty, entry, lastPrice);
    WorthIs(m, qty, entry, lastPrice, step);
    if entry.Some? {
      n := MostOf(worth, step);
    } else {
      n := NearestOf(qty, factor, worth, step);
    }
  }

  lemma WorthIs(m: Mirror, qty: real, entry: Option<real>, lastPrice: real, step: real)
    requires qty >= 0.0 && lastPrice >= 0.0 && (entry.Some? ==> entry.value >= 0.0)
    ensures var factor, worth := Factor(m, qty, entry, lastPrice), Worth(m, qty, entry, lastPrice);
            worth == qty * factor && worth >= 0.0 && BaseToContracts(qty, factor, step) == FloorToStep(worth, step)
  {
    hide Factor, FloorToStep;
    FactorNonneg(m, qty, entry, lastPrice);
    ProductNonneg(qty, Factor(m, qty, entry, lastPrice));
  }

  lemma SentCount(n: nat, held: nat, step: real, known: bool)
    requires step > 0.0
    ensures var sent := if known then Min(n, held) else n;
            && (if known then MinR(n as real * step, held as real * step) else n as real * step) == sent as real * step
            && (sent as real * step <= 0.0 <==> sent == 0)
  {
    MinOfCounts(n, held, step);
    MinOfCounts(n, n, step);
  }

  /** The branches of a reduce as one: worth, factor and cap. */
  lemma ReduceIs(m: Mirror, qty: real, entry: Option<real>, lastPrice: real, step: real)
    ensures var factor := Factor(m, qty, entry, lastPrice);
            var held := FloorToStep(Abs(m.contracts) as real, step);
            var worth := if Whole(m, qty) then held
                         else if entry.Some? then BaseToContracts(qty, factor, step)
                         else BaseToContractsReduce(qty, factor, step);
            var sent := if Known(m) then MinR(worth, held) else worth;
            ReduceContracts(m, qty, entry, lastPrice, step) == if sent <= 0.0 then None else Some((sent, factor))
  {
    hide FloorToStep, BaseToContracts, BaseToContractsReduce;
  }

  lemma MostOf(value: real, step: real) returns (n: nat)
    requires step > 0.0 && value >= 0.0
    ensures MostWithin(n, value, step) && FloorToStep(value, step) == n as real * step
  {
    n := CountOf(value, step, NOISE);
    FloorIsMost(n, value, step);
  }

  lemma NearestOf(qty: real, price: real, worth: real, step: real) returns (n: nat)
    requires step > 0.0 && worth == qty * price && worth >= 0.0
    ensures NearestTo(n, worth, step) && BaseToContractsReduce(qty, price, step) == n as real * step
  {
    hide BaseToContractsReduce;
    n := CountOf(worth, step, 0.5);
    assert 0.5 * step == step / 2.0;
    ReduceIsNearest(n, qty, price, step);
  }

  lemma MinOfCounts(a: nat, b: nat, step: real)
    requires step > 0.0
    ensures MinR(a as real * step, b as real * step) == Min(a, b) as real * step
    ensures Min(a, b) as real * step <= 0.0 <==> Min(a, b) == 0
  {
    Scale(a as real, b as real, step);
    Scale(Min(a, b) as real, 0.0, step);
  }

  lemma ProductNonneg(x: real, y: real)
    requires x >= 0.0 && y >= 0.0
    ensures x * y >= 0.0
  {
  }

  /** Without a grid nothing is rounded: the worth itself is sent, at most what is held. */
  lemma UngriddedReduce(m: Mirror, qty: real, entry: Option<real>, lastPrice: real, step: real)
    requires step <= 0.0
    ensures var factor := Factor(m, qty, entry, lastPrice);
            var worth := if Whole(m, qty) then Abs(m.contracts) as real else Worth(m, qty, entry, lastPrice);
            var sent := if Known(m) then MinR(worth, Abs(m.contracts) as real) else worth;
            ReduceContracts(m, qty, entry, lastPrice, step) == if sent <= 0.0 then None else Some((sent, factor))
  {
    hide Factor, Worth, Whole, ReduceContracts, MinR, FloorToStep, BaseToContracts, BaseToContractsReduce;
    WorthRaw(m, qty, entry, lastPrice, step);
    ReduceIs(m, qty, entry, lastPrice, step);
  }

  lemma WorthRaw(m: Mirror, qty: real, entry: Option<real>, lastPrice: real, step: real)
    requires step <= 0.0
    ensures var factor, worth := Factor(m, qty, entry, lastPrice), Worth(m, qty, entry, lastPrice);
            && BaseToContracts(qty, factor, step) == worth && BaseToContractsReduce(qty, factor, step) == worth
            && FloorToStep(Abs(m.contracts) as real, step) == Abs(m.contracts) as real
  {
    hide Factor;
  }

  /** From the core's full close to a flat book: the dispatched contracts, cut in any way the
      tolerance can tell apart, book the mirror's whole base, no more and no less. */
  lemma FullCloseRoundTrip(m: Mirror, side: Side, qty: real, entry: Option<real>, lastPrice: real, cuts: seq<int>)
    requires Closes(m, side) && qty >= AbsR(m.base) * (1.0 - EPS)
    requires (forall k :: k in cuts ==> k > 0) && Sum(cuts) == Abs(m.contracts) && Sharp(Abs(m.contracts), cuts)
    ensures var sent := ReduceContracts(m, qty, entry, lastPrice, 1.0);
            && sent.Some? && sent.value.0 == Sum(cuts) as real && sent.value.1 > 0.0
            && Slices(m, side, cuts, sent.value.1) == (Mirror(0, 0.0), AbsR(m.base))
  {
    FullCloseDispatch(m, side, qty, entry, lastPrice);
    FullCloseExact(m, side, cuts);
  }

  // ---- Netting by a venue close -----------------------------------------------------------------------

  /** `contracts` of one side's exposure taken off the mirror without a fill. */
  function NetMirror(m: Mirror, side: Side, contracts: int): Mirror {
    if contracts <= 0 || m.contracts == 0 then m
    else
      var shifted := m.contracts + (if side.Sell? then contracts else -contracts);
      Mirror(shifted, if shifted == 0 then 0.0 else m.base * (shifted as real / m.contracts as real))
  }

  /** What is left of a netted mirror keeps its base per contract. */
  lemma NettingKeepsRatio(m: Mirror, side: Side, contracts: int)
    requires m.contracts != 0 && m.base != 0.0
    ensures var r := NetMirror(m, side, contracts);
            if r.contracts == 0 then r.base == 0.0 else r.base != 0.0 && Ratio(r) == Ratio(m)
  {
    var r := NetMirror(m, side, contracts);
    if contracts > 0 && r.contracts != 0 {
      var c, s, b := m.contracts as real, r.contracts as real, m.base;
      var f := s / c;
      assert f * c == s;
      assert f != 0.0;
      assert b * f != 0.0 by { NonZero(b, f); }
      var a := c / b;
      assert a * b == c;
      assert (b * f) * a == s by { assert (b * f) * a == f * (a * b); }
      Quotient(s, b * f, a);
    }
  }

  /** Netting in parts is netting at once, unless the first part leaves nothing to net the
      second from. */
  lemma NettingTwice(m: Mirror, side: Side, a: int, b: int)
    requires a >= 0 && b >= 0
    ensures NetMirror(NetMirror(m, side, a), side, b) == NetMirror(m, side, a + b)
            <==> a == 0 || b == 0 || m.contracts == 0 || NetMirror(m, side, a).contracts != 0
  {
    var n, t := NetMirror(m, side, a), NetMirror(m, side, a + b);
    if a > 0 && b > 0 && m.contracts != 0 {
      if n.contracts == 0 {
        assert t.contracts != 0;
      } else {
        var c, x, y := m.contracts as real, n.contracts as real, t.contracts as real;
        assert NetMirror(n, side, b).contracts == t.contracts;
        assert m.base * (x / c) * (y / x) == m.base * (y / c) by {
          assert x / c * (y / x) == y / c by { QuotientChain(x, y, c); }
        }
      }
    }
  }

  lemma QuotientChain(x: real, y: real, c: real)
    requires x != 0.0 && c != 0.0
    ensures x / c * (y / x) == y / c
  {
    assert (x / c) * c == x && (y / x) * x == y;
    assert (x / c * (y / x)) * c == y by { assert (x / c * (y / x)) * c == (x / c * c) * (y / x); }
    Quotient(y, c, x / c * (y / x));
  }

  lemma NonZero(x: real, y: real)
    requires x != 0.0 && y != 0.0
    ensures x * y != 0.0
  {
  }

  /** The base of `part` of a slice's contracts. */
  function PartBase(base: real, part: int, contracts: int): real
    requires contracts > 0
  {
    base * part as real / contracts as real
  }

  /** The mirror after a reducing execution of which a give-up netted `credit` ahead. */
  function Credited(m: Mirror, side: Side, contracts: int, credit: int, anchor: real): Mirror
    requires contracts > 0 && anchor > 0.0
  {
    var base := contracts as real / FillAnchor(m, side, contracts, anchor);
    ApplyFill(m, side, contracts - credit, PartBase(base, contracts - credit, contracts))
  }

  /** Without a credit it is the mirror after the whole slice. */
  lemma WholeSlice(m: Mirror, side: Side, contracts: int, anchor: real)
    requires contracts > 0 && anchor > 0.0
    ensures Credited(m, side, contracts, 0, anchor) == Reduce(m, side, contracts, anchor).0
  {
    hide ApplyFill, FillAnchor, PartBase;
    AnchorPositive(m, side, contracts, anchor);
    WholePart(contracts as real / FillAnchor(m, side, contracts, anchor), contracts);
  }

  lemma WholePart(base: real, contracts: int)
    requires contracts > 0
    ensures PartBase(base, contracts, contracts) == base
  {
    Quotient(base * contracts as real, contracts as real, base);
  }

  /** A slice the covering tolerance takes for a holding it is not. */
  predicate Misread(held: int, contracts: int) {
    && contracts != held && held > 0
    && held as real * (1.0 - EPS) <= contracts as real <= held as real * (1.0 + EPS)
  }

  /** A closing slice converts at the mirror's own ratio, or, misread, at what books all its base. */
  lemma AnchorRead(m: Mirror, side: Side, contracts: int, anchor: real)
    requires contracts > 0 && anchor > 0.0
    requires m.contracts != 0 ==> Closes(m, side) && Ratio(m) == anchor
    ensures FillAnchor(m, side, contracts, anchor)
            == if Misread(Abs(m.contracts), contracts) then contracts as real / AbsR(m.base) else anchor
    ensures Misread(Abs(m.contracts), contracts) ==> AbsR(m.base) > 0.0
  {
    if m.contracts != 0 {
      RatioSides(m);
    }
  }

  lemma PartOfBase(contracts: real, part: real, anchor: real)
    requires contracts > 0.0 && anchor > 0.0
    ensures contracts / anchor * part / contracts == part / anchor
  {
    var x := contracts / anchor;
    assert x * anchor == contracts;
    assert x * part / contracts * anchor == part by {
      assert x * part / contracts * anchor == (x * anchor) * part / contracts;
    }
    Quotient(part, anchor, x * part / contracts);
  }

  /** A mirror netted pro rata keeps its side, and its base is its contracts at the ratio. */
  lemma NettedBase(m: Mirror, side: Side, contracts: int)
    requires Closes(m, side) && 0 <= contracts <= Abs(m.contracts)
    ensures Ratio(m) > 0.0
    ensures var r := NetMirror(m, Opposite(side), contracts);
            && r.contracts == m.contracts + Sign(side) * contracts
            && r.base == r.contracts as real / Ratio(m)
            && (r.contracts == 0 || Closes(r, side))
  {
    RatioPositive(m, side);
    NettingKeepsRatio(m, Opposite(side), contracts);
    NettedCount(m, side, contracts);
    BaseAtRatio(NetMirror(m, Opposite(side), contracts), side, Ratio(m));
  }

  lemma NettedCount(m: Mirror, side: Side, contracts: int)
    requires Closes(m, side) && 0 <= contracts <= Abs(m.contracts)
    ensures NetMirror(m, Opposite(side), contracts).contracts == m.contracts + Sign(side) * contracts
  {
  }

  lemma BaseAtRatio(r: Mirror, side: Side, a: real)
    requires a > 0.0 && (if r.contracts == 0 then r.base == 0.0 else r.base != 0.0 && Ratio(r) == a)
    requires if side.Sell? then r.contracts >= 0 else r.contracts <= 0
    ensures r.base == r.contracts as real / a
    ensures r.contracts == 0 || Closes(r, side)
  {
    if r.contracts != 0 {
      assert a * r.base == r.contracts as real by { DivMul(r.contracts as real, r.base); }
      SameSide(r.contracts as real, r.base, a);
      Quotient(r.contracts as real, a, r.base);
    }
  }

  lemma SameSide(x: real, y: real, a: real)
    requires a > 0.0 && a * y == x
    ensures (x > 0.0) == (y > 0.0) && (x < 0.0) == (y < 0.0)
  {
  }

  lemma AddShares(x: real, y: real, sign: real, a: real)
    requires a > 0.0
    ensures x / a + sign * (y / a) == (x + sign * y) / a
  {
    assert x / a * a == x && y / a * a == y;
    assert (x / a + sign * (y / a)) * a == x + sign * y by {
      assert (x / a + sign * (y / a)) * a == x / a * a + sign * (y / a * a);
    }
    Quotient(x + sign * y, a, x / a + sign * (y / a));
  }

  /** A mirror whose base stands at the ratio keeps it under an execution at the ratio. */
  lemma CreditedAtRatio(m: Mirror, side: Side, contracts: int, credit: int, a: real)
    requires contracts > 0 && a > 0.0 && m.base == m.contracts as real / a
    requires FillAnchor(m, side, contracts, a) == a
    ensures var left := m.contracts + Sign(side) * (contracts - credit);
            Credited(m, side, contracts, credit, a) == Mirror(left, left as real / a)
  {
    hide FillAnchor;
    var part := contracts - credit;
    PartOfBase(contracts as real, part as real, a);
    AddShares(m.contracts as real, part as real, Sign(side) as real, a);
    assert (m.contracts + Sign(side) * part) as real == m.contracts as real + Sign(side) as real * part as real;
  }

  lemma PartRest(base: real, part: real, whole: real)
    requires whole != 0.0
    ensures base - base * (whole - part) / whole == base * (part / whole)
  {
    assert part / whole * whole == part;
    assert base * (whole - part) / whole * whole == base * (whole - part);
    assert (base - base * (whole - part) / whole) * whole == base * part;
    assert base * (part / whole) * whole == base * part by {
      assert base * (part / whole) * whole == base * (part / whole * whole);
    }
    SameFactor(base - base * (whole - part) / whole, base * (part / whole), whole);
  }

  lemma SameFactor(x: real, y: real, z: real)
    requires z != 0.0 && x * z == y * z
    ensures x == y
  {
  }

  /** A misread slice leaves of the base only what its credited part stands for of all of it. */
  lemma CreditedMisread(m: Mirror, side: Side, contracts: int, credit: int, anchor: real)
    requires contracts > 0 && anchor > 0.0 && Closes(m, side) && Ratio(m) == anchor
    requires Misread(Abs(m.contracts), contracts)
    ensures var left := m.contracts + Sign(side) * (contracts - credit);
            Credited(m, side, contracts, credit, anchor)
            == Mirror(left, if left == 0 then 0.0 else m.base * (credit as real / contracts as real))
  {
    hide FillAnchor, Misread;
    AnchorRead(m, side, contracts, anchor);
    var b := AbsR(m.base);
    DivDiv(contracts as real, b);
    var part := contracts - credit;
    assert part as real == contracts as real - credit as real;
    PartRest(m.base, credit as real, contracts as real);
    if side.Sell? {
      assert b == m.base;
    } else {
      Opposed(m.base, part as real, contracts as real);
    }
  }

  lemma Opposed(x: real, y: real, z: real)
    requires z != 0.0
    ensures (-x) * y / z == -(x * y / z)
  {
  }

  /** Cross-multiplied: two shares of what is held agree only when they are the same, or make it up. */
  lemma CrossParts(held: int, contracts: int, credit: int)
    ensures (held - credit) * credit == (held - contracts) * contracts
            <==> credit == contracts || held == contracts + credit
  {
    var x, y := credit - contracts, held - contracts - credit;
    CrossDifference(held, contracts, credit);
    ZeroProduct(x, y);
  }

  lemma CrossDifference(held: int, contracts: int, credit: int)
    ensures (held - credit) * credit - (held - contracts) * contracts
            == (credit - contracts) * (held - contracts - credit)
  {
  }

  lemma ZeroProduct(x: int, y: int)
    ensures x * y == 0 <==> x == 0 || y == 0
  {
  }

  /** What a misread slice leaves is what a read one leaves only if nothing was its own. */
  lemma MisreadDiffers(n: Mirror, side: Side, held: int, contracts: int, credit: int, anchor: real)
    requires anchor > 0.0 && 0 <= credit <= contracts < held && contracts > 0
    requires n.contracts == -Sign(side) * (held - credit) && n.base == n.contracts as real / anchor
    requires held - credit != contracts
    ensures var left := -Sign(side) * (held - contracts);
            n.base * (credit as real / contracts as real) == left as real / anchor <==> credit == contracts
  {
    var left, k, c := -Sign(side) * (held - contracts), contracts as real, credit as real;
    var x, y := n.base * (c / k), left as real / anchor;
    CrossParts(held, contracts, credit);
    assert c / k * k == c && y * anchor == left as real && n.base * anchor == n.contracts as real;
    assert x * (k * anchor) == n.contracts as real * c by {
      assert x * (k * anchor) == (n.base * anchor) * (c / k * k);
    }
    assert y * (k * anchor) == left as real * k;
    assert k * anchor != 0.0 by { NonZero(k, anchor); }
    if x == y {
      assert n.contracts as real * c == left as real * k;
      IntProducts(n.contracts, credit, left, contracts);
    }
    if credit == contracts {
      assert n.contracts == left;
      SameFactor(x, y, k * anchor);
    }
  }

  lemma IntProducts(a: int, b: int, x: int, y: int)
    requires a as real * b as real == x as real * y as real
    ensures a * b == x * y
  {
    assert (a * b) as real == a as real * b as real;
    assert (x * y) as real == x as real * y as real;
  }

  /** Of a mirror at its ratio, read aright. */
  lemma CreditedRead(m: Mirror, side: Side, contracts: int, credit: int, anchor: real)
    requires contracts > 0 && anchor > 0.0 && m.base == m.contracts as real / anchor
    requires m.contracts != 0 ==> Closes(m, side) && Ratio(m) == anchor
    requires !Misread(Abs(m.contracts), contracts)
    ensures var left := m.contracts + Sign(side) * (contracts - credit);
            Credited(m, side, contracts, credit, anchor) == Mirror(left, left as real / anchor)
  {
    hide Misread, Credited, FillAnchor;
    AnchorRead(m, side, contracts, anchor);
    CreditedAtRatio(m, side, contracts, credit, anchor);
  }

  /** The mirror moves once: a part netted ahead by a give-up, then the late execution net of that
      credit, leave what the execution in time would have left, if and only if nothing was netted
      ahead, or all of the mirror is closed, or the execution is read aright: not taken for the
      whole mirror, nor, if it books anything, for the netted one. */
  lemma CreditedOnce(m: Mirror, side: Side, contracts: int, credit: int)
    requires Closes(m, side) && 0 <= credit <= contracts <= Abs(m.contracts) && contracts > 0
    ensures Ratio(m) > 0.0
    ensures Credited(NetMirror(m, Opposite(side), credit), side, contracts, credit, Ratio(m))
            == Credited(m, side, contracts, 0, Ratio(m))
            <==> credit == 0 || contracts == Abs(m.contracts)
                 || (!Misread(Abs(m.contracts), contracts)
                     && (credit == contracts || !Misread(Abs(m.contracts) - credit, contracts)))
  {
    hide NetMirror, FillAnchor, Credited, Ratio, Misread, Closes;
    BaseNonzero(m, side);
    RatioPositive(m, side);
    var a, held := Ratio(m), Abs(m.contracts);
    var n := NetMirror(m, Opposite(side), credit);
    NettedHeld(m, side, credit);
    NettedHeld(m, side, 0);
    NothingNetted(m, Opposite(side));
    if contracts == held {
      WholeCredited(m, n, side, contracts, credit, a);
    } else if credit != 0 {
      CreditedEither(m, side, held, contracts, 0, a);
      CreditedEither(n, side, held, contracts, credit, a);
      LeftNonzero(side, held - contracts, a);
      if Misread(held - credit, contracts) {
        MisreadIs(held - credit, contracts);
        MisreadDiffers(n, side, held, contracts, credit, a);
        ScaledNonzero(n.base, credit, contracts) by { BaseNonzero(n, side); }
      }
    }
  }

  /** Of a billion and one contracts one was netted ahead of an execution of a billion: the
      mirror does not end as it would have. */
  lemma MisreadCredit(m: Mirror)
    requires m.contracts == 1_000_000_001 && m.base > 0.0
    ensures Closes(m, Sell)
    ensures Credited(NetMirror(m, Opposite(Sell), 1), Sell, 1_000_000_000, 1, Ratio(m))
            != Credited(m, Sell, 1_000_000_000, 0, Ratio(m))
  {
    hide Credited, NetMirror, Ratio;
    assert Misread(Abs(m.contracts), 1_000_000_000);
    CreditedOnce(m, Sell, 1_000_000_000, 1);
  }

  /** Below a billion contracts every slice is read aright. */
  lemma SmallIsRead(held: int, contracts: int)
    requires held < 1_000_000_000
    ensures !Misread(held, contracts)
  {
    if contracts != held {
      assert AbsR(held as real - contracts as real) >= 1.0;
    }
  }

  lemma MisreadIs(held: int, contracts: int)
    requires Misread(held, contracts)
    ensures contracts != held
  {
  }

  lemma BaseNonzero(m: Mirror, side: Side)
    requires Closes(m, side)
    ensures m.base != 0.0
  {
  }

  lemma ScaledNonzero(base: real, credit: int, contracts: int)
    requires base != 0.0 && credit != 0 && contracts != 0
    ensures base * (credit as real / contracts as real) != 0.0
  {
    var q := credit as real / contracts as real;
    assert q * contracts as real == credit as real;
    NonZero(base, q);
  }

  lemma LeftNonzero(side: Side, left: int, a: real)
    requires left != 0 && a > 0.0
    ensures (-Sign(side) * left) as real / a != 0.0
  {
    var x := (-Sign(side) * left) as real;
    assert x / a * a == x;
  }

  /** What is held of a closing mirror netted by some contracts. */
  lemma NettedHeld(m: Mirror, side: Side, credit: int)
    requires Closes(m, side) && 0 <= credit <= Abs(m.contracts) && Ratio(m) > 0.0
    ensures var n := NetMirror(m, Opposite(side), credit);
            && n.contracts == -Sign(side) * (Abs(m.contracts) - credit) && Abs(n.contracts) == Abs(m.contracts) - credit
            && n.base == n.contracts as real / Ratio(m)
            && (n.contracts != 0 ==> Closes(n, side) && n.base != 0.0 && Ratio(n) == Ratio(m))
  {
    hide NetMirror;
    NettedBase(m, side, credit);
    NettingKeepsRatio(m, Opposite(side), credit);
  }

  /** A slice of a mirror that leaves some contracts, read aright or not. */
  lemma CreditedEither(n: Mirror, side: Side, held: int, contracts: int, credit: int, a: real)
    requires a > 0.0 && 0 <= credit <= contracts < held && contracts > 0
    requires n.contracts == -Sign(side) * (held - credit) && n.base == n.contracts as real / a
    requires Closes(n, side) && n.base != 0.0 && Ratio(n) == a
    ensures var left := -Sign(side) * (held - contracts);
            Credited(n, side, contracts, credit, a)
            == Mirror(left, if Misread(held - credit, contracts) then n.base * (credit as real / contracts as real)
                            else left as real / a)
  {
    hide Credited, Misread, Ratio;
    assert Abs(n.contracts) == held - credit;
    if Misread(held - credit, contracts) {
      CreditedMisread(n, side, contracts, credit, a);
    } else {
      CreditedRead(n, side, contracts, credit, a);
    }
  }

  /** Closing all of a mirror leaves it flat either way. */
  lemma WholeCredited(m: Mirror, n: Mirror, side: Side, contracts: int, credit: int, a: real)
    requires contracts > 0 && a > 0.0 && m.contracts == -Sign(side) * contracts
    requires n.contracts == -Sign(side) * (contracts - credit)
    ensures Credited(m, side, contracts, 0, a) == Mirror(0, 0.0) == Credited(n, side, contracts, credit, a)
  {
    hide FillAnchor, PartBase;
    AnchorPositive(m, side, contracts, a);
    AnchorPositive(n, side, contracts, a);
  }

  lemma NothingNetted(m: Mirror, side: Side)
    ensures NetMirror(m, side, 0) == m
  {
  }

  lemma RatioPositive(m: Mirror, side: Side)
    requires Closes(m, side)
    ensures Ratio(m) > 0.0
  {
    RatioSides(m);
    Positive(Abs(m.contracts) as real, AbsR(m.base));
  }

  // ---- The mirror the program keeps ----------------------------------------------------------------------

  class NetPosition {
    var contracts: int
    var base: real

    function State(): Mirror
      reads this
    {
      Mirror(contracts, base)
    }

    constructor ()
      ensures State() == Mirror(0, 0.0)
    {
      contracts, base := 0, 0.0;
    }

    /** Fold one own fill in. */
    method Fill(side: Side, count: int, amount: real)
      modifies this
      ensures State() == ApplyFill(old(State()), side, count, amount)
    {
      var sign := if side.Buy? then 1 else -1;
      contracts := contracts + sign * count;
      base := base + sign as real * amount;
      if contracts == 0 {
        base := 0.0;
      }
    }

    /** Book a reducing execution, the part a give-up netted ahead left out; the base the
        core is told. */
    method BookReduce(side: Side, count: int, credit: int, anchor: real) returns (amount: real)
      requires count > 0 && anchor > 0.0
      modifies this
      ensures State() == Credited(old(State()), side, count, credit, anchor)
      ensures amount == count as real / FillAnchor(old(State()), side, count, anchor)
    {
      hide ApplyFill, PartBase, FillAnchor;
      AnchorPositive(State(), side, count, anchor);
      amount := count as real / FillAnchor(State(), side, count, anchor);
      Fill(side, count - credit, PartBase(amount, count - credit, count));
    }

    /** Take contracts of one side off without a fill, the base pro rata. */
    method NetOut(side: Side, count: int)
      modifies this
      ensures State() == NetMirror(old(State()), side, count)
    {
      if count <= 0 || contracts == 0 {
        return;
      }
      var shifted := contracts + (if side.Sell? then count else -count);
      base := base * (shifted as real / contracts as real);
      contracts := shifted;
      if shifted == 0 {
        base := 0.0;
      }
    }
  }

  // ---- Reporting --------------------------------------------------------------------------------------

  /** The base reported to the core for a venue position of `contracts`. */
  function CoreSize(m: Mirror, side: Side, contracts: int, avgPrice: real): real
    requires avgPrice != 0.0
  {
    var signed := Sign(side) * contracts;
    if signed == m.contracts then AbsR(m.base)
    else if signed != 0 && m.contracts != 0 && (signed > 0) == (m.contracts > 0) && Abs(signed) > Abs(m.contracts)
    then AbsR(m.base) + (Abs(signed) - Abs(m.contracts)) as real / avgPrice
    else contracts as real / avgPrice
  }

  /** What the core is shown: of the run's own contracts its booked base, of foreign ones beside
      them their base at the average price, and of a position that is less, or on the other side,
      the venue's own figure. */
  lemma CoreSizeExact(m: Mirror, side: Side, own: int, foreign: int, avgPrice: real)
    requires avgPrice > 0.0 && own >= 0 && own == Abs(m.contracts)
    requires own > 0 ==> (side.Buy? <==> m.contracts > 0)
    ensures own > 0 && foreign >= 0
            ==> CoreSize(m, side, own + foreign, avgPrice) == AbsR(m.base) + foreign as real / avgPrice
    ensures own > 0 && -own <= foreign < 0
            ==> CoreSize(m, side, own + foreign, avgPrice) == (own + foreign) as real / avgPrice
    ensures own == 0 && foreign > 0 ==> CoreSize(m, side, foreign, avgPrice) == foreign as real / avgPrice
    ensures own > 0 && foreign > 0 ==> CoreSize(m, Opposite(side), foreign, avgPrice) == foreign as real / avgPrice
  {
  }

  /** The core never sees a phantom reduction: a venue holding the run's contracts, or more
      on the same side, reports at least the booked base, the whole of it and no more than
      the foreign contracts add. */
  lemma NoPhantomReduction(m: Mirror, side: Side, contracts: int, avgPrice: real)
    requires avgPrice > 0.0 && contracts > 0 && m.contracts != 0 && (Sign(side) > 0) == (m.contracts > 0)
    requires contracts >= Abs(m.contracts)
    ensures CoreSize(m, side, contracts, avgPrice) >= AbsR(m.base)
    ensures CoreSize(m, side, contracts, avgPrice) == AbsR(m.base) <==> contracts == Abs(m.contracts)
  {
    if contracts > Abs(m.contracts) {
      Positive((contracts - Abs(m.contracts)) as real, avgPrice);
    }
  }
}

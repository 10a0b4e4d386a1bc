// A venue stop shared by several exits: each execution of it is split between the exits
// that own it, oldest first, across however many executions the venue cuts it into.

module StopSplit {
  import opened Common

  lemma SumAppend(s: seq<int>, x: int)
    ensures Sum(s + [x]) == Sum(s) + x
  {
    if s == [] {
      assert s + [x] == [x] && [x][1..] == [];
    } else {
      assert (s + [x])[1..] == s[1..] + [x];
    }
  }

  lemma SumTake(s: seq<int>, k: nat)
    requires k < |s|
    ensures Sum(s[..k + 1]) == Sum(s[..k]) + s[k]
  {
    assert s[..k + 1] == s[..k] + [s[k]];
    SumAppend(s[..k], s[k]);
  }

  /** The length two half-open intervals share. */
  function Overlap(lo: int, hi: int, from: int, to: int): int {
    Max(0, Min(hi, to) - Max(lo, from))
  }

  predicate Sizes(qtys: seq<int>) {
    forall i :: 0 <= i < |qtys| ==> qtys[i] >= 0
  }

  /** What exit `k` claims of the run's part `[claimed, claimed + own)` of a stop: its own
      stretch of the rows laid end to end; the newest also takes what no row covers. */
  function Claim(qtys: seq<int>, k: nat, claimed: int, own: int): int
    requires k < |qtys|
  {
    var before := Sum(qtys[..k]);
    Overlap(before, before + qtys[k], claimed, claimed + own)
    + (if k == |qtys| - 1 then own - Overlap(0, Sum(qtys), claimed, claimed + own) else 0)
  }

  lemma NoOverlap(claimed: int, own: int)
    requires claimed >= 0 && own >= 0
    ensures Overlap(0, 0, claimed, claimed + own) == 0
  {
  }

  lemma SumsGrow(qtys: seq<int>, k: nat)
    requires Sizes(qtys) && k <= |qtys|
    ensures 0 <= Sum(qtys[..k]) <= Sum(qtys)
    decreases |qtys| - k
  {
    if k == |qtys| {
      assert qtys[..k] == qtys;
      SumNonneg(qtys);
    } else {
      SumTake(qtys, k);
      SumsGrow(qtys, k + 1);
      assert Sizes(qtys[..k]);
      SumNonneg(qtys[..k]);
    }
  }

  lemma SumNonneg(s: seq<int>)
    requires Sizes(s)
    ensures Sum(s) >= 0
  {
    if s == [] {
    } else {
      assert Sizes(s[1..]) by { assert forall i :: 0 <= i < |s| - 1 ==> s[1..][i] == s[i + 1]; }
      SumNonneg(s[1..]);
    }
  }

  /** One row's part, and what is left of the run's part behind it. */
  lemma SplitStep(before: int, qty: int, claimed: int, own: int)
    requires before >= 0 && qty >= 0 && claimed >= 0 && own >= 0
    ensures var used := Max(0, claimed - before);
            var left := own - Overlap(0, before, claimed, claimed + own);
            var part := Overlap(before, before + qty, claimed, claimed + own);
            && part == Min(Max(0, qty - used), left) && 0 <= part <= left
            && Max(0, used - qty) == Max(0, claimed - (before + qty))
            && left - part == own - Overlap(0, before + qty, claimed, claimed + own)
  {
  }

  /** The split of one execution: every claim is its row's stretch, none is negative, and
      together they are the run's whole part. */
  method Split(qtys: seq<int>, claimed: int, own: int) returns (claims: seq<int>)
    requires qtys != [] && Sizes(qtys) && claimed >= 0 && own >= 0
    ensures |claims| == |qtys|
    ensures forall k :: 0 <= k < |qtys| ==> claims[k] == Claim(qtys, k, claimed, own) && claims[k] >= 0
    ensures Sum(claims) == own
  {
    hide Overlap, Claim;
    claims := [];
    var used, left := claimed, own;
    NoOverlap(claimed, own);
    for k := 0 to |qtys|
      invariant |claims| == k
      invariant used == Max(0, claimed - Sum(qtys[..k]))
      invariant left == own - Overlap(0, Sum(qtys[..k]), claimed, claimed + own)
      invariant Sum(claims) == own - left && 0 <= left
      invariant forall j :: 0 <= j < k ==> claims[j] >= 0
      invariant forall j :: 0 <= j < k ==>
                  claims[j] == Overlap(Sum(qtys[..j]), Sum(qtys[..j]) + qtys[j], claimed, claimed + own)
    {
      SumTake(qtys, k);
      SumsGrow(qtys, k);
      SplitStep(Sum(qtys[..k]), qtys[k], claimed, own);
      var part := Min(Max(0, qtys[k] - used), left);
      used := Max(0, used - qtys[k]);
      left := left - part;
      SumAppend(claims, part);
      claims := claims + [part];
    }
    assert qtys[..|qtys|] == qtys;
    NewestTakesRest(qtys, claimed, own, claims, left);
    var last := |qtys| - 1;
    if left > 0 {
      claims := claims[..last] + [claims[last] + left];
    }
  }

  /** The newest row claims what is left behind the rows. */
  lemma NewestTakesRest(qtys: seq<int>, claimed: int, own: int, claims: seq<int>, left: int)
    requires qtys != [] && |claims| == |qtys|
    requires left == own - Overlap(0, Sum(qtys), claimed, claimed + own) >= 0 && Sum(claims) == own - left
    requires forall j :: 0 <= j < |qtys| ==>
               claims[j] == Overlap(Sum(qtys[..j]), Sum(qtys[..j]) + qtys[j], claimed, claimed + own) && claims[j] >= 0
    ensures var last := |qtys| - 1;
            var r := claims[..last] + [claims[last] + left];
            && (forall k :: 0 <= k < |qtys| ==> r[k] == Claim(qtys, k, claimed, own) && r[k] >= 0)
            && Sum(r) == own && (left == 0 ==> r == claims)
  {
    hide Overlap;
    var last := |qtys| - 1;
    assert claims == claims[..last] + [claims[last]];
    SumAppend(claims[..last], claims[last]);
    SumAppend(claims[..last], claims[last] + left);
  }

  /** Splitting a part and then the next gives every exit what splitting both at once would. */
  lemma ClaimsAdd(qtys: seq<int>, k: nat, claimed: int, a: int, b: int)
    requires k < |qtys| && Sizes(qtys) && claimed >= 0 && a >= 0 && b >= 0
    ensures Claim(qtys, k, claimed, a) + Claim(qtys, k, claimed + a, b) == Claim(qtys, k, claimed, a + b)
  {
    SumsGrow(qtys, k);
    SumNonneg(qtys);
  }

  /** What exit `k` claims of the executions `owns` of one stop, each seeing the earlier claims. */
  function Claimed(qtys: seq<int>, k: nat, claimed: int, owns: seq<int>): int
    requires k < |qtys|
    decreases |owns|
  {
    if owns == [] then 0
    else Claim(qtys, k, claimed, owns[0]) + Claimed(qtys, k, claimed + owns[0], owns[1..])
  }

  /** However the venue cuts the stop into executions, each exit ends with the same claim. */
  lemma {:induction false} SlicingIsFree(qtys: seq<int>, k: nat, claimed: int, owns: seq<int>)
    requires k < |qtys| && Sizes(qtys) && claimed >= 0 && Sizes(owns)
    ensures Claimed(qtys, k, claimed, owns) == Claim(qtys, k, claimed, Sum(owns))
    decreases |owns|
  {
    SumsGrow(qtys, k);
    SumNonneg(qtys);
    if owns == [] {
    } else {
      assert Sizes(owns[1..]) by { assert forall i :: 0 <= i < |owns| - 1 ==> owns[1..][i] == owns[i + 1]; }
      SumNonneg(owns[1..]);
      SlicingIsFree(qtys, k, claimed + owns[0], owns[1..]);
      ClaimsAdd(qtys, k, claimed, owns[0], Sum(owns[1..]));
    }
  }

  // ---- Which part of an execution is the run's ------------------------------------------------

  datatype Verdict = Foreign | Ambiguous | Own(part: int)

  /** The run's part of one execution of a stop that rows of `qtys` own: within the share the
      journal has of the leg, or, where it has none, the quantity no claim was made on yet. */
  function Attribute(qtys: seq<int>, sameLeg: bool, share: int, claimed: int, proven: bool, exec: int): Verdict
    requires qtys != []
  {
    var total := Sum(qtys);
    if share <= 0 && claimed <= 0 && proven then Foreign
    else if |qtys| == 1 then
      Own(if share > 0 then Min(exec, share) else if claimed > 0 then 0 else exec)
    else if !sameLeg || (exec < total && claimed < total) then Ambiguous
    else Own(if share > 0 then Min(exec, share) else if proven then 0 else Min(exec, Max(0, total - claimed)))
  }

  /** The run never claims more than executed, nor more than its share while it has one;
      once its share is proven gone it claims nothing. */
  lemma PartWithinShare(qtys: seq<int>, sameLeg: bool, share: int, claimed: int, proven: bool, exec: int)
    requires qtys != [] && Sizes(qtys) && exec > 0 && claimed >= 0
    ensures var v := Attribute(qtys, sameLeg, share, claimed, proven, exec);
            v.Own? ==> && 0 <= v.part <= exec
                       && (share > 0 ==> v.part == Min(exec, share))
                       && (share <= 0 && proven ==> v.part == 0)
  {
  }

  /** Several exits refuse an execution that names none of them: below all their rows, while
      some of those are unclaimed, or of exits on different legs. */
  predicate Refused(qtys: seq<int>, sameLeg: bool, claimed: int, exec: int) {
    |qtys| > 1 && (!sameLeg || (exec < Sum(qtys) && claimed < Sum(qtys)))
  }

  /** What the run claims of one execution. */
  function PartOf(qtys: seq<int>, sameLeg: bool, share: int, claimed: int, proven: bool, exec: int): int
    requires qtys != []
  {
    var v := Attribute(qtys, sameLeg, share, claimed, proven, exec);
    if v.Own? then v.part else 0
  }

  /** The parts the run books of the executions of one stop: each is attributed on the share
      the earlier ones left and on what they claimed. */
  function Parts(qtys: seq<int>, sameLeg: bool, share: int, claimed: int, proven: bool, execs: seq<int>): seq<int>
    requires qtys != []
    decreases |execs|
  {
    if execs == [] then []
    else
      var part := PartOf(qtys, sameLeg, share, claimed, proven, execs[0]);
      [part] + Parts(qtys, sameLeg, Max(0, share - part), claimed + part, proven, execs[1..])
  }

  /** What was executed and refused while the run still had share to claim. */
  function Lost(qtys: seq<int>, sameLeg: bool, share: int, claimed: int, execs: seq<int>): int
    decreases |execs|
  {
    if execs == [] then 0
    else if Refused(qtys, sameLeg, claimed, execs[0]) then
      (if share > 0 then execs[0] else 0) + Lost(qtys, sameLeg, share, claimed, execs[1..])
    else
      var part := Min(execs[0], Max(0, share));
      Lost(qtys, sameLeg, share - part, claimed + part, execs[1..])
  }

  /** No execution that comes while the run has share to claim is refused. */
  predicate Accepted(qtys: seq<int>, sameLeg: bool, share: int, claimed: int, execs: seq<int>)
    decreases |execs|
  {
    execs == [] || share <= 0
    || (!Refused(qtys, sameLeg, claimed, execs[0])
        && var part := Min(execs[0], share);
           Accepted(qtys, sameLeg, share - part, claimed + part, execs[1..]))
  }

  lemma LostBounds(qtys: seq<int>, sameLeg: bool, share: int, claimed: int, execs: seq<int>)
    requires Positive(execs)
    ensures 0 <= Lost(qtys, sameLeg, share, claimed, execs) <= Sum(execs)
    ensures Lost(qtys, sameLeg, share, claimed, execs) == 0 <==> Accepted(qtys, sameLeg, share, claimed, execs)
    decreases |execs|
  {
    if execs == [] {
    } else {
      hide Refused;
      PositiveRest(execs);
      var part := Min(execs[0], Max(0, share));
      LostBounds(qtys, sameLeg, share, claimed, execs[1..]);
      LostBounds(qtys, sameLeg, share - part, claimed + part, execs[1..]);
      if share <= 0 {
        NothingLost(qtys, sameLeg, share, claimed, execs);
      }
    }
  }

  lemma NothingLost(qtys: seq<int>, sameLeg: bool, share: int, claimed: int, execs: seq<int>)
    requires share <= 0 && Positive(execs)
    ensures Lost(qtys, sameLeg, share, claimed, execs) == 0
    decreases |execs|
  {
    if execs == [] {
    } else {
      hide Refused;
      PositiveRest(execs);
      NothingLost(qtys, sameLeg, share, claimed, execs[1..]);
    }
  }

  predicate Positive(execs: seq<int>) {
    forall i :: 0 <= i < |execs| ==> execs[i] > 0
  }

  lemma PositiveRest(execs: seq<int>)
    requires Positive(execs) && execs != []
    ensures execs[0] > 0 && Positive(execs[1..]) && Sum(execs[1..]) >= 0
  {
    assert forall i :: 0 <= i < |execs| - 1 ==> execs[1..][i] == execs[i + 1];
    SumNonneg(execs[1..]);
  }

  /** What is attributed of one execution while the run has a share, proven or not. */
  lemma SharePart(qtys: seq<int>, sameLeg: bool, share: int, claimed: int, proven: bool, exec: int)
    requires qtys != [] && Sizes(qtys) && exec > 0 && claimed >= 0 && share > 0
    ensures PartOf(qtys, sameLeg, share, claimed, proven, exec)
            == if Refused(qtys, sameLeg, claimed, exec) then 0 else Min(exec, share)
  {
  }

  /** Once it has none: nothing where that is proven or a single exit claimed before, and of
      several unproven exits what the rows have left unclaimed. */
  lemma NoSharePart(qtys: seq<int>, sameLeg: bool, claimed: int, proven: bool, exec: int)
    requires qtys != [] && exec > 0 && claimed >= 0
    requires proven || |qtys| > 1 || claimed > 0
    ensures PartOf(qtys, sameLeg, 0, claimed, proven, exec)
            == if proven || |qtys| == 1 || Refused(qtys, sameLeg, claimed, exec) then 0
               else Min(exec, Max(0, Sum(qtys) - claimed))
  {
  }

  lemma SumHead(s: seq<int>)
    requires s != []
    ensures Sum(s) == s[0] + Sum(s[1..])
  {
  }

  /** Claiming a part and then the rest is claiming both at once, short of what is lost. */
  lemma ClaimStep(share: int, x: int, rest: int, lost: int, refused: bool)
    requires share >= 0 && x > 0 && 0 <= lost <= rest
    ensures var part := if share > 0 && !refused then Min(x, share) else 0;
            && 0 <= part <= share
            && (share > 0 ==> part + Min(share - part, rest - lost)
                              == Min(share, x + rest - ((if refused then x else 0) + lost)))
  {
  }

  /** The executions that come when the run's share is used up. */
  function Behind(qtys: seq<int>, sameLeg: bool, share: int, claimed: int, execs: seq<int>): seq<int>
    decreases |execs|
  {
    if execs == [] || share <= 0 then execs
    else
      var part := if Refused(qtys, sameLeg, claimed, execs[0]) then 0 else Min(execs[0], share);
      Behind(qtys, sameLeg, share - part, claimed + part, execs[1..])
  }

  /** What several exits claim beyond the share on a leg that is not proven: what the share left
      unclaimed of their rows, as far as executions that are not refused come behind it. */
  function Beyond(qtys: seq<int>, sameLeg: bool, share: int, claimed: int, proven: bool, execs: seq<int>): int {
    if proven || |qtys| <= 1 then 0
    else Min(Max(0, Sum(qtys) - claimed - share),
             Taken(qtys, sameLeg, claimed + share, Behind(qtys, sameLeg, share, claimed, execs)))
  }

  lemma PartsFirst(qtys: seq<int>, sameLeg: bool, share: int, claimed: int, proven: bool, execs: seq<int>)
    requires qtys != [] && execs != []
    ensures var part := PartOf(qtys, sameLeg, share, claimed, proven, execs[0]);
            Parts(qtys, sameLeg, share, claimed, proven, execs)
            == [part] + Parts(qtys, sameLeg, Max(0, share - part), claimed + part, proven, execs[1..])
  {
  }

  /** Losses and what comes behind the share, one execution on. */
  lemma LostFirst(qtys: seq<int>, sameLeg: bool, share: int, claimed: int, proven: bool, execs: seq<int>)
    requires execs != [] && execs[0] > 0 && share > 0
    ensures var refused := Refused(qtys, sameLeg, claimed, execs[0]);
            var part := if refused then 0 else Min(execs[0], share);
            && Lost(qtys, sameLeg, share, claimed, execs)
               == (if refused then execs[0] else 0) + Lost(qtys, sameLeg, share - part, claimed + part, execs[1..])
            && Beyond(qtys, sameLeg, share, claimed, proven, execs)
               == Beyond(qtys, sameLeg, share - part, claimed + part, proven, execs[1..])
  {
    hide Refused, Taken;
  }

  lemma NoneLeft(qtys: seq<int>, sameLeg: bool, share: int, claimed: int, proven: bool)
    requires qtys != [] && share >= 0
    ensures Parts(qtys, sameLeg, share, claimed, proven, []) == [] && Sizes([]) && Sum([]) == 0
    ensures Min(share, 0 - Lost(qtys, sameLeg, share, claimed, [])) == 0
    ensures Beyond(qtys, sameLeg, share, claimed, proven, []) == 0
  {
  }

  /** A run without a share on a proven leg, or on a single exit's, claims nothing more. */
  lemma {:induction false} NothingMore(qtys: seq<int>, sameLeg: bool, claimed: int, proven: bool, execs: seq<int>)
    requires qtys != [] && claimed >= 0 && Positive(execs)
    requires proven || (|qtys| == 1 && claimed > 0)
    ensures var parts := Parts(qtys, sameLeg, 0, claimed, proven, execs); Sizes(parts) && Sum(parts) == 0
    decreases |execs|
  {
    hide PartOf, Parts, Positive, Sizes, Sum;
    if execs == [] {
      NoneLeft(qtys, sameLeg, 0, claimed, proven);
    } else {
      PositiveRest(execs);
      PartsFirst(qtys, sameLeg, 0, claimed, proven, execs);
      NoSharePart(qtys, sameLeg, claimed, proven, execs[0]);
      NothingMore(qtys, sameLeg, claimed, proven, execs[1..]);
      PartsCons(0, Parts(qtys, sameLeg, 0, claimed, proven, execs[1..]));
    }
  }

  /** What the whole stop claims: the share as far as it was executed and not refused, and beyond
      it what unproven rows stand in for. */
  lemma {:induction false} PartsSum(
      qtys: seq<int>, sameLeg: bool, share: int, claimed: int, proven: bool, execs: seq<int>)
    requires qtys != [] && Sizes(qtys) && share >= 0 && claimed >= 0 && Positive(execs)
    requires proven || |qtys| > 1 || share + claimed > 0
    ensures var parts := Parts(qtys, sameLeg, share, claimed, proven, execs);
            && Sizes(parts)
            && Sum(parts) == Min(share, Sum(execs) - Lost(qtys, sameLeg, share, claimed, execs))
                             + Beyond(qtys, sameLeg, share, claimed, proven, execs)
    decreases |execs|
  {
    hide Refused, Parts, PartOf, Lost, Accepted, Positive, Sizes, Sum, Beyond, Min;
    LostBounds(qtys, sameLeg, share, claimed, execs);
    if share == 0 {
      NothingLost(qtys, sameLeg, 0, claimed, execs);
      SumLeast(execs);
      if proven || |qtys| == 1 {
        NothingMore(qtys, sameLeg, claimed, proven, execs);
        NothingBeyond(qtys, sameLeg, 0, claimed, proven, execs);
      } else {
        RowsClaimedOnce(qtys, sameLeg, claimed, execs);
        RowsBeyond(qtys, sameLeg, claimed, execs);
      }
    } else if execs == [] {
      NoneLeft(qtys, sameLeg, share, claimed, proven);
    } else {
      var rest, refused := execs[1..], Refused(qtys, sameLeg, claimed, execs[0]);
      PositiveRest(execs);
      SumHead(execs);
      PartsFirst(qtys, sameLeg, share, claimed, proven, execs);
      SharePart(qtys, sameLeg, share, claimed, proven, execs[0]);
      LostFirst(qtys, sameLeg, share, claimed, proven, execs);
      var part := if refused then 0 else Min(execs[0], share);
      LostBounds(qtys, sameLeg, share - part, claimed + part, rest);
      ClaimStep(share, execs[0], Sum(rest), Lost(qtys, sameLeg, share - part, claimed + part, rest), refused);
      PartsSum(qtys, sameLeg, share - part, claimed + part, proven, rest);
      PartsCons(part, Parts(qtys, sameLeg, share - part, claimed + part, proven, rest));
    }
  }

  lemma SumLeast(execs: seq<int>)
    requires Positive(execs)
    ensures Sum(execs) >= 0 && Min(0, Sum(execs)) == 0
  {
    assert Sizes(execs);
    SumNonneg(execs);
  }

  lemma NothingBeyond(qtys: seq<int>, sameLeg: bool, share: int, claimed: int, proven: bool, execs: seq<int>)
    requires proven || |qtys| == 1
    ensures Beyond(qtys, sameLeg, share, claimed, proven, execs) == 0
  {
  }

  lemma RowsBeyond(qtys: seq<int>, sameLeg: bool, claimed: int, execs: seq<int>)
    requires |qtys| > 1
    ensures Beyond(qtys, sameLeg, 0, claimed, false, execs)
            == Min(Max(0, Sum(qtys) - claimed), Taken(qtys, sameLeg, claimed, execs))
  {
  }

  /** Whether anything is claimed beyond the share. */
  lemma BeyondWhen(qtys: seq<int>, sameLeg: bool, share: int, claimed: int, proven: bool, execs: seq<int>)
    requires share >= 0 && Positive(execs) && qtys != []
    ensures Beyond(qtys, sameLeg, share, claimed, proven, execs) >= 0
    ensures Beyond(qtys, sameLeg, share, claimed, proven, execs) > 0
            <==> !proven && |qtys| > 1 && claimed + share < Sum(qtys)
                 && Taken(qtys, sameLeg, claimed + share, Behind(qtys, sameLeg, share, claimed, execs)) > 0
    ensures Beyond(qtys, sameLeg, share, claimed, proven, execs) > 0
            ==> Sum(execs) - Lost(qtys, sameLeg, share, claimed, execs) >= share
  {
    hide Refused, Taken, Lost, Behind;
    BehindPositive(qtys, sameLeg, share, claimed, execs);
    TakenNonneg(qtys, sameLeg, claimed + share, Behind(qtys, sameLeg, share, claimed, execs));
    if Behind(qtys, sameLeg, share, claimed, execs) == [] {
      assert Taken(qtys, sameLeg, claimed + share, []) == 0 by { NoneTaken(qtys, sameLeg, claimed + share); }
    } else {
      ShareUsedUp(qtys, sameLeg, share, claimed, execs);
    }
  }

  lemma NoneTaken(qtys: seq<int>, sameLeg: bool, claimed: int)
    ensures Taken(qtys, sameLeg, claimed, []) == 0
  {
  }

  lemma BehindPositive(qtys: seq<int>, sameLeg: bool, share: int, claimed: int, execs: seq<int>)
    requires Positive(execs)
    ensures Positive(Behind(qtys, sameLeg, share, claimed, execs))
    decreases |execs|
  {
    hide Refused, Positive;
    if execs == [] || share <= 0 {
    } else {
      PositiveRest(execs);
      var part := if Refused(qtys, sameLeg, claimed, execs[0]) then 0 else Min(execs[0], share);
      BehindPositive(qtys, sameLeg, share - part, claimed + part, execs[1..]);
    }
  }

  /** An execution behind the share comes only once the share is used up. */
  lemma {:induction false} ShareUsedUp(qtys: seq<int>, sameLeg: bool, share: int, claimed: int, execs: seq<int>)
    requires Positive(execs) && share >= 0 && Behind(qtys, sameLeg, share, claimed, execs) != []
    ensures Sum(execs) - Lost(qtys, sameLeg, share, claimed, execs) >= share
    decreases |execs|
  {
    hide Refused, Positive, Lost, Sum;
    if share == 0 {
      NothingLost(qtys, sameLeg, 0, claimed, execs);
      SumLeast(execs);
    } else {
      PositiveRest(execs);
      SumHead(execs);
      LostFirst(qtys, sameLeg, share, claimed, true, execs);
      var part := if Refused(qtys, sameLeg, claimed, execs[0]) then 0 else Min(execs[0], share);
      ShareUsedUp(qtys, sameLeg, share - part, claimed + part, execs[1..]);
      LostBounds(qtys, sameLeg, share - part, claimed + part, execs[1..]);
    }
  }

  /** Over all executions of a stop, on a proven leg or not, the attribution claims the run's share
      as far as it was executed and not refused, and beyond it only what several unproven exits'
      rows stand in for. It never claims past the share if and only if the leg is proven, the exit
      is single, the share covers the rows, or nothing that is not refused comes behind it. It
      claims the share as far as the stop executed at all if and only if, besides, no execution
      was refused while there was share to claim or the others made up for it. */
  lemma ShareClaimedOnce(qtys: seq<int>, sameLeg: bool, share: int, claimed: int, proven: bool, execs: seq<int>)
    requires qtys != [] && Sizes(qtys) && share >= 0 && claimed >= 0 && Positive(execs)
    requires proven || |qtys| > 1 || share + claimed > 0
    ensures var parts := Parts(qtys, sameLeg, share, claimed, proven, execs);
            var lost := Lost(qtys, sameLeg, share, claimed, execs);
            var within := proven || |qtys| == 1 || claimed + share >= Sum(qtys)
                          || Taken(qtys, sameLeg, claimed + share, Behind(qtys, sameLeg, share, claimed, execs)) == 0;
            && Sizes(parts)
            && Sum(parts) == Min(share, Sum(execs) - lost) + Beyond(qtys, sameLeg, share, claimed, proven, execs)
            && (Sum(parts) <= share <==> within)
            && (Sum(parts) == Min(share, Sum(execs))
                <==> within && (Accepted(qtys, sameLeg, share, claimed, execs) || Sum(execs) - lost >= share))
  {
    hide Parts, Lost, Accepted, Beyond, Taken, Behind;
    PartsSum(qtys, sameLeg, share, claimed, proven, execs);
    LostBounds(qtys, sameLeg, share, claimed, execs);
    BeyondWhen(qtys, sameLeg, share, claimed, proven, execs);
    BehindPositive(qtys, sameLeg, share, claimed, execs);
    TakenNonneg(qtys, sameLeg, claimed + share, Behind(qtys, sameLeg, share, claimed, execs));
  }

  lemma PartsCons(part: int, rest: seq<int>)
    requires part >= 0 && Sizes(rest)
    ensures Sizes([part] + rest) && Sum([part] + rest) == part + Sum(rest)
  {
    assert ([part] + rest)[1..] == rest;
  }

  /** A single exit refuses nothing, nor do exits of one leg whose stop executes at least their
      rows at a time, or whose rows were claimed before. */
  lemma {:induction false} WholeExecutions(qtys: seq<int>, share: int, claimed: int, execs: seq<int>)
    requires Positive(execs)
    requires |qtys| == 1 || claimed >= Sum(qtys) || forall i :: 0 <= i < |execs| ==> execs[i] >= Sum(qtys)
    ensures Accepted(qtys, true, share, claimed, execs)
    decreases |execs|
  {
    if execs == [] || share <= 0 {
    } else {
      PositiveRest(execs);
      assert forall i :: 0 <= i < |execs| - 1 ==> execs[1..][i] == execs[i + 1];
      WholeExecutions(qtys, share - Min(execs[0], share), claimed + Min(execs[0], share), execs[1..]);
    }
  }

  /** A stop of several exits that executes in pieces below their rows claims nothing at all,
      whatever its pieces add up to. */
  lemma {:induction false} PiecesRefused(qtys: seq<int>, share: int, execs: seq<int>)
    requires |qtys| > 1 && Sizes(qtys) && share > 0 && Positive(execs)
    requires forall i :: 0 <= i < |execs| ==> execs[i] < Sum(qtys)
    ensures Sum(Parts(qtys, true, share, 0, true, execs)) == 0
    ensures Lost(qtys, true, share, 0, execs) == Sum(execs)
    decreases |execs|
  {
    if execs == [] {
    } else {
      PositiveRest(execs);
      assert forall i :: 0 <= i < |execs| - 1 ==> execs[1..][i] == execs[i + 1];
      PiecesRefused(qtys, share, execs[1..]);
      assert Attribute(qtys, true, share, 0, true, execs[0]).Ambiguous?;
      PartsCons(0, []);
      var rest := Parts(qtys, true, share, 0, true, execs[1..]);
      assert ([0] + rest)[1..] == rest;
    }
  }

  /** Two exits of five each, stopped in executions of six and four: the run's ten are closed
      and none of them is claimed. */
  lemma SixAndFourRefused(qtys: seq<int>, execs: seq<int>)
    requires qtys == [5, 5] && execs == [6, 4]
    ensures Sum(execs) == 10 && Sum(Parts(qtys, true, 10, 0, true, execs)) == 0
    ensures !Accepted(qtys, true, 10, 0, execs)
  {
    assert qtys[1..] == [5] && [5][1..] == [] && execs[1..] == [4] && [4][1..] == [];
    PiecesRefused(qtys, 10, execs);
    LostBounds(qtys, true, 10, 0, execs);
  }

  /** Two unproven exits of five each on a share of four, stopped in two executions of ten: the
      first claims the four, the second the six the rows have left. */
  lemma TenBeyondFour(qtys: seq<int>, execs: seq<int>)
    requires qtys == [5, 5] && execs == [10, 10]
    ensures Sum(Parts(qtys, true, 4, 0, false, execs)) == 10
  {
    assert Sum(qtys) == 10 by { assert qtys[1..] == [5] && [5][1..] == []; }
    assert execs[1..] == [10] && [10][1..] == [];
    PartsFirst(qtys, true, 4, 0, false, execs);
    SharePart(qtys, true, 4, 0, false, 10);
    PartsFirst(qtys, true, 0, 4, false, [10]);
    NoSharePart(qtys, true, 4, false, 10);
    NoneLeft(qtys, true, 0, 10, false);
    assert Parts(qtys, true, 4, 0, false, execs) == [4, 6];
    assert [4, 6][1..] == [6] && [6][1..] == [];
  }

  /** What each exit ends with over a whole stop: its stretch of the part claimed, however the
      venue cut it. */
  lemma StopByExit(qtys: seq<int>, k: nat, sameLeg: bool, share: int, claimed: int, proven: bool, execs: seq<int>)
    requires k < |qtys| && Sizes(qtys) && share >= 0 && claimed >= 0 && Positive(execs)
    requires proven || |qtys| > 1 || share + claimed > 0
    ensures Claimed(qtys, k, claimed, Parts(qtys, sameLeg, share, claimed, proven, execs))
            == Claim(qtys, k, claimed, Min(share, Sum(execs) - Lost(qtys, sameLeg, share, claimed, execs))
                                       + Beyond(qtys, sameLeg, share, claimed, proven, execs))
  {
    hide Parts, Lost, Beyond, Claim, Claimed, Sum;
    PartsSum(qtys, sameLeg, share, claimed, proven, execs);
    SlicingIsFree(qtys, k, claimed, Parts(qtys, sameLeg, share, claimed, proven, execs));
  }

  /** What was executed and not refused, whatever the share. */
  function Taken(qtys: seq<int>, sameLeg: bool, claimed: int, execs: seq<int>): int
    decreases |execs|
  {
    if execs == [] then 0
    else if Refused(qtys, sameLeg, claimed, execs[0]) then Taken(qtys, sameLeg, claimed, execs[1..])
    else
      var part := Min(execs[0], Max(0, Sum(qtys) - claimed));
      execs[0] + Taken(qtys, sameLeg, claimed + part, execs[1..])
  }

  lemma TakenNonneg(qtys: seq<int>, sameLeg: bool, claimed: int, execs: seq<int>)
    requires Positive(execs)
    ensures Taken(qtys, sameLeg, claimed, execs) >= 0
    decreases |execs|
  {
    if execs == [] {
    } else {
      PositiveRest(execs);
      TakenNonneg(qtys, sameLeg, claimed, execs[1..]);
      TakenNonneg(qtys, sameLeg, claimed + Min(execs[0], Max(0, Sum(qtys) - claimed)), execs[1..]);
    }
  }

  /** Without a share and without a proof, the rows of several exits stand in for it: they are
      claimed once, as far as they were unclaimed and the stop executed. */
  lemma {:induction false} RowsClaimedOnce(qtys: seq<int>, sameLeg: bool, claimed: int, execs: seq<int>)
    requires |qtys| > 1 && Sizes(qtys) && claimed >= 0 && Positive(execs)
    ensures var parts := Parts(qtys, sameLeg, 0, claimed, false, execs);
            Sizes(parts) && Sum(parts) == Min(Max(0, Sum(qtys) - claimed), Taken(qtys, sameLeg, claimed, execs))
    decreases |execs|
  {
    TakenNonneg(qtys, sameLeg, claimed, execs);
    if execs == [] {
    } else {
      PositiveRest(execs);
      var v := Attribute(qtys, sameLeg, 0, claimed, false, execs[0]);
      var part := if v.Own? then v.part else 0;
      RowsClaimedOnce(qtys, sameLeg, claimed + part, execs[1..]);
      TakenNonneg(qtys, sameLeg, claimed + part, execs[1..]);
      PartsCons(part, Parts(qtys, sameLeg, 0, claimed + part, false, execs[1..]));
    }
  }

  /** Without a share and without a proof, a single exit claims the first execution of its stop
      whole, and none of the later ones. */
  lemma FirstAlone(qtys: seq<int>, sameLeg: bool, execs: seq<int>)
    requires |qtys| == 1 && Positive(execs) && execs != []
    ensures Sum(Parts(qtys, sameLeg, 0, 0, false, execs)) == execs[0]
  {
    PositiveRest(execs);
    var rest := Parts(qtys, sameLeg, 0, execs[0], false, execs[1..]);
    NothingMore(qtys, sameLeg, execs[0], false, execs[1..]);
    assert ([execs[0]] + rest)[1..] == rest;
  }

  // ---- Fees --------------------------------------------------------------------------------------

  function SumReal(s: seq<real>): real {
    if s == [] then 0.0 else s[0] + SumReal(s[1..])
  }

  lemma SumRealAppend(s: seq<real>, x: real)
    ensures SumReal(s + [x]) == SumReal(s) + x
  {
    if s == [] {
      assert s + [x] == [x] && [x][1..] == [];
    } else {
      assert (s + [x])[1..] == s[1..] + [x];
    }
  }

  /** `fee * qty / exec`. */
  function ProRata(fee: real, qty: int, exec: int): real
    requires exec > 0
  {
    fee * (qty as real) / (exec as real)
  }

  lemma ProRataSum(fee: real, a: int, b: int, exec: int)
    requires exec > 0
    ensures ProRata(fee, a, exec) + ProRata(fee, b, exec) == ProRata(fee, a + b, exec)
  {
    var x, y, e := a as real, b as real, exec as real;
    assert fee * (x + y) == fee * x + fee * y;
    assert (fee * x + fee * y) / e == fee * x / e + fee * y / e;
  }

  /** A pro-rated total split by quantity is the execution's own pro rata. */
  lemma ProRataTwice(fee: real, qty: int, total: int, exec: int)
    requires exec > 0 && total > 0
    ensures ProRata(fee, total, exec) * (qty as real / total as real) == ProRata(fee, qty, exec)
  {
    var q, t, e := qty as real, total as real, exec as real;
    assert fee * t / e * (q / t) == fee * q / e by {
      assert fee * t / e == t * (fee / e);
      assert t * (fee / e) * (q / t) == fee / e * (t * (q / t));
      assert t * (q / t) == q;
    }
  }

  lemma WholeFee(fee: real, total: int, exec: int)
    requires 0 < total <= exec
    ensures ProRata(fee, total, exec) == if total < exec then fee * (total as real / exec as real) else fee
    ensures ProRata(fee, 0, exec) == 0.0
  {
    var t, e := total as real, exec as real;
    assert fee * t / e == fee * (t / e);
    assert fee * e / e == fee;
  }

  /** The fee of each slice: pro rata of the whole execution, the last one taking what is
      left, so that foreign exposure keeps its own share of the fee and nothing is lost. */
  method SliceFees(claims: seq<int>, exec: int, fee: real) returns (fees: seq<real>)
    requires claims != [] && Sizes(claims) && 0 < Sum(claims) <= exec
    ensures |fees| == |claims|
    ensures forall k :: 0 <= k < |claims| ==> fees[k] == ProRata(fee, claims[k], exec)
    ensures SumReal(fees) == ProRata(fee, Sum(claims), exec)
  {
    hide ProRata;
    var total := Sum(claims);
    var totalFee := fee;
    if total < exec {
      totalFee := fee * (total as real / exec as real);
    }
    WholeFee(fee, total, exec);
    fees := [];
    var left := totalFee;
    assert claims[..0] == [];
    for k := 0 to |claims|
      invariant |fees| == k
      invariant forall j :: 0 <= j < k ==> fees[j] == ProRata(fee, claims[j], exec)
      invariant SumReal(fees) == ProRata(fee, Sum(claims[..k]), exec)
      invariant left == totalFee - SumReal(fees) || k == |claims|
    {
      SumTake(claims, k);
      ProRataSum(fee, Sum(claims[..k]), claims[k], exec);
      var one;
      if k == |claims| - 1 {
        one := left;
        assert claims[..k + 1] == claims;
      } else {
        one := totalFee * (claims[k] as real / total as real);
        ProRataTwice(fee, claims[k], total, exec);
        left := left - one;
      }
      SumRealAppend(fees, one);
      fees := fees + [one];
    }
    assert claims[..|claims|] == claims;
  }
}

# The position book of the Bybit plugin, modelled and proved

A trading run on Bybit shares its positions with other parties. The plugin keeps three
books about that: a ledger per leg that decides which part of a position is the run's, the
durable entry rows that own exposure, and the intake that books each own execution once.
This project models them in Dafny and proves what they promise, over whole runs.

Quantities are whole grid steps. The program's tolerance is half a step
(`protection.py:1551-1554`), so a test "at most the tolerance" is exactly "at most zero".
Prices, bases and fees, where they matter, are real numbers.

| file | what it models |
|---|---|
| `Common.dfy` | what several parts share: sides, options, the limit of a quantity to a holding |
| `LegBook.dfy` | the ledger's state as values, and what each operation makes of it |
| `LegLedger.dfy` | the ledger object, its methods updating fields in place, tied to `LegBook` |
| `LegFold.dfy` | a proven walk refines a small fold over leg, share and journal |
| `LegOrder.dfy` | the order executions are walked in |
| `LegArrival.dfy` | the order executions reach the ledger in, over whole runs |
| `LegInvariant.dfy`, `LegRuns.dfy` | the invariant of every reachable ledger, and journal conservation over runs |
| `LegResolve.dfy` | a late execution: the doubt, the gap and the room it leaves |
| `LegRelease.dfy` | which kept gaps are released, all at once |
| `LegReports.dfy` | what walks, give-ups, starts and re-walks report |
| `LegDoubt.dfy` | the doubt of a proven walk refines a fold too |
| `LegJump.dfy` | jumping to the furthest matching view against stepping through all of them |
| `LegLate.dfy` | a late own opening fill against a start or a give-up that had it |
| `LegConverge.dfy` | give-up, late booking and re-judged gap against the walk in order |
| `LegCatchUp.dfy` | the same for a fill that arrives after more was recorded and proven |
| `LegCredits.dfy` | the credits clamps leave for late reduces |
| `EntryRows.dfy`, `EntryStore.dfy` | the entry rows, FIFO netting, the adoption clamp, the re-sync to the journal |
| `LegCoupling.dfy` | ledger and rows together over whole runs |
| `FillIntake.dfy`, `FillDesk.dfy` | exactly-once booking over three channels |
| `LegBooking.dfy` | a booked execution and the ledger of its leg |
| `StopSplit.dfy` | one venue stop shared by several exits |
| `Backfill.dfy` | the windowed read of the execution history |
| `QuantityGrid.dfy`, `InverseMirror.dfy` | grid rounding and the inverse net-position mirror |
| `LiveBars.dfy` | closed bars across reconnects |

The ledger is modelled twice. `LegLedgers.LegLedger` has the program's fields and methods
and loops; each method's contract equates the whole state it leaves, and what it returns,
with a function of `LegBook`. The claims about runs are lemmas about those functions.

## Where a claim needs a condition

These claims do not hold of the code on all inputs. Each is proved with its exact condition, or
one that suffices where that is said, beside an input on which it fails.

- Jumping over matching views equals stepping through them only while the side held at each
  stop ranks the executions behind it as the side at the start did: the walk sorts foreign
  executions of one sequence by the side held where it starts (`ledger.py:845-854`). And
  stopping before any execution caps a doubt that jumping may keep: a give-up that clamps the
  share to nothing leaves the earlier doubt uncapped, because a zero quantity is not added
  (`ledger.py:779-785`), and the loop may judge on in that state. `JumpExactly` and
  `TargetIsStepping` are the equivalence for every reachable ledger; `ClashInput` and
  `StopForgetsDoubt` are inputs on which the two differ.
- The doubt may therefore exceed a share of nothing until it is capped the next time. The
  invariant says so: the doubt is within the share, or the share is nothing.
- A give-up for want of one own fill converges to the in-order share and journal, whatever was
  recorded and proven before the fill arrives (`LateOpenConverges`; for a reduce it suffices that
  no credit is evicted, `LateReduceConverges`). Its doubt does not always go: an opening fill
  stamped before the view, into a share the known executions leave at nothing, stays in doubt for good: its gap was never kept, so it is held behind a gap that
  cannot complete (`ledger.py:517-530`, `680-682`; `GiveUpConverges`, `OpenStaysInput`).
- The re-sync of one-way rows reaches the ledger's journal exactly when the short side makes
  up for what the long side's rows lack of their verdicts (`SyncOneWayReaches`, `FallsShort`).
  On that condition, at every sync, the rows agree with the ledger over whole runs.
- A stop shared by several exits is claimed as far as it was executed exactly when no
  execution below the rows' total came while the run had share to claim, or later ones made up
  for it (`ShareClaimedOnce`, `SixAndFourRefused`): such an execution is refused whole. On a leg
  that is not proven the program falls back on what the rows left unclaimed once the share is
  nothing (`events.py:820-828`), where its docstring (`events.py:723-726`) has the executions
  behind the share claim nothing: several exits then claim past the share, exactly when their
  rows hold more than it and an execution that is not refused comes behind it
  (`TenBeyondFour`). Without a share and a proof, a single exit claims only the first execution
  of its stop (`FirstAlone`).
- A full close of an inverse position is exact under every slicing except one that leaves
  less than a billionth of the contracts held: the covering tolerance
  (`execution.py:539-550`) takes such a cut for the whole. `FullCloseExact` is the
  equivalence; `BlurredClose` an input; `SmallIsSharp` shows it needs a billion contracts.
- Netting the inverse mirror in parts is netting at once unless the first part leaves it
  flat (`NettingTwice`).
- An execution of an inverse position, part of which a give-up netted ahead, leaves what it would
  have left in time unless the covering tolerance misreads its size for the mirror's, or for the
  netted one's, without being it (`CreditedOnce`, `MisreadCredit`); that needs a billion contracts (`SmallIsRead`).
- The order executions reach the ledger in is free; it suffices that no two of one owner share
  a sequence, because those may be walked as they came (`ArrivalIsFree`, `TieIsAsItCame`). Where
  the ledger has to drop executions, no two may share a sequence at all.
- A reconnect loses no closed bar of the venue as long as the feed has closed one before. A feed
  that has only seen a bar forming resumes at the newest bar seen, and a frame that arrives
  between the connection and its backfill moves that past bars that closed meanwhile
  (`live_provider.py:225-230`, `422-423`; `ReconnectComplete`, `FramesOvertake`).

## Model

| member | source | states |
|---|---|---|
| LegLedgers.LegLedger.RecordView | src/pynecore_bybit/ledger.py:352-371 | recording a view drops echoes, views at or behind the cursor and an older view of the same sequence, and keeps the newest 64 in order |
| LegLedgers.LegLedger.RecordEvent | src/pynecore_bybit/ledger.py:373-385 | an execution is recorded exactly when it is beyond the cursor; a known id keeps its place; past 512 the first of the least sequence goes |
| LegLedgers.LegLedger.Begin | src/pynecore_bybit/ledger.py:387-436 | anchoring on the newest view: share capped to the leg, journal netted down to it, the rest in doubt, the clamp reported |
| LegLedgers.LegLedger.NetToStart | src/pynecore_bybit/ledger.py:423-432 | the clamp of a start: verdict, doubt, credit and a gap that never completes |
| LegLedgers.LegLedger.TakeJournalShare | src/pynecore_bybit/ledger.py:438-455 | the journal re-read from the rows, executions beyond the cursor taken out, the share and the doubt bounded by it |
| LegLedgers.LegLedger.BookLateOwn | src/pynecore_bybit/ledger.py:457-535 | the whole state after a late own fill, and the booking of what of it is gone |
| LegLedgers.LegLedger.JoinLateForeign | src/pynecore_bybit/ledger.py:537-550 | a late foreign execution joins its kept gap exactly when that gap can complete |
| LegLedgers.LegLedger.HandOver | src/pynecore_bybit/ledger.py:552-560 | the verdicts of each side are handed over whole and forgotten |
| LegLedgers.LegLedger.ReadCredit | src/pynecore_bybit/ledger.py:562-572 | the sum of the credits a late reduce could draw on; nothing is taken |
| LegLedgers.LegLedger.DrawCredit | src/pynecore_bybit/ledger.py:574-595 | the in-place draw of the credits is the draw of the specification, oldest first |
| LegLedgers.LegLedger.KeepGap | src/pynecore_bybit/ledger.py:744-759 | one more gap kept, the two oldest merged while more than 16 |
| LegLedgers.LegLedger.WalkTo | src/pynecore_bybit/ledger.py:819-917 | walking in place is the specified walk: share, journal, doubt, room, credits, verdicts, cursor, views, executions and outcomes |
| LegLedgers.LegLedger.Abandon | src/pynecore_bybit/ledger.py:647-692 | giving an interval up: unproven walk, clamp, credit, doubt, kept gap, new blind view, all outcomes |
| LegLedgers.LegLedger.Resettle | src/pynecore_bybit/ledger.py:694-735 | re-judging the kept gaps on scratch ledgers equals the specified re-judgement |
| LegLedgers.LegLedger.AdvanceTo | src/pynecore_bybit/ledger.py:597-645 | the judging loop terminates, measured by the views beyond the cursor, and is the specified judgement |
| LegLedgers.JudgeRound | src/pynecore_bybit/ledger.py:621-645 | every round of the loop that goes on leaves strictly fewer views beyond the cursor |
| LegBook.GapOf | src/pynecore_bybit/ledger.py:737-742 | the first kept gap an execution falls into, none exactly when no gap holds it |
| LegBook.OldestIndex | src/pynecore_bybit/ledger.py:383-384 | the eviction picks the first execution of the least sequence |
| Common.Toward | src/pynecore_bybit/ledger.py:919-938 | the limit: within the hull of nothing and the holding, nearest to what is wanted, the same when it fits |
| LegFold.LimitsAreToward | src/pynecore_bybit/ledger.py:919-938 | the journal bound and the leg cap are both that limit |
| LegFold.OwnRefines | src/pynecore_bybit/ledger.py:858-877 | a proven own step is the reference step: wanted change limited to the leg, then to the journal |
| LegFold.ForeignRefines | src/pynecore_bybit/ledger.py:879-907 | a proven foreign step limits the share to the leg after it and charges exactly the difference |
| LegFold.ForeignLimits | src/pynecore_bybit/ledger.py:882-899 | what a foreign execution takes leaves the share nearest to what it was within the leg |
| LegFold.ChargedIffBelow | src/pynecore_bybit/ledger.py:885-899 | a foreign execution is charged if and only if the share no longer fits the leg behind it; its doubtful part is within the charge |
| LegFold.WalkRefinesFold | src/pynecore_bybit/ledger.py:856-907 | a proven walk of any executions refines the fold: leg, share, journal and every charge |
| LegFold.ProvenWalkIsFold | src/pynecore_bybit/ledger.py:819-917 | walking onto a matching view is the fold of its executions; the final cap to the view changes nothing |
| LegFold.SortSorted | src/pynecore_bybit/ledger.py:847-854 | executions are walked by sequence, own ones first, then those that grow the run's side |
| LegFold.SortStable | src/pynecore_bybit/ledger.py:847-854 | executions of one sequence and rank are walked in the order recorded |
| LegFold.SortSums | src/pynecore_bybit/ledger.py:847-854 | ordering the walk neither loses nor adds an execution |
| LegFold.WalkLeg | src/pynecore_bybit/ledger.py:857-907 | the leg a walk rebuilds is the leg at the cursor and the sum of the executions |
| LegDoubt.WalkDoubt | src/pynecore_bybit/ledger.py:879-907 | the doubt a proven walk leaves, and the doubtful part of its verdicts, are those of a fold: what was taken beyond the proven part of the share is drawn, the rest stays within the share |
| LegDoubt.WalkGaps | src/pynecore_bybit/ledger.py:787-798 | while any doubt is left each gap holds at most the least share on the way; with none left there is no gap |
| LegDoubt.WalkBeside | src/pynecore_bybit/ledger.py:819-917 | two ledgers that differ in their doubt alone walk alike, outcomes included, when the doubts are equal or nothing is drawn of the one and the other has none |
| LegDoubt.ForgetsWhen | src/pynecore_bybit/ledger.py:879-907 | nothing is drawn of a doubt and none is left of it if and only if some execution leaves the run no share before any foreign one draws on it |
| LegDoubt.CapFirst | src/pynecore_bybit/ledger.py:787-798 | capping the doubt before a walk instead of in its course leaves the same ledger and outcomes if and only if, for a doubt above the share, some execution leaves the run no share before any foreign one draws on the doubt, and otherwise the doubt is used up or no gap comes to hold more than the share did |
| LegJump.JumpExactly | src/pynecore_bybit/ledger.py:625-639 | from any reachable ledger, jumping to the last of any matching views equals walking through all of them (whole state and outcome list) if and only if every interval between is ranked alike by the side held at the start and the side held where it begins, and the first stop caps no doubt the jump would keep |
| LegJump.JumpEqualsStepExactly | src/pynecore_bybit/ledger.py:625-639 | the same for one view stopped on |
| LegJump.AlikeJumps | src/pynecore_bybit/ledger.py:625-639 | ranked alike throughout, the jump is the stepping, when the first stop caps nothing |
| LegJump.NamesAlike | src/pynecore_bybit/ledger.py:847-854 | naming the foreign executions in one side's order throughout is ranking alike throughout |
| LegJump.CappedJump | src/pynecore_bybit/ledger.py:787-798 | the jump from a ledger and from the same with its doubt capped agree if and only if the executions make the cap idle |
| LegJump.WalkEnds | src/pynecore_bybit/ledger.py:908-916 | behind any execution, or from nothing to cap, the end of a proven walk onto a matching view changes nothing |
| LegJump.JumpEqualsSteps | src/pynecore_bybit/ledger.py:625-639 | a condition one can see: no two foreign executions of one sequence in opposite directions, and an execution before the first stop or the doubts within the share |
| LegJump.TargetIsStepping | src/pynecore_bybit/ledger.py:629-639 | the loop's jump onto its target, in whatever state the loop finds the ledger, is the walk through every matching view exactly then |
| LegJump.MatchedUpTo | src/pynecore_bybit/ledger.py:629-636 | the target is the last view up to which every view matches and carries a known sequence |
| LegArrival.WalkAlike | src/pynecore_bybit/ledger.py:819-917 | two ledgers that keep the same executions in another order walk to the same state with the same verdicts, proven or not |
| LegArrival.GiveUpAlike | src/pynecore_bybit/ledger.py:647-692 | they give an interval up alike |
| LegArrival.JudgeAlike | src/pynecore_bybit/ledger.py:621-645 | the whole judging loop leaves them alike and reports the same |
| LegArrival.SettleFromAlike | src/pynecore_bybit/ledger.py:694-735 | their gaps are judged again alike |
| LegArrival.LateAlike | src/pynecore_bybit/ledger.py:457-535 | a late own fill is booked alike |
| LegArrival.RecordNewest | src/pynecore_bybit/ledger.py:373-385 | however many executions come, the ledger keeps the newest 512 of them all |
| LegArrival.RecordAlike | src/pynecore_bybit/ledger.py:373-385 | executions recorded in another order are kept alike, evictions included |
| LegArrival.ApplyAlike | src/pynecore_bybit/protection.py:1673-2029 | every operation of the ledger keeps such ledgers alike and reports the same |
| LegArrival.ArrivalIsFree | src/pynecore_bybit/protection.py:1673-2029 | over any run, the order executions reach the ledger in changes no verdict, and of the ledger only the order it keeps them in; no two of one sequence and one owner, nor, where the ledger has to drop executions, of one sequence at all |
| LegArrival.TieIsAsItCame | src/pynecore_bybit/ledger.py:847-854 | the input: of two foreign reduces of one sequence the one recorded last is charged |
| LegOrder.ForeignOrder | src/pynecore_bybit/ledger.py:847-854 | two sides that walk the foreign executions alike rank every pair of executions alike |
| LegOrder.SortPlaces | src/pynecore_bybit/ledger.py:847-854 | any two executions are walked in the order of their ranks, ties as recorded |
| LegOrder.SortSplit | src/pynecore_bybit/ledger.py:851-854 | the walk order of an interval is the order of its two parts, one after the other |
| LegJump.WalkCalms | src/pynecore_bybit/ledger.py:800-804 | after a proven walk of any execution nothing is left to cap or to note, whatever it started from |
| LegJump.ClashingOrderMatters | src/pynecore_bybit/ledger.py:847-854 | the input on which jumping and stepping differ: one charges the run, the other does not |
| LegJump.ClashInput | src/pynecore_bybit/ledger.py:847-854 | such a ledger satisfies the invariant and the condition on the doubt |
| LegJump.StopForgetsDoubt | src/pynecore_bybit/ledger.py:779-798 | the input on which the stop matters: a doubt that outlived its share, a view, an own open; the jump keeps three in doubt, stepping none |
| LegJump.OutlivedInput | src/pynecore_bybit/ledger.py:668-682 | such a ledger satisfies the invariant |
| LegInvariant.CapCovers | src/pynecore_bybit/ledger.py:787-798 | capping keeps the doubt covered by the gaps and within the share |
| LegInvariant.MergeKeeps | src/pynecore_bybit/ledger.py:744-759 | merging the oldest gaps keeps the sum of their doubt and at most 16 of them |
| LegInvariant.JournalTaken | src/pynecore_bybit/ledger.py:761-770 | a verdict moves journal to the amount still to net, side by side, and nothing else |
| LegInvariant.OwnKeeps | src/pynecore_bybit/ledger.py:858-877 | an own step keeps the accounts and moves the journal by its own change only |
| LegInvariant.ForeignKeeps | src/pynecore_bybit/ledger.py:879-907 | a foreign step keeps the accounts; what it reports is what it netted |
| LegInvariant.WalkKeeps | src/pynecore_bybit/ledger.py:819-917 | a walk keeps the invariant; journal and verdicts together move by the own changes only, and the reported sum is what was handed to the rows |
| LegInvariant.LateDoubtKeeps | src/pynecore_bybit/ledger.py:517-530 | a kept part held in doubt is covered by a gap |
| LegInvariant.LateRoom | src/pynecore_bybit/ledger.py:476-514 | the share a late fill leaves and the room beside it stay within the leg |
| LegInvariant.GrowKeeps | src/pynecore_bybit/ledger.py:504-514 | what a late growth finds no room for is netted and credited, and only that |
| LegInvariant.LateKeeps | src/pynecore_bybit/ledger.py:457-535 | a late own fill keeps the invariant, caps the doubt to the share and reports exactly what it booked gone |
| LegInvariant.SettleKeeps | src/pynecore_bybit/ledger.py:694-735 | judging gaps again books nothing: share, journal, cursor, credits, room and verdicts stay, doubt is covered and never grows |
| LegResolve.LateMove | src/pynecore_bybit/ledger.py:471-516 | the share a late own fill leaves is within what it wants and within the leg, and the booking it reports is exactly what is missing of it |
| LegResolve.LateReduceDoubt | src/pynecore_bybit/ledger.py:496-503 | a late own reduce the share covers resolves just what it took of a doubt it may belong to, and nothing of one it lies behind |
| LegResolve.LateDoubtExact | src/pynecore_bybit/ledger.py:457-535 | what of the doubt any late own fill leaves: what it does not resolve and what of its own is doubted, at most the share |
| LegResolve.LateGapsExact | src/pynecore_bybit/ledger.py:492-530 | the gap it falls into gains it, loses what it resolves and takes on what is doubted, every other gap stays; a doubted part without a gap of the blind view is held behind one that never completes |
| LegResolve.LateReduceRoom | src/pynecore_bybit/ledger.py:488-491 | a late reduce the blind view knew gives its side that much room, one behind it none |
| LegResolve.LateOpenRoom | src/pynecore_bybit/ledger.py:504-516 | a late open is kept as far as there is room, on either side |
| LegResolve.LateRoundTrip | src/pynecore_bybit/ledger.py:457-535 | a late reduce and a late open of as much leave share and journal as they were if and only if the blind view knew the reduce or there was room before |
| LegResolve.LateForeignExact | src/pynecore_bybit/protection.py:1823-1890 | a foreign execution behind the cursor joins the first interval that holds it if that can complete, is of no account before the start, and is reported as unjudged else |
| LegResolve.PutExact | src/pynecore_bybit/ledger.py:381-382 | an execution known already is replaced where it stands, a new one comes last |
| LegRelease.OwnClips | src/pynecore_bybit/ledger.py:858-877 | an own execution is reported exactly when the leg does not hold what the run wants, with the difference |
| LegRelease.WalkGuesses | src/pynecore_bybit/ledger.py:719-728 | a proven walk takes or clips something exactly when the fold of its executions charges the run or limits it to the leg |
| LegRelease.RewalkIsFold | src/pynecore_bybit/ledger.py:709-728 | so does the re-walk of a kept gap, and what its foreign executions took is the charges of the fold |
| LegRelease.SettleAtOnce | src/pynecore_bybit/ledger.py:694-735 | a kept gap is released if and only if its end is known, its executions sum up to the leg and cost the run nothing; judging gap by gap is judging all at once, with the doubt left the least of itself, the share and what the others hold |
| LegRelease.SettleReports | src/pynecore_bybit/ledger.py:719-728 | only foreign verdicts are reported, marked, and while doubt is left exactly what the executions of the judged gaps took |
| LegRelease.SettleSpares | src/pynecore_bybit/ledger.py:729-731 | a gap whose executions cost the run something, or are not all known, is kept until no doubt is left |
| LegRelease.SettleReleases | src/pynecore_bybit/ledger.py:732-734 | no more doubt is released than the released gaps hold |
| LegReports.WalkReports | src/pynecore_bybit/ledger.py:856-907 | every outcome of a proven walk in terms of the fold: what was taken, the share before, the leg after, what was in doubt, what was clipped |
| LegReports.UnprovenWalk | src/pynecore_bybit/ledger.py:856-907 | an unproven walk moves the share by own executions alone, bounded by the journal, reports every foreign one as having taken nothing, and changes nothing else |
| LegReports.UnprovenInterval | src/pynecore_bybit/ledger.py:647-663 | the unproven walk of a give-up is not capped to its view and notes no room |
| LegReports.WalkLeaves | src/pynecore_bybit/ledger.py:908-916 | behind a walk the executions up to its view are gone, and of the views those before it |
| LegReports.WalkOrder | src/pynecore_bybit/ledger.py:847-854 | by sequence; of one sequence own executions first, then foreign ones that do not reduce the side held, then those that do |
| LegReports.RewalkReports | src/pynecore_bybit/ledger.py:709-728 | the re-walk of a gap reports what the fold from its start says, its earlier doubt included |
| LegReports.RewalkIsProof | src/pynecore_bybit/ledger.py:647-692 | a gap kept by a give-up, judged again with all its executions, reports what the ledger would have reported had it proven the interval with them |
| LegReports.GiveUpReports | src/pynecore_bybit/ledger.py:647-692 | a give-up reports its unproven walk, what it clamped, what of the leg no known execution explains, and the share left as doubtful |
| LegReports.StartExact | src/pynecore_bybit/ledger.py:387-436 | a start holds what the view shows of the journal; where that is less the rest is netted, credited and reported and the whole share is in doubt behind one gap that never completes |
| LegReports.MergedNeverCompletes | src/pynecore_bybit/ledger.py:744-759 | merged gaps never complete, reach to the end of the later and hold the doubt of both |
| LegReports.ViewKept | src/pynecore_bybit/ledger.py:352-371 | the views kept are the newest of those before and the one recorded, one per sequence; echoes and views at or behind the cursor change none |
| LegRuns.ViewPlaced | src/pynecore_bybit/ledger.py:352-371 | recording a view keeps the views strictly increasing, at most 64, none behind the cursor |
| LegRuns.EventPlaced | src/pynecore_bybit/ledger.py:373-385 | recording an execution keeps ids distinct, at most 512, all beyond the cursor |
| LegRuns.WalkInv | src/pynecore_bybit/ledger.py:819-917 | a proven walk keeps the whole invariant and ends with the doubt within the share |
| LegRuns.ClampKeeps | src/pynecore_bybit/ledger.py:670-686 | a give-up's clamp restores the invariant and nets exactly the excess over the view |
| LegRuns.ClampLeavesDoubt | src/pynecore_bybit/ledger.py:668-682 | a give-up that clamps the share to nothing leaves the earlier doubt and its gaps as they are |
| LegRuns.GiveUpInv | src/pynecore_bybit/ledger.py:647-692 | a give-up keeps the invariant, and all of what share is left is in doubt |
| LegRuns.JudgeInv | src/pynecore_bybit/ledger.py:621-645 | the judging loop keeps the invariant, moves only forward and reports every verdict it took |
| LegRuns.JudgeForward | src/pynecore_bybit/ledger.py:621-645 | the cursor moves strictly forward or nothing is judged; without grace no view is left; the gap clock runs exactly while one is |
| LegRuns.SettleInv | src/pynecore_bybit/ledger.py:694-735 | re-judging keeps the invariant and takes nothing off the journal |
| LegRuns.AdvanceInv | src/pynecore_bybit/ledger.py:597-645 | a judgement keeps the invariant and the journal the rows owe, whatever grace, clock and knowledge |
| LegRuns.StartInv | src/pynecore_bybit/ledger.py:387-436 | a start establishes the invariant; rows and ledger account for the same journal |
| LegRuns.SyncInv | src/pynecore_bybit/ledger.py:438-455 | a re-sync keeps the invariant and bounds the doubt by the share |
| LegRuns.TakeKeeps | src/pynecore_bybit/ledger.py:574-595 | drawing keeps the credits positive, signed and at most 8 |
| LegRuns.ApplyInv | src/pynecore_bybit/protection.py:1673-1953 | every operation keeps the invariant of a reachable ledger, whatever its arguments |
| LegRuns.RunInv | src/pynecore_bybit/protection.py:1673-1953 | over any run: share on the journal's side and within it, within the leg, room within the foreign exposure, views increasing, executions beyond the cursor, doubt covered |
| LegRuns.EmptyInv | src/pynecore_bybit/ledger.py:286-335 | a new ledger satisfies the invariant |
| LegRuns.OwnConserves | src/pynecore_bybit/protection.py:1673-1729 | an own execution, in time or late, moves the rows' journal by exactly its share change |
| LegRuns.OtherConserves | src/pynecore_bybit/protection.py:1823-1890 | a foreign execution moves nothing of the rows' journal when it is learnt |
| LegRuns.JudgeConserves | src/pynecore_bybit/protection.py:1910-1953 | starting, re-syncing and judging leave the journal the rows hold as read |
| LegRuns.ApplyConserves | src/pynecore_bybit/protection.py:1673-2005 | one operation conserves the journal: only own bookings, hand-overs and re-syncs move it, and what it reports is added to what is still to net, both sides together |
| LegRuns.RunConserves | src/pynecore_bybit/protection.py:1673-2005 | over any run the rows' journal is that of the start, the own changes booked and the changes read in, less the long and plus the short verdicts handed over; and all verdicts reported are those handed over for both sides and those still to net |
| LegLate.RoomIsLeast | src/pynecore_bybit/ledger.py:800-804 | the room kept on the run's side is the least foreign exposure over all steps walked |
| LegLate.FoldWithFill | src/pynecore_bybit/ledger.py:856-907 | counting a fill from the start leaves, of it, the least foreign exposure of any step since |
| LegLate.LateGrows | src/pynecore_bybit/ledger.py:504-514 | a late opening fill is kept as far as the room leaves |
| LegLate.WalkWithFill | src/pynecore_bybit/ledger.py:819-917 | any proven walk of an unsigned leg keeps two ledgers a fill apart: shares and journals by what the room leaves of it |
| LegLate.RoundsWithFill | src/pynecore_bybit/ledger.py:597-645 | so does any number of them, with executions recorded between |
| LegLate.LateEqualsReplay | src/pynecore_bybit/ledger.py:457-535 | late fill equals in-order replay on an unsigned leg: of two ledgers a fill apart the one that books it late ends with the share and the journal of the other, over any number of rounds of executions recorded and proven walks |
| LegLate.LateEqualsStart | src/pynecore_bybit/ledger.py:387-436 | a ledger started without an own opening fill, which then arrives late, ends with the share and journal of one started on rows that had it |
| LegLate.UnprovenWithFill | src/pynecore_bybit/ledger.py:856-877 | unproven, an interval with one own open of its view more holds just that more, whatever else is in it |
| LegLate.GiveUpWithFill | src/pynecore_bybit/ledger.py:647-692 | given up with and without an own opening fill of the view, two ledgers are that fill apart |
| LegLate.LateEqualsGiveUp | src/pynecore_bybit/ledger.py:647-692 | a ledger that gave an interval up without an own opening fill of its view, which then arrives late, ends with the share and journal of one that had it recorded when it gave up |
| LegConverge.OwnWalk | src/pynecore_bybit/ledger.py:858-877 | covered own executions move share and journal by their sum, proven or not, and clip nothing |
| LegConverge.GiveUpState | src/pynecore_bybit/ledger.py:647-692 | the state a give-up for want of one own fill leaves: clamp, credit, doubt, gap, room |
| LegConverge.CreditState | src/pynecore_bybit/protection.py:2007-2029 | the late reduce draws exactly what the give-up clamped for it, whatever older credits are left |
| LegConverge.ReduceCaught | src/pynecore_bybit/ledger.py:457-535 | after the late reduce share and journal are those of the complete interval |
| LegConverge.OpenCaught | src/pynecore_bybit/ledger.py:457-535 | after the late opening fill they are too |
| LegConverge.RewalkQuiet | src/pynecore_bybit/ledger.py:264-274 | with the fill in it the gap is complete and its re-walk reports nothing |
| LegConverge.GapRestated | src/pynecore_bybit/ledger.py:170-179 | an own fill booked net of its credit is re-walked as the venue made it |
| LegConverge.InOrderState | src/pynecore_bybit/ledger.py:819-917 | the proven walk of the complete interval |
| LegConverge.GiveUpConverges | src/pynecore_bybit/events.py:1473-1487 | give-up converges to the in-order book: same share and journal, the reduce netted once between verdict and booking; no doubt is left if and only if the fill reduces, is stamped with the view, or opened into a share that was not nothing |
| LegConverge.OpenStaysDoubted | src/pynecore_bybit/ledger.py:517-530 | an opening fill stamped before the view, into a share that was nothing, stays in doubt whole |
| LegConverge.OpenStaysInput | src/pynecore_bybit/ledger.py:517-530 | a ledger satisfying the invariant, a view and a fill on which it does |
| LegConverge.StampedStale | src/pynecore_bybit/ledger.py:772-777 | the credits left of earlier give-ups, stamped by the cursor, are out of a later reduce's reach |
| LegCatchUp.OwnSum | src/pynecore_bybit/ledger.py:858-877 | covered own executions move share and journal by their sum, proven or not, with whatever doubt and gaps the ledger has |
| LegCatchUp.GivenUpWithout | src/pynecore_bybit/ledger.py:647-692 | the share, journal, doubt and credits of an interval given up for want of one own fill, from a ledger with earlier doubt, gaps and credits |
| LegCatchUp.WalkedWith | src/pynecore_bybit/ledger.py:819-917 | the proven walk of the complete interval from such a ledger |
| LegCatchUp.LateOpenConverges | src/pynecore_bybit/events.py:1473-1487 | a give-up converges for an opening fill that arrives after any rounds of executions recorded and intervals proven: share and journal are those of the ledger that walked it in order, earlier doubt and gaps or none |
| LegCatchUp.StepAhead | src/pynecore_bybit/ledger.py:858-907 | one proven execution keeps a ledger that lacks a reduce ahead of one that has it by what no credit stands for: what a foreign execution takes of that part was in doubt, and is credited |
| LegCatchUp.WalkAhead | src/pynecore_bybit/ledger.py:856-907 | so does any number of executions while no credit is evicted |
| LegCatchUp.RoundsBehind | src/pynecore_bybit/ledger.py:597-645 | and any number of rounds of recorded executions and proven walks |
| LegCatchUp.ReduceArrives | src/pynecore_bybit/protection.py:2007-2029 | the late reduce net of the credits standing for it makes up exactly what the ledger was ahead by |
| LegCatchUp.LateReduceConverges | src/pynecore_bybit/events.py:1473-1487 | a give-up converges for a reduce that arrives after any such rounds: share and journal are those of the ledger that walked it in order |
| LegCredits.DrawExact | src/pynecore_bybit/ledger.py:574-595 | the draw is the smaller of quantity and open credit, off the eligible credits only |
| LegCredits.TakeExact | src/pynecore_bybit/ledger.py:562-595 | a late reduce takes exactly the open credit up to its quantity; the open credit falls by that, every other credit stays |
| LegCredits.TakeSpares | src/pynecore_bybit/ledger.py:562-595 | a late reduce spends no credit of the other side |
| LegCredits.NeverOverdrawn | src/pynecore_bybit/ledger.py:574-595 | over any list of credits issued and late reduces, what was drawn and what is left are what was issued, while nothing is evicted |
| LegCredits.WalkIssues | src/pynecore_bybit/ledger.py:897-902 | a walk credits no more than its verdicts took |
| LegCredits.ApplyIssues | src/pynecore_bybit/protection.py:1673-2029 | every operation credits no more than the verdicts it reports took, and stamps credits and doubt by the cursor |
| LegCredits.EmptyStamped | src/pynecore_bybit/ledger.py:286-335 | a new ledger has nothing stamped beyond it |
| LegCredits.RunNeverOverdrawn | src/pynecore_bybit/protection.py:2007-2029 | over any run of the ledger, evictions included, late reduces draw no more than was credited before and the reported verdicts took |
| EntryRows.FifoSound | src/pynecore_bybit/positions.py:994-1007 | the rows consumed are exactly the live ones of the side, each once, oldest first, holding what the side owns |
| EntryRows.NetRowKeeps | src/pynecore_bybit/events.py:1242-1274 | netting keeps a row's venue cursor and unfilled remainder and retires it exactly when neither exposure nor remainder is left |
| EntryRows.NetAt | src/pynecore_bybit/events.py:1198-1240 | the k-th oldest row loses exactly the part of its exposure the quantity reaches |
| EntryRows.NetRest | src/pynecore_bybit/positions.py:1029-1038 | rows not listed stay; what is left to net is what the listed rows did not hold |
| EntryRows.NetFifoOwned | src/pynecore_bybit/events.py:1198-1240 | netting listed rows takes the quantity off every total that counts them, as far as they hold |
| EntryRows.NetSideConserves | src/pynecore_bybit/events.py:1198-1240 | FIFO netting lowers the side by exactly the smaller of quantity and total, and leaves the other side |
| EntryRows.NetSpares | src/pynecore_bybit/protection.py:2279-2303 | netting leaves retired rows, exits, the other side, for verdicts the adopted and for the clamp the unsettled rows alone |
| EntryRows.NetTakesAll | src/pynecore_bybit/events.py:1198-1240 | every other row of the side is emptied once the quantity reaches the total |
| EntryStores.FoldKeepsNet | src/pynecore_bybit/positions.py:973-978 | folding the two sides keeps the run's signed total and leaves one side |
| EntryStores.HedgeClamp | src/pynecore_bybit/positions.py:979-992 | hedge: each side ends at what it owned, at most its own leg |
| EntryStores.OneWayClamp | src/pynecore_bybit/positions.py:930-992 | one-way: the signed total is limited toward zero to the venue's, one side at most owns anything, never more than the side-by-side clamp leaves |
| EntryStores.SyncHedgeExact | src/pynecore_bybit/protection.py:1978-1985 | a hedge leg's rows come down to the ledger's journal and are never raised |
| EntryStores.SyncOneWayBounded | src/pynecore_bybit/protection.py:1986-2005 | one-way rows never end past the journal on either side of zero and no side gains |
| EntryStores.SyncOneWayExact | src/pynecore_bybit/protection.py:1986-2005 | rows holding the target and the verdicts end exactly on the target, each verdict cut off the side it took, whatever the sign became |
| EntryStores.SyncOneWayReaches | src/pynecore_bybit/protection.py:1986-2005 | balanced one-way rows end on the target if and only if the short side makes up for what the long side's rows lack of their verdicts |
| EntryStores.SyncHedgeReaches | src/pynecore_bybit/protection.py:1978-1985 | a hedge leg's rows end on a target they hold and on no other |
| EntryStores.FallsShort | src/pynecore_bybit/protection.py:1986-2005 | the input on which the re-sync cannot reach: a verdict on a long side without rows |
| EntryStores.NetSideLeft | src/pynecore_bybit/positions.py:1009-1038 | what netting a side leaves of the quantity and of both sides |
| EntryStores.EntryStore.NetEntryRow | src/pynecore_bybit/events.py:1242-1274 | one row of the store netted in place, every other row untouched |
| EntryStores.EntryStore.NetRowsFifo | src/pynecore_bybit/positions.py:1009-1038 | the loop over the rows nets them as specified and returns what was left to net |
| EntryStores.EntryStore.ReduceEntryOwnership | src/pynecore_bybit/events.py:1198-1240 | a reducing fill taken off the opposite side's live entry rows |
| EntryStores.EntryStore.NetSideShare | src/pynecore_bybit/protection.py:2279-2303 | the run's own rows of a side netted, adopted rows spared |
| EntryStores.EntryStore.SyncOneWayRows | src/pynecore_bybit/protection.py:1986-2005 | the one-way re-sync in place is the specified one |
| EntryStores.EntryStore.SyncLegJournal | src/pynecore_bybit/protection.py:1955-2005 | the re-sync of a hedge or one-way leg in place is the specified one |
| EntryStores.EntryStore.FoldRows | src/pynecore_bybit/positions.py:973-978 | folding in place is the specified fold |
| EntryStores.EntryStore.ClampSideTo | src/pynecore_bybit/positions.py:979-992 | clamping one side in place is the specified clamp |
| EntryStores.EntryStore.ClampToVenue | src/pynecore_bybit/positions.py:930-992 | the adoption clamp in place is the specified clamp, hedge or one-way |
| LegCoupling.SyncAgrees | src/pynecore_bybit/protection.py:1955-2005 | handing verdicts over and re-syncing balanced rows makes them agree with the ledger, hedge or one-way, if and only if the re-sync can reach them |
| LegCoupling.JudgedBalanced | src/pynecore_bybit/protection.py:1910-1953 | a judgement on agreeing rows leaves them short by exactly the verdicts it reports |
| LegCoupling.AgreeingSyncIsIdle | src/pynecore_bybit/ledger.py:438-455 | re-reading agreeing rows moves neither journal nor share |
| LegCoupling.StepAgrees | src/pynecore_bybit/protection.py:1673-2005 | a step keeps rows and ledger in agreement when each sync in it can reach the rows and, once the ledger is started, only then |
| LegCoupling.RunAgrees | src/pynecore_bybit/protection.py:1673-2005 | over any run whose syncs can reach the rows they own exactly what the ledger's journal and its executions beyond the cursor say, on a hedge or one-way leg |
| LegCoupling.RunAgreesExactly | src/pynecore_bybit/protection.py:1673-2005 | of a started ledger, the rows agree throughout a run if and only if every sync in it can reach them |
| FillIntake.StillOpen | src/pynecore_bybit/events.py:2006-2033 | an execution not booked yet finds its row open and with room, so no channel's coverage test drops it |
| FillIntake.NetTracks | src/pynecore_bybit/events.py:1242-1274 | netting rows in between never moves a row's venue cursor |
| FillIntake.CursorBooked | src/pynecore_bybit/events.py:1377-1398 | one slice moves its own order's cursor to the booked sum and no other row's |
| FillIntake.DeliverExact | src/pynecore_bybit/events.py:529-647 | a delivery books a new execution once, whatever the channel, and a known one not at all |
| FillIntake.CancelTracks | src/pynecore_bybit/events.py:1276-1343 | settling a cancelled order on the venue's figure keeps what is booked and still to come |
| FillIntake.ApplyInv | src/pynecore_bybit/events.py:529-647 | every delivery, verdict and cancel keeps each row tracking its order |
| FillIntake.LogKept | src/pynecore_bybit/events.py:604-647 | the log grows by exactly the new execution |
| FillIntake.ExactlyOnce | src/pynecore_bybit/events.py:529-602 | exactly once: after any interleaving and repetition of the three channels every delivered execution was booked once, and every live row's owned and netted quantities are the sum of its order's distinct executions |
| FillIntake.DeliverListed | src/pynecore_bybit/events.py:1345-1526 | a delivery never breaks the store's rows |
| FillIntake.SliceMovesCursor | src/pynecore_bybit/events.py:1377-1398 | a slice brings its row to the running sum of the order, or on by itself where that is more; an exit is done once it is there |
| FillIntake.DeliverOwns | src/pynecore_bybit/events.py:1345-1526 | a new entry execution raises its own row and no other; a new reduce takes its quantity less the credit off the entry rows of the other side as far as they own any and leaves its own side; a repeated one moves nothing |
| FillIntake.Barrier | src/pynecore_bybit/events.py:1962-2033 | of a row filled to its size a read books nothing, a push is booked all the same |
| FillIntake.CancelSettles | src/pynecore_bybit/events.py:1276-1343 | a cancelled entry keeps room for just what the venue executed; one that executed nothing, and any exit, is done |
| FillIntake.VerdictOwns | src/pynecore_bybit/protection.py:2279-2303 | a verdict takes its quantity off the run's own rows of its side, adopted rows spared |
| FillDesks.FillDesk.BookOwn | src/pynecore_bybit/events.py:1345-1526 | booking one own execution in place: frontier, running sum, cursor and entry rows |
| FillDesks.FillDesk.Receive | src/pynecore_bybit/events.py:1962-2033 | one execution of a channel skipped, marked owned or booked, as specified |
| FillDesks.FillDesk.ReceiveAll | src/pynecore_bybit/events.py:1869-1916 | a push, a window or an order's executions, row by row |
| LegBooking.EntryMoves | src/pynecore_bybit/events.py:604-647 | a booked entry raises what the run owns of its side by its quantity |
| LegBooking.ReduceMoves | src/pynecore_bybit/events.py:604-647 | a booked reduce lowers what the run owns of the other side by its quantity less the credit, as far as it owns any |
| LegBooking.BookingFits | src/pynecore_bybit/events.py:604-647 | the share the ledger is told of a booking is exactly the change it made to the journal of the leg, one-way or hedge: the premise of the coupling holds of every booking |
| StopSplit.Split | src/pynecore_bybit/events.py:820-842 | each exit claims its own stretch of the rows beyond what was claimed, the newest the surplus; no claim is negative and together they are the run's part |
| StopSplit.ClaimsAdd | src/pynecore_bybit/events.py:829-842 | claiming a part and then the next is claiming both at once |
| StopSplit.SlicingIsFree | src/pynecore_bybit/events.py:829-842 | however the venue cuts the stop, each exit ends with the same claim |
| StopSplit.PartWithinShare | src/pynecore_bybit/events.py:735-828 | the run's part is within the execution and its share; with the share proven gone it is nothing |
| StopSplit.PartsSum | src/pynecore_bybit/events.py:784-842 | what a whole stop claims, on a proven leg or not: the share as far as it was executed and not refused, and beyond it what several unproven exits' rows had left unclaimed |
| StopSplit.ShareClaimedOnce | src/pynecore_bybit/events.py:784-842 | the attribution never claims past the share if and only if the leg is proven, the exit is single, the share covers the rows, or nothing comes behind it that is not refused; it claims the share as far as the stop was executed if and only if, besides, none was refused while there was share or the others made up for it |
| StopSplit.WholeExecutions | src/pynecore_bybit/events.py:788-810 | a single exit refuses nothing, nor do exits of one leg stopped at least their rows at a time or claimed out before |
| StopSplit.PiecesRefused | src/pynecore_bybit/events.py:800-810 | a stop of several exits executed in pieces below their rows claims nothing, whatever they add up to |
| StopSplit.SixAndFourRefused | src/pynecore_bybit/events.py:800-810 | the input: two exits of five, executions of six and four |
| StopSplit.TenBeyondFour | src/pynecore_bybit/events.py:816-828 | the input: two unproven exits of five on a share of four, executions of ten and ten, claim ten |
| StopSplit.StopByExit | src/pynecore_bybit/events.py:829-842 | what each exit ends with over a whole stop, proven or not, is its stretch of what was claimed |
| StopSplit.RowsClaimedOnce | src/pynecore_bybit/events.py:824-828 | without share and proof the rows of several exits stand in for it, claimed once |
| StopSplit.FirstAlone | src/pynecore_bybit/events.py:788-795 | without share and proof a single exit claims the first execution whole and none of the later ones |
| StopSplit.SliceFees | src/pynecore_bybit/events.py:1124-1147 | slice fees are pro rata of the whole execution and sum to the run's part of the fee |
| Backfill.DrainLeavesNoHole | src/pynecore_bybit/events.py:1824-1848 | a pass drains overlapping complete windows from behind the watermark on, without a hole; the watermark never falls nor passes an undrained window; the loop terminates |
| Backfill.NoHoleEver | src/pynecore_bybit/events.py:1749-1867 | over any run of passes, whatever reads fail, everything from the first watermark to the last was read |
| Backfill.AllReadReachesNow | src/pynecore_bybit/events.py:1824-1848 | a pass whose reads all succeed ends at the present |
| Backfill.DrainStep | src/pynecore_bybit/events.py:1824-1835 | a drained window ends strictly beyond the watermark |
| Backfill.ExecutionCursor.constructor | src/pynecore_bybit/events.py:1788-1823 | the cursor starts unread, floored at the adoption |
| Backfill.ExecutionCursor.Pass | src/pynecore_bybit/events.py:1788-1867 | a pass in place: resumed from memory or store, never below the floor, persisted at least every overlap, the outage flag cleared only once the present was read an overlap behind it |
| QuantityGrid.OneFloor | src/pynecore_bybit/helpers.py:295-311 | rounding to nine decimals and cutting is one floor of the ratio, half a billionth generous |
| QuantityGrid.FloorIsOdd | src/pynecore_bybit/helpers.py:295-311 | negative quantities round as their magnitude |
| QuantityGrid.FloorBounds | src/pynecore_bybit/helpers.py:295-311 | the result lies within a step below and half a billionth of a step above |
| QuantityGrid.FloorMonotone | src/pynecore_bybit/helpers.py:295-311 | a larger quantity never rounds to a smaller one, across zero too |
| QuantityGrid.FloorFixesGrid | src/pynecore_bybit/helpers.py:218-230 | grid multiples stay |
| QuantityGrid.FloorsOnto | src/pynecore_bybit/helpers.py:295-311 | a quantity rounds onto a grid multiple if and only if it is within the stated distance of it |
| QuantityGrid.ContractsRoundTrip | src/pynecore_bybit/helpers.py:233-252 | base worth c contracts, off by noise, converts back to c if and only if the noise is worth at most half a billionth of a step downward, less than a step upward |
| QuantityGrid.ReduceRoundTrip | src/pynecore_bybit/helpers.py:255-276 | the reduce form takes back any noise worth less than half a step, and no more |
| QuantityGrid.FloorIsMost | src/pynecore_bybit/helpers.py:295-311 | a count is what flooring leaves if and only if it is the most that fits, half a billionth of a step generous |
| QuantityGrid.ReduceIsNearest | src/pynecore_bybit/helpers.py:255-276 | a count is what a reduce rounds to if and only if it is the nearest, the more of two |
| QuantityGrid.ReduceIsOdd | src/pynecore_bybit/helpers.py:255-276 | a negative worth rounds as its magnitude |
| InverseMirror.CoveringSlice | src/pynecore_bybit/execution.py:519-550 | a slice covering the mirror books all of its base and leaves it flat |
| InverseMirror.PartialSlice | src/pynecore_bybit/positions.py:1091-1102 | a smaller slice keeps the contracts per base of what is left |
| InverseMirror.BlurringSlice | src/pynecore_bybit/execution.py:539-550 | a cut the tolerance takes for the whole books all the base and strands contracts without any |
| InverseMirror.FullCloseExact | src/pynecore_bybit/events.py:1442-1453 | a full close books exactly the mirror's base and ends flat, under any slicing, if and only if no cut is blurred by the covering tolerance |
| InverseMirror.SmallIsSharp | src/pynecore_bybit/execution.py:539-550 | below a billion contracts no slicing blurs |
| InverseMirror.BlurredClose | src/pynecore_bybit/execution.py:539-550 | the input on which it is not exact: a billion and one contracts closed by a billion and one |
| InverseMirror.FullCloseDispatch | src/pynecore_bybit/execution.py:644-685 | a close of the whole base dispatches exactly the mirror's contracts at its ratio |
| InverseMirror.ReduceSends | src/pynecore_bybit/execution.py:644-685 | what any reduce sends: of the whole base all held contracts at the mirror's ratio, of a part the nearest count to its worth at that ratio, or the most within its worth at the parent's anchor, at most what is held; the same counts without a mirror; nothing exactly when that is no contract |
| InverseMirror.UngriddedReduce | src/pynecore_bybit/execution.py:644-685 | without a grid nothing is rounded |
| InverseMirror.OpeningAnchor | src/pynecore_bybit/execution.py:519-550 | an execution that does not close the mirror converts at its own anchor |
| InverseMirror.CoreSizeExact | src/pynecore_bybit/positions.py:1066-1089 | the core is shown the booked base and foreign contracts beside it at the average price; less, or the other side, as the venue has it |
| InverseMirror.FullCloseRoundTrip | src/pynecore_bybit/execution.py:609-685 | from the core's full close to a flat book |
| InverseMirror.NettingKeepsRatio | src/pynecore_bybit/positions.py:1104-1134 | netting by a venue close keeps the base per contract of what is left |
| InverseMirror.NettingTwice | src/pynecore_bybit/positions.py:1104-1134 | netting in parts is netting at once if and only if the first part leaves something to net the second from |
| InverseMirror.NettedBase | src/pynecore_bybit/positions.py:1104-1134 | a netted mirror keeps its side, and its base is its contracts at the ratio the core was told |
| InverseMirror.CreditedMisread | src/pynecore_bybit/execution.py:519-550 | a slice the covering tolerance misreads leaves only what its credited part stands for of all the base |
| InverseMirror.CreditedRead | src/pynecore_bybit/events.py:1442-1453 | any other slice leaves the mirror's contracts at its ratio |
| InverseMirror.CreditedOnce | src/pynecore_bybit/events.py:1442-1453 | the mirror moves once: what a give-up netted ahead and the late execution net of that credit leave what the execution in time would have left, if and only if nothing was netted ahead, all of the mirror is closed, or the tolerance misreads the execution neither for the mirror nor, unless it books nothing, for the netted one |
| InverseMirror.MisreadCredit | src/pynecore_bybit/execution.py:519-550 | the input on which it does not: a billion and one contracts, one netted ahead of a billion |
| InverseMirror.SmallIsRead | src/pynecore_bybit/execution.py:539-550 | below a billion contracts nothing is misread |
| InverseMirror.WholeSlice | src/pynecore_bybit/events.py:1442-1453 | without a credit a slice moves the mirror by all of its contracts and base |
| InverseMirror.NetPosition.Fill | src/pynecore_bybit/positions.py:1091-1102 | a fill folded in in place: a flat contract count is a flat base |
| InverseMirror.NetPosition.BookReduce | src/pynecore_bybit/events.py:1442-1453 | one reducing execution booked in place net of its credit, and the base the core is told |
| InverseMirror.NetPosition.NetOut | src/pynecore_bybit/positions.py:1104-1134 | contracts taken off without a fill, in place, the base pro rata |
| InverseMirror.NoPhantomReduction | src/pynecore_bybit/positions.py:1066-1089 | a venue holding the run's contracts, or more, never shows the core less than its booked base |
| LiveBars.TakeAllOrdered | src/pynecore_bybit/live_provider.py:382-439 | a stream message keeps the queue strictly increasing; while a gap is backfilled it never reaches the queue |
| LiveBars.MessageQueues | src/pynecore_bybit/live_provider.py:382-439 | with nothing held back a message queues exactly the bars it closes beyond the cursor and every earlier one, in order; while a gap is filled it queues none and holds every one |
| LiveBars.StreamNewest | src/pynecore_bybit/live_provider.py:420-423 | the bar seen forming is the newest the stream told of |
| LiveBars.FormingShown | src/pynecore_bybit/live_provider.py:408-437 | a forming bar beyond the cursor is the one left to read, one that has closed shows nothing |
| LiveBars.RowsOrdered | src/pynecore_bybit/live_provider.py:239-268 | a backfill page only appends, strictly increasing |
| LiveBars.GapOrdered | src/pynecore_bybit/live_provider.py:207-272 | the whole backfill only appends, strictly increasing |
| LiveBars.GapComplete | src/pynecore_bybit/live_provider.py:207-272 | the backfill queues exactly the venue's closed bars from its cursor on, each once, in order, however long the gap |
| LiveBars.GapStep | src/pynecore_bybit/live_provider.py:231-272 | one window moves the cursor strictly forward and hides no bar |
| LiveBars.ReleaseKeepsAll | src/pynecore_bybit/live_provider.py:350-363 | held closes go behind everything backfilled, in order, and none the backfill did not reach is lost |
| LiveBars.ReconnectQueues | src/pynecore_bybit/live_provider.py:165-205 | a whole reconnect queues, each once and in order, the venue's closed bars from where the backfill starts and the stream's closes beyond them |
| LiveBars.ReconnectComplete | src/pynecore_bybit/live_provider.py:165-230 | no bar from the resume point on is lost if and only if the backfill starts no later, or the bars before came as closes and it had nothing to queue; a feed that closed a bar before always resumes there |
| LiveBars.FramesOvertake | src/pynecore_bybit/live_provider.py:225-230 | the input: a frame before the backfill moves the start of a feed that has closed no bar yet |
| LiveBars.RunOrdered | src/pynecore_bybit/live_provider.py:47-439 | over any run of connections, messages, pages, releases and failures the closed bars queued in one connection strictly increase, and no forming bar is left to read behind its own close |
| LiveBars.KlineFeed.EnqueueClosed | src/pynecore_bybit/live_provider.py:365-378 | queueing in place, a settled snapshot dropped |
| LiveBars.KlineFeed.OnMessage | src/pynecore_bybit/live_provider.py:382-439 | a stream message in place |
| LiveBars.KlineFeed.ReleaseHeld | src/pynecore_bybit/live_provider.py:350-363 | the release in place |
| LiveBars.KlineFeed.QueueRows | src/pynecore_bybit/live_provider.py:245-268 | one page in place, and whether it queued anything |
| LiveBars.KlineFeed.BackfillGap | src/pynecore_bybit/live_provider.py:207-272 | the gap walk in place terminates and is the specified one |

## Left out

- Quantities below half a grid step, IEEE-754 rounding and the decimal context: quantities are integers, conversions exact reals; the inverse mirror's own float noise is therefore not modelled.
- The object layout of the ledger: share, journal, doubt, credits, room, gaps and the verdicts to net are one record field, and gaps and credits are values, so sharing of a gap object between calls is not captured (the program removes a gap by identity, the model by position).
- Own executions without a sequence (`protection.py:1709-1717`): they add to share and journal without a bound.
- LegRuns.ApplyConserves: asks that an execution is recorded for the first time and that its record has room; with an eviction or a corrected execution the journal beyond the cursor changes by what was dropped. Verdicts are compared over both sides together, because an outcome does not name its side.
- LegRuns.RunConserves: over runs of such operations; what is handed over is told per side, what is reported is not.
- LegCredits.NeverOverdrawn: without evictions, of which LegCredits.RunNeverOverdrawn takes account.
- LegConverge.GiveUpConverges: the doubt half starts from a ledger without earlier doubt or kept gaps on an unsigned leg, the fill arriving straight after the give-up; share and journal are stated without either in LegCatchUp. With earlier gaps the doubt need not return to what it was: releasing leaves it at most the sum of the gaps still kept, which may be more.
- LegCatchUp.LateReduceConverges: the given-up interval holds own executions only, on an unsigned leg, and no credit is evicted before the reduce arrives; an evicted credit is booked twice, and how far share and journal then differ is not stated.
- LegLate.LateEqualsReplay: on an unsigned leg; while the run is flat, executions of one sequence must rank alike whether it is flat or long. The re-reading of the rows between the walks is left out: it changes nothing while rows and ledger agree.
- LegLate.LateEqualsGiveUp: for an opening fill stamped with the view given up on; one stamped before it, LegCatchUp.LateOpenConverges, among own executions only.
- LegArrival.ArrivalIsFree: the executions of a wave reach the ledger before it does anything else; one that arrives only after its interval was judged is booked late, with the outcomes LegLate and LegCatchUp state.
- LegBooking.BookingFits: on rows of which none is adopted; an adopted row of the side is consumed first in, first out with the run's own, and the journal then falls by less.
- LegCoupling.RunAgrees: over runs in which every execution is recorded once; the conditions under which each sync can reach the rows are exact, and whether a run of the program meets them at every sync is not derived from its order placement.
- FillIntake.ExactlyOnce: assumes that an order's executions never exceed its size, that its row exists before them, and that a cancel carries the order's final executed quantity; a store that pruned a row with executions to come is not covered.
- The credit an own reduce is given when it is booked is an input of the intake; how it is drawn is LegCredits and LegConverge, and the credits persisted with the rows (`protection.py:2031-2278`) are not part of this model.
- The sweep that closes the entry rows once the position is flat (`events.py:1149-1196`, `ledger.py:441-444`): no run of LegCoupling or FillIntake contains it.
- The size of a reduce order the venue trimmed to the position left (`events.py:1400-1412`): an order's size is fixed.
- Origin classification, intervention reports, partial take-profit and stop verdicts, order-quantity cuts and audit events: branch tables over what the ledger returns.
- Which exits are candidates for a venue stop and which ids their slices carry (`events.py:735-812`): the split starts from the candidates' quantities.
- The per-order part of the adoption baseline that raises cursors, and untracked exposure adopted as foreign rows.
- The inverse mirror beside the entry rows: the two are modelled apart; the mirror seeded from adopted positions and the anchors looked up per order are inputs; entry and amend conversions are the grid rounding with one factor.
- The wire formats, REST and WebSocket transport, signing, retries and asyncio scheduling: reads are given lists with a flag for a complete read, and a read page is the newest rows of its window.
- The store's SQL, the protection-level guard, the disappearance tracker, the spot inventory and the dispatch journal.
- Live bars: prices, the monthly interval, the reader's end of the queue, and frames arriving while a failed reconnect tears the socket down; frames between two pages of a backfill are taken as coming behind it, which changes nothing that is held or queued; the startup gap's own fetch is reduced to the cursor it leaves.
- Order placement, error mapping, hosts, configuration, symbol resolution, recovery and reconciliation bodies.

# Verified model of the replay, archive, analysis and game-state core

A Dafny model of the parts of this repository whose claims rest on arguments over every input or every run,
with machine-checked proofs of those claims. `dafny verify dfyconfig.toml` checks the whole project.

| files | what they model |
|---|---|
| `Ladders`, `EdgeClimb`, `Baskets`, `BasketProperties`, `KillPrices` | exact ladder walking, basket pricing, the climb to the edge, the kill price |
| `FrameLayout`, `FrameWalk`, `SplitFeeding`, `FrameReader`, `Decoding` | the Zstandard frame layout (section 3.1.1 of RFC 8878), the byte-level walk over it, the bounded decode |
| `ByteStreams`, `Retrieval` | short and failing reads and writes; plain, bounded and verifying readers; retrieval of an archived object |
| `Directories` | a directory that programs see and the one on disk; the durable operations; crashes |
| `RawArchive`, `RawArchiveOrder`, `RawArchiveTakeBack`, `RawReaper`, `Receipts` | archiving and reaping raw segments, and the receipt that authorises it |
| `CanonicalWindow`, `CanonicalReaping` | a finalized window, its reader, and the reaper of its frames |
| `LocalStore` | concurrent writers of one immutable key |
| `OutcomeSpace`, `Masks`, `SeriesMasks`, `Sorting`, `Claims`, `ClaimProperties` | series outcome spaces, masks, and the compression of market relations to claims |
| `Supervisor`, `Ledger`, `CutClock`, `GameState` | retry budgets, the attempt ledger, the replay clock and its scopes, the projection of a match and its loader |
| `Options` | the optional value and the two minima the others share |

How the model stands to the code:

- Loops, readers and reapers are methods and classes with the source's fields, proved against functions that say
  what they compute; pure code is functions. Exceptions are results (`Refused`, `Failed`, `None`, `Raised`).
- Integers are unbounded, as in the source's language; where 64 bits matter they are written out.
- SHA-256 is injective (`Digest`, and the claim digest as a parameter required to be injective). The Zstandard
  decompressor is a nondeterministic object over an abstract function; block contents are opaque.
- What can go wrong outside the code happens at any time and leaves a mark: a read that breaks (`Source.broke`), a
  write whose report counts nothing or too much (`Sink.refused`), a decompressor that fails or strays
  (`Library.failed`), a failing sync (`DurableDirectory.failed`). Contracts say what happens without any of them.
- A directory has a visible state and a state on disk. Changes since the last sync may be lost in a crash: any
  subset of them, or, where a theorem says so, the latest first. A process may be killed between any two steps and
  a sync may fail. A sync by anybody makes all changes of that directory durable.
- The canonical receipt of a window is durable from the moment it exists. The raw reaper relies on that and never
  confirms it itself.

Where the code and its documentation or comments disagree, the model follows the code:

- `walk_basket` says a concave value makes the edge result the maximum (`replay/economic_fills.py:133-141`). That
  holds if and only if the value, at every candidate worth more than the one before it, still rises in the last step
  up to it (`EdgeClimb.ConcaveClimbIsRightExactly`, `BasketProperties.ConcaveEdgeIsRightExactly`). A caller can
  check this at the candidates and the steps before them. Values that bend only at candidates meet it, and so do rising and falling ladders with
  a fixed payoff (`BasketProperties.EdgeIsSmallestMaximizer`); a quadratic fee need not
  (`BasketProperties.ConcaveValuationOvershot`).
- Reaching the limit is not always reported as exhausted: a value unknown there is
  (`EdgeClimb.ExhaustedIffAtLimit`, `EdgeClimb.AtLimitButNotExhausted`).
- A level cap does not hide malformed levels altogether: a fill that ends on the last usable boundary looks at the
  level behind it (`BasketProperties.RefusedExactlyBehindTheCap`).
- A verified reader is to be read to its end. A read of size 0 takes its own empty answer for the end and verifies
  the reader early when the bytes so far are what the receipt promises, whatever follows them
  (`ByteStreams.Reader.ReadVerifying`, `ByteStreams.VerifiedBeforeTheEnd`).
- `kill_price` leaves the other legs unchanged, except for a leg index of -1, where it values all fills once more
  behind the repriced one (`KillPrices.OneLegIsRepricedExactly`).
- A rejected frame has handed on bytes that depend on how it was cut (`SplitFeeding`); accepted input has not.
- The reapers' comments rule out a source without its seal, and evidence without provenance. While crashes undo the
  latest changes first, both hold; when they may lose any changes, each holds over a run exactly when the later removal
  always waits for the earlier one to be on the disk (`RawArchiveOrder.SourceIsNeverBaredExactly`,
  `CanonicalReaping.EvidenceIsNeverStrandedExactly`), and both modules give a run in which it does not.
- A receipt taken back after a failed sync can take the proof of a deleted source with it. It is safe exactly while
  nothing depends on the receipt (`RawArchiveTakeBack.TakeBackIsSafeExactlyWhenQuiet`,
  `RawArchiveTakeBack.SourceIsAlwaysProvenExactly`).
- A key's visible bytes can change through a crash, but only before any put of that key returned (`LocalStore`).
- The projection's comment says it mirrors the loader. It does, except for the score of a match without segments
  (`GameState.CompleteLoadsExactly`).
- A comment in `CutClock` leaves chronology to observation alone, but advancing sets the time, backwards too, and a
  clock so set back accepts cuts it should refuse (`CutClock.AdvancingTurnsBackExactly`). Of its two users the strategy
  runtime advances to every boundary and then sets the time itself, and the market profile never advances; both keep a
  run in order (`CutClock.Runtime.Follow`, `CutClock.MarketProfile.Follow`).
- A map number of 0 selects the winner of the last map (`SeriesMasks.MapZeroIsTheSeries`).

## Model

| member | source | states |
|---|---|---|
| `Ladders.Walk` | replay/economic_fills.py:17-79 | One traversal returns, for every size of a strictly rising list of positive sizes, the fill of that size, and refuses exactly when the arguments or a level it looks at are malformed. |
| `Ladders.Reach` | replay/economic_fills.py:50-75 | The inner loop takes atoms until the target or the end of the ladder, and stops at a malformed level. |
| `Ladders.Took` | replay/economic_fills.py:59-74 | Taking part of a level either extends the last entry taken or starts a new one, and keeps filled, cost and taken in agreement. |
| `Ladders.JointWalkIsSeparateWalks` | replay/economic_fills.py:17-33 | Every size of a joint walk gets exactly the fill that a walk of that size alone returns. |
| `Ladders.JointWalkRefusal` | replay/economic_fills.py:34-48 | A joint walk is refused exactly when the walk of its largest size alone is. |
| `Ladders.FillsWhatItCan` | replay/economic_fills.py:17-33 | A walk fills the lesser of the size and the depth, takes at most what each level shows, and its cost is the sum of price times quantity taken. |
| `Ladders.CostStep` | replay/economic_fills.py:50-75 | One more atom costs the price of the level it comes from. |
| `Ladders.PricesRise` | replay/economic_fills.py:17-33 | On a rising ladder later atoms are never cheaper. |
| `Ladders.NegatedCost` | replay/economic_fills.py:17-33 | A sold ladder is a bought one with its prices negated. |
| `Ladders.WalkIsCheapest` | replay/economic_fills.py:17-33 | On a ladder of rising prices no choice of as many atoms, from whatever levels, costs less than the walk. |
| `Ladders.WalkIsDearest` | replay/economic_fills.py:17-33 | On a ladder of falling prices no choice of as many atoms brings more than the walk. |
| `Ladders.WalkIsAChoice` | replay/economic_fills.py:17-33 | What the walk takes is itself one of those choices, so both bounds are attained. |
| `Ladders.CostIsConvex` | replay/economic_fills.py:17-33 | Cost is convex in the size on rising ladders and concave on falling ones. |
| `Ladders.SamePriceInside` | replay/economic_fills.py:50-75 | Neighbouring atoms differ in price only where a level ends between them. |
| `Ladders.CostAfter` | replay/economic_fills.py:199-217 | Walking on from a fill costs what walking the levels it left costs. |
| `Ladders.PrefixTaken` | replay/economic_fills.py:168-170 | A walk that fits into the first levels sees nothing behind them, so a level cap that is not reached changes nothing. |
| `EdgeClimb.ClimbStops` | replay/economic_fills.py:240-269 | For any integer-or-unknown value: what each way of stopping says, including that an edge stop has value(steps+1) at most value(steps), both known. |
| `EdgeClimb.AcceptedValuesRise` | replay/economic_fills.py:240-269 | Accepted step counts and their values rise strictly from zero, and the last accepted one is the result unless the climb ran into an unknown value. |
| `EdgeClimb.ExhaustedIffAtLimit` | replay/economic_fills.py:238-240 | An answer at the limit makes stopping as exhausted and standing at the limit the same thing, for every value that gives it, if and only if the answer is a known one. |
| `EdgeClimb.AtLimitButNotExhausted` | replay/economic_fills.py:261-263 | A climb ends at the limit without being exhausted exactly when the value there is unknown and the climb accepts every candidate before it. |
| `EdgeClimb.StraightLine` | replay/economic_fills.py:232-237 | Between neighbouring candidates a value that bends only at candidates is a straight line. |
| `EdgeClimb.NeverUpAgain` | replay/economic_fills.py:264-266 | Once a concave value stops rising it never rises again. |
| `EdgeClimb.ConcaveClimbIsRightExactly` | replay/economic_fills.py:133-141 | For a concave value the climb returns the smallest maximizer over all of 0..limit if and only if, at every candidate worth more than the one before it, the value still rises in the very last step. |
| `EdgeClimb.ClimbFindsSmallestMaximizer` | replay/economic_fills.py:232-269 | In particular it does for a concave value that bends only at candidates. |
| `EdgeClimb.ConcavityAloneIsNotEnough` | replay/economic_fills.py:133-141 | A concave value that peaks inside the only gap between candidates, for which the climb misses the maximum. |
| `Baskets.WalkBasket` | replay/economic_fills.py:117-270 | Refuses malformed arguments; otherwise refuses exactly when a usable level, or a level looked at by one of the walks it makes, is malformed. Else it returns one report per target in order and then the edge report, each the specified one. |
| `Baskets.MalformedIsRefused` | replay/economic_fills.py:151-166 | The arguments refused before any level is looked at, one by one. |
| `Baskets.Survey` | replay/economic_fills.py:168-182 | The limit is the least number of steps any leg supplies, and the candidates are the limit and the floors and ceilings of every usable level boundary. |
| `Baskets.SurveyLeg` | replay/economic_fills.py:172-182 | One leg: its depth, its boundary candidates, and whether a level is malformed. |
| `Baskets.FullLimit` | replay/economic_fills.py:183-187 | The limit the uncapped depth would allow, which decides whether the cap or the book ended the walk. |
| `Baskets.PriceTargets` | replay/economic_fills.py:227-231 | Each target gets its own steps when the limit allows them, else the limit with the reason it ended there; refused exactly when one of these cannot be walked. |
| `Baskets.PriceEdge` | replay/economic_fills.py:232-269 | The edge report is that of the climb over the candidates in order. |
| `Baskets.ClimbEdge` | replay/economic_fills.py:240-268 | The memoised loop computes the climb with its fills and value, and is refused exactly when one of the step counts the climb asks about cannot be walked. |
| `Baskets.At` | replay/economic_fills.py:244-248 | A step count met before is answered from the memo, which stays as it is; a new one is walked, valued and added, and nothing else. |
| `Baskets.WalkLegs` | replay/economic_fills.py:192-195 | The fills of all legs at one step count, zero steps being empty fills; refused exactly when a leg meets a malformed level. |
| `Baskets.ValidLaddersAreWalked` | replay/economic_fills.py:34-48 | Ladders without a malformed level are walked at any step count. |
| `Baskets.Price` | replay/economic_fills.py:199-217 | The report on a fill: best levels before and after, floored impact, and the depth beyond. |
| `Baskets.Beyond` | replay/economic_fills.py:201-208 | The depth behind a fill up to one step, one more level than the cap, or the end of the ladder. |
| `BasketProperties.LimitIsTight` | replay/economic_fills.py:168-182 | The limit is exactly the largest step count that the usable depth of every leg supplies. |
| `BasketProperties.RefusedExactlyBehindTheCap` | replay/economic_fills.py:168-195 | With valid usable levels a step count is refused exactly when some leg is filled to its last usable boundary and the level behind the cap is malformed. |
| `BasketProperties.RestPricesOneStep` | replay/economic_fills.py:201-208 | The depth kept behind a fill prices one more step exactly as the ladder does. |
| `BasketProperties.RestIsWhatOneStepNeeds` | replay/economic_fills.py:100-105 | The depth kept behind a fill is what the fill left, best first: every level but the last is needed for one more step, and it falls short only where the ladder or the bound of levels ends it. |
| `BasketProperties.ReportIsExact` | replay/economic_fills.py:90-103 | Every report takes exactly steps times unit atoms of each leg within the cap; short of the limit its beyond holds a step whose own walk costs the difference to the next step. |
| `BasketProperties.BestLevelsAreReported` | replay/economic_fills.py:94-100 | Every report that is made names, for each leg, the best level there was, the first level the fill left of the ladder, and the floored parts per million the price moved between the two. |
| `BasketProperties.TargetFillIsExact` | replay/economic_fills.py:227-231 | So does every target fill. It takes the lesser of target and limit, says `target` exactly when it took the full target, and otherwise names the cap or the book as `EndsAtTheLimit` says; its value is the caller's, and nothing for zero steps. |
| `BasketProperties.EndsAtTheLimit` | docs/ECONOMIC_STRATEGY_SDK_V1.md:1061-1063 | After a stop for want of depth one more step is not to be had within the cap, and the label is `level_cap` exactly when the whole ladders would serve that step. |
| `BasketProperties.EdgeFillIsExact` | replay/economic_fills.py:232-269 | So does the edge fill, whatever the valuation. |
| `BasketProperties.EdgeStopsMean` | replay/economic_fills.py:238-269 | What the stop of an edge fill says about the valuation, whatever it is. |
| `BasketProperties.EdgeReportsItsEnd` | replay/economic_fills.py:183-188 | An edge fill that ended for want of depth names the cap exactly when it was the cap, and reports the value the caller gave for its steps and fills. |
| `BasketProperties.LegBends` | replay/economic_fills.py:232-237 | One leg's cost bends with the order of its prices and is affine around a step count that is not a candidate. |
| `BasketProperties.LegCostIsAffine` | replay/economic_fills.py:232-237 | Between neighbouring candidates the cost of a leg is affine in the steps. |
| `BasketProperties.NetBendsDown` | replay/economic_fills.py:133-141 | The net value of a basket never bends upwards, and is straight away from candidates. |
| `BasketProperties.EdgeIsSmallestMaximizer` | replay/economic_fills.py:128-141 | Bought ladders that rise, sold ladders that fall and a fixed payoff per step: the edge fill is the smallest maximizer over all of 0..limit. |
| `BasketProperties.ConcaveEdgeIsRightExactly` | replay/economic_fills.py:133-141 | For any ladders and any concave valuation the edge fill is the smallest maximizer exactly under the condition of `EdgeClimb.ConcaveClimbIsRightExactly`. |
| `BasketProperties.ConcaveValuationOvershot` | replay/economic_fills.py:133-141 | One level of four atoms and a concave valuation that peaks before them: the edge fill takes all four, reports the book exhausted, and is worth less than two. |
| `KillPrices.KillPrice` | replay/economic_fills.py:273-324 | For any index, counted from either end: the binary search returns a price at which the fill is unknown or worth nothing beside a neighbour at which it is worth something, or nothing at all when the far end of the range is still worthwhile, and refuses exactly the bad arguments. |
| `KillPrices.KillPriceIsTheThreshold` | replay/economic_fills.py:273-296 | For a monotone value the kill price is the threshold: exactly the prices on one side of it are worthwhile. |
| `KillPrices.OneLegIsRepricedExactly` | replay/economic_fills.py:296-302 | What is valued are the same fills with the one leg repriced if and only if the index is not -1. |
| `KillPrices.RepricedIsAWalk` | replay/economic_fills.py:297-302 | The repriced leg is what a walk of its whole quantity makes of a book with that one price. |
| `FrameLayout.BlocksInjective` | encoder/compression.py:534-606 | Different block lists are written differently, whatever follows. |
| `FrameLayout.WrittenInjective` | encoder/compression.py:469-485 | A byte string is written by at most one frame of section 3.1.1 of RFC 8878. |
| `FrameLayout.DescriptorFields` | encoder/compression.py:566-580 | The header descriptor, field by field from the lowest bits up, and the header bytes each stands for. |
| `FrameWalk.HeaderExample` | encoder/compression.py:581-593 | A block header is three bytes, lowest first: a concrete one, written and read. |
| `FrameWalk.RunConcat` | encoder/compression.py:522-532 | Walking two strings one after the other is walking their concatenation. |
| `FrameWalk.FrameRuns` | encoder/compression.py:534-606 | Whatever follows a frame, the walk ends exactly where the frame does. |
| `FrameWalk.DoneIsAFrame` | encoder/compression.py:534-606 | A walk that completes has consumed exactly one well-formed frame. |
| `FrameWalk.CompletesExactlyOnFrames` | encoder/compression.py:534-606 | The walk completes exactly when the bytes begin with a frame, which is the only frame they begin with. |
| `FrameWalk.RejectsOnlyNonFrames` | encoder/compression.py:550-592 | Rejected bytes neither begin with a frame nor begin one. |
| `FrameWalk.BlocksSeen` | encoder/compression.py:581-606 | A walk over blocks that completes has seen well-formed blocks up to the last and the checksum the header announced. |
| `FrameWalk.NotOverTakesAll` | encoder/compression.py:522-532 | An unfinished walk has consumed everything it was fed. |
| `SplitFeeding.CutsDoNotMatter` | encoder/compression.py:505-532 | For any split the verdict is that of the whole string; unless it is rejected, so are the bytes handed on and the trailing bytes. |
| `SplitFeeding.RejectionHandsOnEarlierChunks` | encoder/compression.py:522-532 | When the bytes are rejected, exactly the chunks before the rejection were handed on. |
| `SplitFeeding.SameAsWholeExactlyUnlessRejectedLate` | encoder/compression.py:522-532 | A split hands on what the whole string does if and only if the bytes are not rejected, or nothing precedes the rejected chunk. |
| `SplitFeeding.RejectedLateExample` | encoder/compression.py:566-580 | A string and two of its splits that hand on different bytes before rejecting it. |
| `FrameReader.FrameBoundedReader.constructor` | encoder/compression.py:487-503 | A new reader has walked over nothing. |
| `FrameReader.FrameBoundedReader.Feed` | encoder/compression.py:522-532 | Feeding a chunk moves the reader to where the walk over everything fed is, queues the bytes of the frame and counts the rest as trailing. |
| `FrameReader.FrameBoundedReader.WalkOver` | encoder/compression.py:524-528 | The chunk loop consumes exactly as far as the frame goes. |
| `FrameReader.FrameBoundedReader.Advance` | encoder/compression.py:534-565 | One turn moves on by part of a block body or of a header field, and raises only where the walk rejects. |
| `FrameReader.FrameBoundedReader.ReadDescriptor` | encoder/compression.py:566-580 | The descriptor decides the size of the other header fields and whether a checksum follows. |
| `FrameReader.FrameBoundedReader.ReadBlockHeader` | encoder/compression.py:581-593 | A block header decides how many bytes follow and whether the block is the last. |
| `FrameReader.FrameBoundedReader.FinishBlock` | encoder/compression.py:594-606 | After the last block comes the checksum or the end. |
| `FrameReader.FrameBoundedReader.Read` | encoder/compression.py:505-520 | For any size, none, negative or zero: what is handed out continues the frame and stays inside it, over any short reads; an empty answer means the end, or that nothing was asked for; and it fails only where a read failed, the source is not what it should be, or its bytes are no frame. |
| `FrameReader.FrameBoundedReader.HasTrailingBytes` | encoder/compression.py:608-612 | The answer is empty if and only if the frame is the whole object, which then has been read to its end, and verified by a verifying source. |
| `FrameReader.SplitGrows` | encoder/compression.py:522-532 | The bytes fed stay split at the end of the frame. |
| `FrameReader.SplitHandsOut` | encoder/compression.py:505-520 | Handing out moves bytes from the queue, in order. |
| `Decoding.AcceptedFramesAreSelfContained` | encoder/compression.py:445-466 | Of all frames the header check passes exactly those that carry a checksum and name no dictionary. |
| `Decoding.HeadersFit` | encoder/compression.py:434-466 | The bytes looked at hold the whole header of any frame, and for some frame they are all needed. |
| `Decoding.ReadAtMost` | encoder/compression.py:434-442 | Reads as many bytes as asked or as there are, from any kind of source, over any short reads. |
| `Decoding.Decoder.Read` | encoder/compression.py:385-400 | The decompressor: any pulls, any failures, at most a buffer of output, and an empty answer only once the reader had no more to give; if the frame was whole by then, the decompressor has put out what the bytes handed to it decode to. |
| `Decoding.Decoder.End` | encoder/compression.py:385-400 | The empty answer comes only behind everything the reader had; given the whole frame it means that the frame decodes to what was put out. |
| `Decoding.Pump` | encoder/compression.py:385-400 | The sink never receives more than the limit, and what it received is counted and hashed; it fails only if the output is longer than the limit, a read or a write failed, the decompressor did, or the source is not sound. |
| `Decoding.PassOn` | encoder/compression.py:392-400 | A chunk is refused before it is written exactly when it would pass the limit; otherwise it is written in full unless a write fails. |
| `Decoding.OpenFrame` | encoder/compression.py:367-383 | The header is judged before anything is decoded, and fed to the walk; a sound source with an acceptable header is turned away only by a failing read. |
| `Decoding.WholeFrame` | encoder/compression.py:402-420 | A complete frame with nothing behind it is everything the source held. |
| `Decoding.DecodeStream` | encoder/compression.py:338-432 | For any kind of source, over short reads that may break: the sink never takes a byte more than the limit; success means the source was read to its end, is one frame with an acceptable header, was handed to the decompressor whole and decoded by it to what the sink took, with both identities as expected. And exactly those objects succeed: unless a read, a write or the decompressor fails, a readable source that holds such a frame, within the limit, is decoded. |
| `Decoding.Finish` | encoder/compression.py:402-432 | Behind the last chunk: success exactly for a frame that is the whole object and has both identities right, unless a read fails. |
| `Decoding.FramesEndTheWalk` | encoder/compression.py:534-606 | The walk over a frame is done exactly at its end, and rejects nothing before. |
| `Decoding.Conclude` | encoder/compression.py:402-432 | Both identities are compared over the whole frame and the whole output; success exactly when they are right and the output ends in a newline. |
| `ByteStreams.WriteAll` | encoder/compression.py:219-243 | Writes every byte over any short writes, or fails because one write failed, leaving a prefix. |
| `ByteStreams.Source.Read` | archive/storage/base.py:215-236 | A stream's reads are short, in order, and empty only at the end or when nothing is asked for; any read of something may break. |
| `ByteStreams.Sink.Write` | encoder/compression.py:219-243 | What a sink's report says about the bytes it took. |
| `ByteStreams.Reader.Read` | archive/storage/base.py:156-236 | A plain, bounded or verifying reader, asked for any size, none, negative or zero, with reads that may break at any call: bytes come in order, and an empty answer to a request for something comes only at the end, which a verifying reader has then verified; only an object longer than its maximum is refused by a bounded one. |
| `ByteStreams.Reader.ReadBounded` | archive/storage/base.py:161-177 | At most the maximum is handed out, over any short reads; a refusal means the object is longer, and an empty answer that it is not. |
| `ByteStreams.Reader.ReadVerifying` | archive/storage/base.py:215-236 | An empty chunk only once everything was read and verified; a read of nothing judges what was read so far, and verifies the reader early exactly when that is what the receipt promises. |
| `ByteStreams.VerifiedBeforeTheEnd` | archive/storage/base.py:215-236 | Any reader that stands behind the promised bytes with more to come, asked for nothing, verifies, answers that this is the end, and closes in good order. |
| `ByteStreams.NothingPromised` | archive/storage/base.py:215-236 | There is such a reader: any bytes where the receipt promises none. |
| `ByteStreams.Reader.Verify` | archive/storage/base.py:237-259 | Verification succeeds exactly on the promised digest and length, an undisturbed file and, where the receipt records it, the provider's checksum of what was read. |
| `ByteStreams.Reader.Close` | archive/storage/base.py:261-284 | Leaving a verifying reader early fails unless the rest verifies, and succeeds behind the last byte of a genuine object unless a read fails; the others just close. |
| `ByteStreams.LineCountConcat` | encoder/compression.py:188-217 | Line counts add up over chunks. |
| `ByteStreams.LinesAreNewlines` | encoder/compression.py:188-217 | The line count is the number of newline bytes. |
| `Retrieval.IterBytes` | archive/retrieval.py:65-102 | Yields exactly the promised logical bytes, or nothing at all: no chunk before everything was verified. A genuine object that holds what its receipt promises is yielded unless a read, a write to the staging file or the decompressor fails. |
| `Retrieval.CopyPlain` | archive/retrieval.py:203-222 | An uncompressed object is copied, hashed and counted through its verifying reader; a genuine one with the promised lines always is, unless a read or a write fails. |
| `Retrieval.ReadStaged` | archive/retrieval.py:88-102 | The staged file is read back whole, in chunks. |
| `Directories.ReplayAppend` | archive/common/durable.py:38-101 | A change shows at once to every program. |
| `Directories.CrashKeeps` | archive/common/durable.py:1-12 | A name nobody removed since the last sync survives any crash, and a name nobody added does not appear. |
| `Directories.InOrderKeepsPrefix` | archive/common/durable.py:1-12 | A crash that undoes the latest changes first leaves a prefix of them. |
| `Directories.DurableDirectory.Fsync` | archive/common/durable.py:30-35 | A sync makes everything visible durable, or fails and makes nothing so. |
| `Directories.DurableDirectory.ConfirmDurable` | archive/common/durable.py:38-48 | Makes an already visible marker durable. |
| `Directories.DurableDirectory.WriteDurable` | archive/common/durable.py:51-84 | Success means durable; failure leaves the directory as it was, or with the name visible, or with the name taken back, synced or not, and in no other state. |
| `Directories.DurableDirectory.RemoveDurable` | archive/common/durable.py:87-101 | Removes a name durably; a name that is gone already is not synced; it fails only when a sync does. |
| `RawArchive.AbsentSourceIsProven` | archive/reaper/service.py:221-410 | In every interleaving of archivers and reapers with kills, failed syncs and crashes that lose any unsynced changes, an absent source has a durable production receipt, its exact objects and its canonical input, as long as no receipt is taken back while something depends on it. |
| `RawArchiveTakeBack.SourceIsAlwaysProvenExactly` | archive/reaper/service.py:221-410 | And exactly then: from no moment of a run do processes that take nothing back any more come to a source gone without its proof, if and only if the run took no receipt back while something depended on it. |
| `RawArchive.RunKeepsInv` | archive/archiver/service.py:312-396 | The invariant behind it holds over whole runs. |
| `RawArchive.StepKeepsInv` | archive/archiver/service.py:312-396 | Every single step of an archiver or reaper keeps it. |
| `RawArchive.CrashKeepsInv` | archive/common/durable.py:1-12 | Every crash keeps it. |
| `RawArchive.PublishKeepsInv` | archive/archiver/service.py:340-396 | The receipt is published last, after both objects verified. |
| `RawArchive.UnlinkKeepsInv` | archive/reaper/service.py:388-398 | Deletion keeps it, because the receipt was confirmed first. |
| `RawArchive.StartKeepsInv` | archive/archiver/service.py:246-311 | Accepting an existing receipt, or starting over without one, keeps it. |
| `RawArchiveTakeBack.TakeBackIsSafeExactlyWhenQuiet` | archive/common/durable.py:70-84 | From every reachable state, taking a receipt back has a continuation, with no further receipt taken back, in which the source is gone without its evidence, if and only if the receipt is a visible production receipt and something depends on it: the source may already be gone, or a reaper is on its way. |
| `RawArchiveTakeBack.WritesAreStages` | archive/common/durable.py:51-84 | Whatever a durable write of the receipt can do, the archiver's stages from publishing on can do. |
| `RawArchiveTakeBack.StagesAreWrites` | archive/common/durable.py:51-84 | However these stages run to their end, with kills and failing syncs, it is one of the outcomes of a durable write. |
| `RawArchiveTakeBack.BlindReaperLoses` | archive/reaper/service.py:221-398 | A reaper that has seen the receipt goes on to delete the source after the receipt is gone. |
| `RawArchiveOrder.OrderedCrashesNeverBareTheSource` | archive/reaper/service.py:393-398 | While crashes undo the latest changes first, no run ever leaves a source without its seal. |
| `RawArchiveOrder.SealBeforeSyncIsTheHole` | archive/reaper/service.py:325-351 | Removing the seal makes a crash able to leave the source without it exactly when the source's removal is not on the disk yet. |
| `RawArchiveOrder.SourceIsNeverBaredExactly` | archive/reaper/service.py:388-398 | Over any run with any crashes: a crash can at no moment leave a source without its seal if and only if every seal of the run was removed after the removal of its source was on the disk. |
| `RawArchiveOrder.SyncedRemovalsNeverBareTheSource` | archive/reaper/service.py:393-398 | In particular, when every seal goes after the source's removal was synced, no crash whatever leaves a source without its seal. |
| `RawArchiveOrder.EveryCrashStateCanBeFinished` | archive/reaper/service.py:325-351 | From every state a crash can leave, one archiver pass and one reaper pass finish, with the evidence in place. |
| `RawArchiveOrder.TakingBackCanDestroyTheProof` | archive/common/durable.py:70-84 | A run in which a receipt taken back leaves a deleted source without its receipt. |
| `RawArchiveOrder.KilledReaperAndUnorderedCrashBareTheSource` | archive/reaper/service.py:325-351 | A run with a killed reaper and a crash that loses only the older change, which leaves the source without its seal. |
| `RawReaper.BuildIndex` | archive/common/receipts.py:817-847 | The index names exactly the inputs of readable canonical receipts, each with the first window that names it, and counts the faulty ones. |
| `RawReaper.Consider` | archive/reaper/service.py:221-410 | One pass returns the verdict of the checks in their order and makes exactly the removals it calls for; it fails exactly when a sync does, leaving a front part of them made, and the source only goes with its receipt on the disk. |
| `RawReaper.RemoveSegment` | archive/reaper/service.py:388-398 | The receipt is confirmed, then the source goes, then the seal. |
| `RawReaper.SourceGoesExactlyWhenProven` | archive/reaper/service.py:221-398 | The source is deleted if and only if all conditions hold, from the lane binding to the full rehash. |
| `RawReaper.DerivativeGoesExactlyWhenArchived` | archive/reaper/service.py:236-270 | The compressed copy is deleted if and only if the run is destructive, the copy is there, the receipt is a production one of its lane, the store is independent and its objects verify; it goes first. |
| `RawReaper.SealGoesExactlyWhenProven` | archive/reaper/service.py:325-398 | The seal is deleted if and only if the source is, or the source is gone and everything else is proven; the receipt never is. |
| `RawReaper.AuditsDeleteNothing` | archive/reaper/service.py:188-196 | An audit run deletes nothing, names itself as the reason exactly where a destructive run would delete raw files, and otherwise decides the same. |
| `RawReaper.ReasonsMean` | archive/reaper/service.py:221-410 | Each reason for keeping or refusing names a gate that was closed or a contradiction that is there. |
| `RawReaper.DeletedBytesAreTheArchivedBytes` | archive/reaper/service.py:414-439 | What is deleted is byte for byte what was archived. |
| `RawReaper.SealGoesAfterSource` | archive/reaper/service.py:393-398 | The seal goes last, and never without the source. |
| `RawReaper.LaterPassesFinish` | archive/reaper/service.py:325-351 | Whatever a failed pass left, a later pass over the same proofs completes the same deletion. |
| `RawReaper.FinishedStaysFinished` | archive/reaper/service.py:309-323 | Over a finished deletion a pass reports it as done. |
| `RawReaper.StagesDeleteWhatTheVerdictAllows` | archive/reaper/service.py:221-398 | In every reachable state of the interleaved protocol, a process about to delete source or seal deletes what a whole fresh decision at that moment would delete. |
| `RawReaper.StagesCarryTheVerdictOut` | archive/reaper/service.py:325-398 | Where the decision calls for deletions, a reaper that starts there and is left alone makes exactly these, durably, and changes nothing else. |
| `Receipts.BuildThenParse` | archive/common/receipts.py:140-330 | What is built is read back as it was exactly when its fields are well formed and its file is named for its kind, and refused otherwise. |
| `Receipts.ParseThenBuild` | archive/common/receipts.py:261-491 | An accepted current production document is, field for field, the document of the receipt it reads as; only its version and compression numbers may be spelled otherwise. |
| `Receipts.LocalNeverAuthorizes` | archive/common/receipts.py:210-286 | A local receipt never reads as a production one under any name, and a local name never yields a production receipt. |
| `Receipts.OlderDocumentsRead` | archive/common/receipts.py:398-439 | Version 1 and local documents with sound heads and sections are accepted exactly when both objects name the same place, the recorded checksum decodes to the recorded digest, and a local one records that it authorizes nothing and carries no production field; and what is read from them. |
| `Receipts.FilesShareStemExactly` | archive/common/receipts.py:875-886 | The two file names are one stem with the two suffixes, without a path in it. |
| `Receipts.HexExactly` | archive/common/receipts.py:896-902 | A digest is 64 lowercase hexadecimal digits. |
| `Receipts.NumbersCompareByValue` | archive/common/receipts.py:445-491 | Truth values and numbers of any kind are equal when their values are, and to nothing else. |
| `Receipts.BuiltSections` | archive/common/receipts.py:323-396 | The sections of a built document pass the checks exactly when the two files share a stem and keys and identities are well formed. |
| `Receipts.ReadSections` | archive/common/receipts.py:323-396 | The sections of an accepted document are those the receipt would be built with. |
| `LocalStore.Stage` | archive/storage/local.py:284-303 | The caller's stream is read to its end, and the copy kept exactly when it is what was promised; it fails exactly when a read breaks, and leaves nothing then. |
| `LocalStore.OnlyPromisedBytesAppear` | archive/storage/local.py:305-346 | After any run of any number of writers with failures and crashes, visible bytes are the complete body of a writer that had promised them. |
| `LocalStore.VisibleBytesStay` | archive/storage/local.py:122-130 | Without a crash visible bytes never change. |
| `LocalStore.CrashTakesOnlyUnsynced` | archive/storage/local.py:261-272 | Over any run with crashes visible bytes stay the same at every moment if and only if no crash hits them before their entry was synced or happened to be written; the first thing after a hit is an empty key, never other bytes. |
| `LocalStore.SyncedBytesStay` | archive/storage/local.py:346-346 | Once synced, bytes stay over every continuation. |
| `LocalStore.ReturnedPutsHold` | archive/storage/local.py:209-362 | A put that returned has its identity and attributes in place and on disk, then and after every continuation, crashes included. |
| `LocalStore.ReturnedPutsAgree` | archive/storage/local.py:209-362 | Two puts that both returned had promised the same bytes. |
| `LocalStore.AnUnsyncedLinkCanBeReplaced` | archive/storage/local.py:261-272 | Before any put returned, a crash can undo a link and another writer's bytes can take the name. |
| `LocalStore.RetrySettles` | archive/storage/local.py:222-278 | From any reachable state a writer left alone is done within eight steps, and returns exactly when the key is free and its bytes are as promised, or the key holds them. |
| `LocalStore.RaceSettles` | archive/storage/local.py:306-343 | A writer that lost the race to link finishes in ten steps, storing the attributes itself where the winner has not, and returns exactly when the winner's bytes are what it promised. |
| `LocalStore.NextKeepsInv` | archive/storage/local.py:209-362 | Every step of every writer, every failure and every crash keeps the invariant. |
| `LocalStore.StepGrounds` | archive/storage/local.py:364-412 | What a writer relies on holds where it stands, whether it reads, repairs attributes or publishes. |
| `CanonicalWindow.Consider` | archive/reaper/canonical.py:171-296 | One pass returns the verdict of the checks in their order, deletes only when everything is proven, evidence first, and says exactly what each failure leaves behind. |
| `CanonicalWindow.RemoveFrame` | archive/reaper/canonical.py:277-284 | One turn of the deletion loop: removed durably and counted. |
| `CanonicalWindow.DeletesOnlyWhenProven` | archive/reaper/canonical.py:171-271 | Deletion happens if and only if all conditions hold, spelled out: an orderly directory with provenance, both receipts in agreement with each other and with every byte present, retention elapsed since each of five times, an independent store and a fresh remote proof. |
| `CanonicalWindow.AuditsDeleteNothing` | archive/reaper/canonical.py:171-260 | An audit run deletes nothing, and names itself as the reason exactly where a destructive run would delete. |
| `CanonicalWindow.ReasonsMean` | archive/reaper/canonical.py:171-260 | What each other reason says about the window and the service; a finished deletion is reported exactly where the reader reads a tombstone. |
| `CanonicalWindow.ReaderAcceptsExactly` | archive/common/receipts.py:549-612 | The reader accepts exactly complete windows with both recorded sizes, and reaped ones without evidence under an archive receipt that agrees. |
| `CanonicalWindow.ReaderFollowsTheReaper` | archive/common/receipts.py:597-613 | The reader accepts the window before the deletion and at every stage of it, as a full window or a tombstone. |
| `CanonicalWindow.LaterPassesAgree` | archive/reaper/canonical.py:199-233 | A pass over a half-finished deletion is authorised to finish it, and over a finished one reports that. |
| `CanonicalWindow.EvidenceAloneIsRefused` | archive/reaper/canonical.py:223-233 | Evidence without provenance is refused by the reader and kept by the reaper. |
| `CanonicalWindow.FailedPassesCrashCleanly` | archive/reaper/canonical.py:273-284 | Any crash after a failed pass leaves all frames, evidence gone, or both gone. |
| `CanonicalReaping.OrderedCrashesStaySound` | archive/reaper/canonical.py:273-284 | However many reapers interleave, while crashes undo the latest changes first every state is one the reader accepts, with both receipts on disk once a frame is gone. |
| `CanonicalReaping.EvidenceIsNeverStrandedExactly` | archive/reaper/canonical.py:273-284 | Over any run of any number of reapers with any crashes: evidence can at no moment be left without provenance if and only if no step unlinks provenance while evidence is still on the disk. |
| `CanonicalReaping.UnhurriedStaysSound` | archive/reaper/canonical.py:273-284 | Every state of such a run is one the reader accepts, with both receipts on disk once a frame is gone. |
| `CanonicalReaping.TurnsStaySound` | archive/reaper/canonical.py:273-284 | Reapers that take turns, killed and restarted anywhere, leave such a state behind every crash, whichever unsynced changes it keeps. |
| `CanonicalReaping.StrandedExactlyWhenBothUnsynced` | archive/common/durable.py:87-101 | A crash can leave evidence without provenance if and only if provenance is unlinked while evidence is still on the disk. |
| `CanonicalReaping.OverlappingReapersStrandEvidence` | archive/common/durable.py:95-101 | A run of two overlapping reapers that ends in a window nobody accepts. |
| `CanonicalReaping.ALaterPassFinishes` | archive/reaper/canonical.py:171-296 | From every state a crash can leave, one later pass removes what is left of both frames for good, unless the crash took the marker, and then both are still there. |
| `CanonicalReaping.NextKeepsInv` | archive/reaper/canonical.py:273-284 | Every step keeps the invariant behind these. |
| `CanonicalReaping.CrashKeepsTurns` | archive/reaper/canonical.py:273-284 | Between reapers that take turns any crash keeps it. |
| `OutcomeSpace.Walk` | analysis/outcome_space.py:171-178 | The recursive walk appends the finished sequences, home before away. |
| `OutcomeSpace.SeriesSequences` | analysis/outcome_space.py:164-179 | Even or non-positive formats are refused; otherwise the finished sequences in ascending order, each once. |
| `OutcomeSpace.EveryWordFinishesOnce` | analysis/outcome_space.py:164-179 | Every word of best_of letters has exactly one member as a prefix. |
| `OutcomeSpace.PrefixFree` | analysis/outcome_space.py:164-179 | No member is a prefix of another. |
| `OutcomeSpace.MembersClinch` | analysis/outcome_space.py:171-178 | The members are exactly the words at whose end a side first holds the target number of wins. |
| `OutcomeSpace.CountIsBinomial` | analysis/outcome_space.py:164-179 | There are as many as the binomial of best_of + 1 over half of it. |
| `OutcomeSpace.PathsAreBinomial` | analysis/outcome_space.py:171-178 | So there are from every state, by the wins each side still needs. |
| `OutcomeSpace.BuildSeriesSpace` | analysis/outcome_space.py:182-220 | One outcome per sequence, in order, with its wins, length, winner and margin. |
| `OutcomeSpace.OutcomesAreConsistent` | analysis/outcome_space.py:190-209 | The recorded winner clinched and won the last map; length and margin add up to twice the target. |
| `OutcomeSpace.OutcomesCountLetters` | analysis/outcome_space.py:190-209 | Home and away wins are the numbers of their letters, and add up to the maps played. |
| `OutcomeSpace.BeforeExactly` | analysis/outcome_space.py:164-179 | The order of the sequences is that of their letters. |
| `OutcomeSpace.ReachableSplits` | analysis/outcome_space.py:264-279 | The keys reachable in an undecided state are the disjoint union of those after either side wins the next map, and neither part is empty. |
| `OutcomeSpace.FinishedLeavesOne` | analysis/outcome_space.py:264-279 | A finished sequence leaves its own key and nothing after it. |
| `Masks.RelationsMean` | analysis/masks.py:361-373 | Two non-empty masks stand in exactly the relation whose meaning holds of them. |
| `Masks.FlippingTurnsAround` | analysis/masks.py:352-373 | Swapping the operands turns the two directions round and nothing else. |
| `Masks.ShrinkingOnlyTightens` | analysis/masks.py:352-373 | Removing outcomes loses a relation exactly when it empties a mask, never brings one back, and otherwise only tightens it. |
| `Masks.OneOutcomeLeavesIdentity` | analysis/masks.py:352-373 | With one outcome left two masks that hold it are identical. |
| `Masks.DeriveRelationships` | analysis/masks.py:376-399 | One row for each pair of derivable masks that stands in a relation, in order, none twice and none missing. |
| `Masks.RowsMean` | analysis/masks.py:376-399 | A row names its two markets in the order in which its relation holds of their outcomes. |
| `Masks.UsableAreDerivable` | analysis/masks.py:376-399 | Exactly the derivable masks take part, as often as they are given. |
| `Masks.IsPartition` | analysis/masks.py:402-424 | True exactly when each outcome lies in one leg; the outcomes in two legs and in none are reported exactly. |
| `Masks.SmallerUniverseKeepsTiling` | analysis/masks.py:402-424 | A partition stays one in any smaller universe. |
| `Masks.TilesExclude` | analysis/masks.py:352-424 | Legs of a partition that still hold something exclude each other. |
| `SeriesMasks.HandicapTokensTile` | analysis/masks.py:256-282 | A handicap's two tokens partition the series whatever the line. |
| `SeriesMasks.HandicapIsAShortSeries` | analysis/masks.py:256-282 | With the favoured side asked or none, winning by more than the line is winning the series in fewer maps than twice the target less the line: below one map it is the series winner, a higher line holds less, and the sweep is held exactly below the target. |
| `SeriesMasks.TotalsTileOffTheLine` | analysis/masks.py:248-254 | Over and under partition the series exactly when no series can end on the line. |
| `SeriesMasks.TotalsCountPlayedMaps` | analysis/masks.py:248-254 | Over half a map short of n holds exactly the series in which either side wins map n, and under exactly the others. |
| `SeriesMasks.MapSidesTileWhenAlwaysPlayed` | analysis/masks.py:225-246 | The two sides of one map partition the series exactly when every series reaches that map. |
| `SeriesMasks.MapZeroIsTheSeries` | analysis/masks.py:238-246 | Map number 0 reads the last letter and so asks who won the series. |
| `SeriesMasks.AlongASeries` | analysis/masks.py:427-442 | Along a series what is reachable shrinks, relations only tighten, and a lost one stays lost. |
| `SeriesMasks.FinishedSeriesLeavesIdentities` | analysis/masks.py:427-442 | At a finished sequence every relation left is an identity. |
| `SeriesMasks.DecidingMapBecomesTheSeries` | analysis/masks.py:427-442 | Winning the last possible map implies winning the series, and becomes the same claim exactly when the other side stands one win short. |
| `Sorting.SortSorts` | analysis/claims.py:182-186 | A stable sort orders its list and keeps its elements. |
| `Sorting.LessIsTotal` | analysis/claims.py:205-205 | Strings are totally ordered. |
| `Sorting.LessExactly` | analysis/claims.py:205-205 | Strings are ordered by their first different character, and a beginning before the whole. |
| `Claims.UsableMasks` | analysis/claims.py:153-164 | The derivable masks that are neither empty nor as large as the space. |
| `Claims.DeriveClaims` | analysis/claims.py:167-187 | One claim per outcome subset some usable mask names, ascending by id, holding exactly the masks that name it, sorted. |
| `Claims.GroupMasks` | analysis/claims.py:170-175 | Grouping by id groups by subset, because ids are injective. |
| `Claims.DeriveClaimAlgebra` | analysis/claims.py:190-227 | Refuses claims of different shapes; otherwise relates every pair in the order of ids, reversed implications turned round, overlaps dropped when only informative ones are asked for. |
| `Claims.ImpliedMarketRelations` | analysis/claims.py:243-285 | The edges are exactly those within a claim and those across related claims; a relation to a missing claim is refused. |
| `Claims.PairsWithin` | analysis/claims.py:262-266 | Cross-venue pairs of one claim are identities. |
| `Claims.PairsAcross` | analysis/claims.py:267-284 | Cross-venue pairs of two claims take their relation, turned round when the keys sort the other way. |
| `ClaimProperties.CompressionIsExact` | analysis/claims.py:243-285 | For distinct market keys over one space the implied relations are exactly the cross-venue, non-overlap relations of the usable masks pairwise, direction included. |
| `ClaimProperties.WithinIsPairwise` | analysis/claims.py:262-266 | An edge within a claim is a pairwise identity. |
| `ClaimProperties.AcrossIsPairwise` | analysis/claims.py:267-284 | An edge across claims is a pairwise relation. |
| `ClaimProperties.NothingIsLost` | analysis/claims.py:243-285 | Every pairwise relation is implied by the claims. |
| `ClaimProperties.AllRelatedHolds` | analysis/claims.py:204-226 | The algebra holds what some pair contributes and nothing else. |
| `ClaimProperties.AlgebraHoldsExactly` | analysis/claims.py:190-227 | Over claims of distinct ids the algebra holds exactly the relations of one scope whose meaning holds of the outcomes, in the order of ids, the smaller side of an implication first, overlaps only on request. |
| `ClaimProperties.RelationBetween` | analysis/claims.py:204-226 | Two different claims that do not merely overlap have a stored relation, one way round or the other. |
| `Supervisor.Run.Failed` | replay/supervisor.py:392-401 | Closes the attempt; it counts as stagnant unless it beat the best of all earlier ones by the margin. |
| `Supervisor.ClosedTells` | replay/supervisor.py:392-401 | Over the progresses of the closed attempts: best is the highest of them, or -1, and stagnant the number of attempts since the last one that reached the best before it plus the margin. |
| `Supervisor.TellsTheBudget` | replay/supervisor.py:404-410 | In time and not fatal, another attempt is allowed exactly when attempts are left and fewer than no_progress of them ended since the last meaningful one. |
| `Supervisor.RetriesExactlyWithinBudget` | docs/REPLAY_SUPERVISOR_V1.md:103-108 | Over any history of attempts that failed with given progresses, undisturbed, the run launches another one exactly then. |
| `Supervisor.BudgetHolds` | replay/supervisor.py:766-850 | Over any failed writes, kills, crashes and restarts: at most limits.attempts attempts are launched, and at most no_progress times one more than the margins contained in the highest progress. |
| `Supervisor.NextKeepsInv` | replay/supervisor.py:793-848 | Every event keeps every checkpoint in sight accounting for all launched attempts. |
| `Supervisor.ClosedAccounts` | replay/supervisor.py:392-401 | Closing an attempt keeps a checkpoint's account. |
| `Supervisor.BeginKeepsInv` | replay/supervisor.py:816-820 | The budget is durable before anything is launched. |
| `Supervisor.LaunchKeepsInv` | replay/supervisor.py:816-823 | A launch never outruns the checkpoint. |
| `Supervisor.FatalIsFinal` | replay/supervisor.py:802-815 | Once a fatal result is durable, nothing afterwards launches another attempt. |
| `Supervisor.NothingAfterFatal` | replay/supervisor.py:802-815 | The same for every history from the start. |
| `Supervisor.FatalResultCondemns` | replay/supervisor.py:724-734 | Recording a fatal result durably condemns every checkpoint in sight. |
| `Supervisor.SuccessEndsTheRun` | replay/supervisor.py:824-848 | A successful attempt ends the run: as a success if its outputs are sound, and as fatal otherwise. |
| `Supervisor.SuccessIsFinal` | replay/supervisor.py:764-765 | After a success nothing is launched any more. |
| `Ledger.DueMeansInOrder` | gamestate/run_scheduled.py:99-116 | A key is due exactly when one more row now keeps its history orderly, whatever the outcome. |
| `Ledger.GrowingStaysOrderly` | gamestate/run_scheduled.py:213-255 | Whatever the order of passes, bundles and events: per key some retryable outcomes and then at most one final one, at most five rows, at least 1, 2, 4 and 8 hours apart. |
| `Ledger.GrownOnward` | gamestate/run_scheduled.py:213-255 | One pass after another grows the ledger as one pass does, so that what holds of a grown ledger holds over any sequence of passes. |
| `Ledger.FinalIsFinal` | gamestate/run_scheduled.py:108-111 | After a final outcome a key gets no further row however the ledger grows, and is never due again. |
| `Ledger.WaitsDouble` | gamestate/run_scheduled.py:115-115 | The waits that can occur are 1, 2, 4 and 8 hours; the cap of 24 never binds. |
| `Ledger.RetriedExactly` | gamestate/run_scheduled.py:99-116 | A key just tried comes up again exactly after an incomplete, failed or unavailable fetch, four times at most, once 1, 2, 4 and 8 hours have passed. |
| `Ledger.Store.RecordEvent` | gamestate/run_scheduled.py:89-97 | A bundle's event is recorded once; a different one is refused. |
| `Ledger.Store.Append` | gamestate/run_scheduled.py:118-126 | Rows are only ever appended. |
| `Ledger.Store.Consider` | gamestate/run_scheduled.py:226-247 | What a bundle adds and what is recorded of its event: a row exactly when the key is due, the event has settled or failed to resolve, and the event's own key is due once it is known. |
| `Ledger.TurnsMean` | gamestate/run_scheduled.py:226-247 | The row and the recorded event of one turn, for each way a bundle can come out. |
| `Ledger.Store.Turn` | gamestate/run_scheduled.py:219-251 | One bundle's turn leaves the ledger exactly as specified and counts it. |
| `Ledger.Store.Execute` | gamestate/run_scheduled.py:213-255 | One pass leaves exactly what its bundles' turns leave, one after the other; it counts as eligible the rows of a known event, as attempted all rows, and as failed the failing rows and the invalid bundles, and stops at its limit unless it is a backfill. |
| `Ledger.NothingLeftDue` | gamestate/run_scheduled.py:213-255 | No bundle that a pass has seen is due afterwards, unless its event has not settled yet. |
| `CutClock.ValidatePartition` | replay/preparation.py:87-112 | Accepts exactly the explicit histories that partition the request. |
| `CutClock.PartitionMeansCoversOnce` | replay/preparation.py:106-112 | That is: intervals in order that cover each instant of the request once and no other instant. |
| `CutClock.CutClock.Observe` | replay/economic_intervals.py:18-40 | Accepts a cut exactly when its window continues the last one or its group lies inside it, and its time lies in the request and does not go back. |
| `CutClock.CutClock.Advance` | replay/economic_intervals.py:42-49 | Yields the boundaries passed, in order, and moves the clock to the time given. |
| `CutClock.CutClock.Terminal` | replay/economic_intervals.py:51-53 | Ends only once the windows reach the end of the request. |
| `CutClock.Runtime.AdvanceTo` | replay/economic_sdk/runtime.py:531-579 | The driver advances the clock to each boundary up to the time and then sets it to the time: exactly the boundaries passed are crossed, and only that instant can be pending. |
| `CutClock.Runtime.Cut` | replay/economic_sdk/runtime.py:284-311 | One cut observed and advanced to, unless its instant is still pending; a pending instant is always the clock's own, and windows, times, scope and crossings stay in agreement. |
| `CutClock.Runtime.CatchUp` | replay/economic_sdk/runtime.py:286-292 | Before a cut takes effect the clock is advanced to it, unless an evaluation of its very instant is pending. |
| `CutClock.FittingIsSeen` | replay/economic_intervals.py:18-40 | The clock accepts a cut exactly when it fits the run so far: the last window, its pin, the request and the last time. |
| `CutClock.Runtime.Terminate` | replay/economic_sdk/runtime.py:275-283 | The end is accepted exactly when the windows reach it, and completes the coverage and the crossings. |
| `CutClock.Runtime.Follow` | replay/economic_sdk/runtime.py:242-311 | A run is accepted to the end if and only if every cut fits those before it and the windows reach the request's end. Then windows without gap or overlap hold each instant of the request exactly once, times never go back, and every scope boundary is crossed exactly once, in order. |
| `CutClock.MarketProfile.Follow` | replay/strategies/market_profile/strategy.py:49-73 | A run that only observes, for any request: accepted to the end under just the same condition, and then its windows hold each instant of the request exactly once, and times never go back. |
| `CutClock.CrossesInto` | replay/economic_intervals.py:42-49 | Advancing crosses exactly the boundaries passed and ends in the scope that contains the time. |
| `CutClock.ChainTiles` | replay/economic_intervals.py:25-30 | Adjacent windows from before the start to the end hold each instant exactly once. |
| `CutClock.AdvancingTurnsBackExactly` | replay/economic_intervals.py:42-49 | With room before the clock's time in its window and in the request, a cut from before that time can be accepted after advancing to an instant if and only if the instant is earlier. |
| `CutClock.AdvancingToABoundaryTurnsBack` | replay/economic_intervals.py:42-49 | A clock that was advanced to a boundary and then accepts such a cut. |
| `GameState.Project` | gamestate/prepared.py:44-105 | The segments, with the deciding map repaired, and exactly the problems the timeline has. |
| `GameState.ProblemsOfTheMaps` | gamestate/prepared.py:79-100 | Without a deciding map, unresolved and untimely segments are read off the maps: their closes, winners, starts and settlements. |
| `GameState.CompleteIssues` | gamestate/prepared.py:58-78 | A complete projection tolerates no issue, or exactly the two that say that the last map has no market, with a match. |
| `GameState.Repair` | gamestate/prepared.py:58-78 | The deciding map ends with the match and wins it only if its own statistics agree. |
| `GameState.TimeProblems` | gamestate/prepared.py:86-100 | The loop notes exactly the segments out of order and those that begin before an earlier one is over. |
| `GameState.Validate` | replay/game_state.py:105-126 | The loader accepts exactly the segments and match that pass its order, overlap and score checks. |
| `GameState.CompleteLoadsExactly` | gamestate/prepared.py:79-105 | A complete projection of a derived timeline loads if and only if it has segments, or no match, or a score that fits 64 bits. |
| `GameState.CompleteSegmentsLoad` | gamestate/prepared.py:86-100 | Its segments always pass. |
| `GameState.LoadedIsTimely` | gamestate/prepared.py:86-100 | The other way round: what the loader accepts has no problem of order or overlap. |
| `GameState.WinsAgreeExactly` | gamestate/prepared.py:81-85 | With a match, wins per side equal the score if and only if there are segments or the score is nil to nil. |
| `GameState.WinsCount` | gamestate/prepared.py:84-84 | Wins are the segments with that winner, counted. |
| `GameState.UncheckedScores` | gamestate/prepared.py:81-85 | A match without segments is complete whatever its score, and the loader refuses a score too large. |
| `GameState.DecidingMapWinsTheMatch` | gamestate/prepared.py:60-76 | The repaired deciding map ends with the match, began its duration before, has no settlement, and is won by the match's winner, which its own statistics name. |

## Left out

- RawArchive.AbsentSourceIsProven: excludes runs that take a receipt back while something depends on it, because those runs do lose the proof; `RawArchiveTakeBack.SourceIsAlwaysProvenExactly` makes that an equivalence and `RawArchiveOrder.TakingBackCanDestroyTheProof` such a run.
- RawArchiveOrder.EveryCrashStateCanBeFinished: starts from a state without a source that lost its seal, which the reaper refuses by design, and from a store and canonical index that hold or accept what the segment needs.
- ClaimProperties.CompressionIsExact: takes masks that all carry the space's own scope, as compiling them over that space gives; masks of another scope would be related as if they had it.
- LocalStore.ReturnedPutsHold: racing writers ask for the same attributes; disagreement between them is not modelled.
- GameState.CompleteLoadsExactly: instants and indices are taken to fit 64 bits, and indices to rise from one, as deriving a timeline gives them; labels, alignment of competitors, source identity and byte bounds are not modelled.
- Supervisor.BudgetHolds: attempt ids are taken to be new, and what an attempt does is any progress and any verdict; process control, signals, Redis, the run deadline and output receipts are not part of this model.
- Ledger.Store.Execute: a report whose reason is outside the ledger's outcomes ends the pass with an error; only passes without such a report are modelled. SQLite, HTTP and configuration checks are not part of this model.
- Decoding.DecodeStream: encoding, flushing and the exact exception types are not part of this model; a source stands for what a stream still holds when it is handed over, and a read that breaks takes nothing from it.
- RawArchive.RunKeepsInv: one segment at a time; the sweep over many segments, its halting on a store fault, retention ages and operator reports are not part of this model, nor is the rewriting of a compressed derivative beside the source.
- CanonicalWindow.Consider: JSON parsing of the two receipts is an abstract function; directory modes and symbolic links appear only as the set of regular files.
- Receipts.ParseThenBuild: is about the current production version, which is the only production one that is still built; what version 1 and local documents read as is in `Receipts.OlderDocumentsRead`, with base64 as a parameter.
- CutClock.Runtime.Follow: takes scopes that partition the request, as preparation demands; game releases and timers between cuts appear only as evaluations that may be staged, and what an evaluation computes is not modelled.
- CutClock.ValidatePartition: manifest and report keys, authorities and size limits of the preparation config are single-branch checks and not modelled; neither is the resolution of native books.
- `archive/archiver/canonical.py` publishes three objects and writes its marker last, with the same discipline as the raw archiver; modelling it would repeat `RawArchive`.
- `analysis/masks.py`: matching labels, teams and lines in text, and the score-grid resolvers; resolvers start where side, line and index are known, and lines are rational.
- `analysis/outcome_space.py`: the score grid and the reconstruction of a timeline from settled markets.
- `archive/storage/gcs.py`, HTTP clients and transports, command lines, reports and the user interface.
- `replay/streams`, `gamestate/priors.py` and `targeter/coverage.py`, which repeat arguments that are covered.
- Creating directory chains, file modes and real hashing and compression.

# Verified models of the OsmocomBB host software

This project models the parts of OsmocomBB in which the hard reasoning is, and proves what
they promise for all inputs and all runs.

- **Convolutional codes** (`Options`, `Sequences`, `ConvCode`, `ConvEncoder`, `ConvTrellis`,
  `ConvSymbols`, `ConvDecoder`, `ConvScan`, `ConvTheorems`, `ConvCorrection`, `ConvRefusal`,
  `ConvSoft`). A code is a pair of tables with puncturing and a
  termination; what the encoder sends is a function of the message, given bit by bit. The encoder
  and the soft-decision Viterbi decoder, with their flat arrays and running indexes, are proved
  against that: the decoder returns a message that no message beats, and its distance, and no
  message correlates better with the soft bits, up to rounding. Tables whose branches can be told
  apart in every step make a code that decodes what it encodes. The decoder's
  bookkeeping takes state 255 for "no state found"; for a truncated code with K = 9 this is a
  real state, and a block is refused exactly when every nearest message ends in it. Whether a
  code refuses anything can be told from the code alone, and a concrete code and block that are
  refused without a single error are given.
- **Red-black tree and timers** (`RbTree`, `TimerList`, `Timers`). The tree is rewritten in place,
  with parent pointers. Each node carries ghost coordinates (its place in the in-order sequence,
  the places its subtree covers, its black height), so that every invariant is local. The timer
  queue on top of it is proved to be a stable sorted list under any run of operations, also when
  callbacks operate on the timers that are being fired; the last operation on a timer decides
  whether it is queued, and an update is a run of operations itself. Each expired timer is put in front of
  the earlier ones on the eviction list, so timers that expired together fire latest first; the
  comment in the source describes the opposite order, and the model follows the code.
- **Allocation hierarchy** (`Talloc`). Chunks own the chunks in their child lists, and only the
  first child of a list points to its parent. Allocation, moving and recursive freeing with
  destructors that refuse keep the lists and the forest, and freeing frees exactly the chunks
  below the freed one down to the first ones that refuse. Freeing the null context itself ends if
  and only if nothing below it refuses, at any depth: otherwise what refuses moves up to the null
  context, is passed on to the null context, and is tried again for ever.
- **GPRS layer 1** (`GprsSlots`, `GprsLists`, `GprsEffects`, `Gprs`, `GprsHeaders`). Counters and TFI masks of eight timeslots
  against the lists of active and pending TBFs; slot masks and TFI masks are the sets of their
  bits. Counters are eight bits wide and wrap; assertions of the source that fail end the run.
  An immediate downlink request for a TBF that exists does not use the TFI it carries. A TFI that
  two TBFs share is lost with the first, and a pending change of TFI leaves the old one in the
  mask; the exact conditions are proved, with an example of each.
- **TDMA scheduler** (`Mframe`, `MframeLayouts`, `Remainders`, `Tdma`, `Meas`, `SchedRx`,
  `SchedBlocks`, `SchedTx`, `SchedPrim`). The multiframe tables, the substitution of lost frames,
  the assembly of blocks and their transmission, the measurement ring, and the SACCH queue. The
  average of measurements divides a signed sum by an unsigned
  count, which is right exactly for sums that are not negative and for counts that are powers of
  two; the callers on TCH/H ask for six, and six measurements of -100 make +70. The mask of
  received bursts is the set of its bits, of which a shift loses those from 32 on.
- **Random access** (`Rach`). The frame of a requested RACH slot in the combined layout, as
  selection by rank; it is right exactly when the sum of slots fits into 16 bits.

## Model

| member | source | states |
|---|---|---|
| ConvCode.GetOutputLength | src/shared/libosmocore/src/conv.c:50-71 | the announced output length is the number of positions of the block that are not punctured |
| ConvCode.RankOfBlock | src/shared/libosmocore/src/conv.c:65-68 | over a whole block exactly the listed positions are dropped |
| ConvCode.CursorSplits | src/shared/libosmocore/src/conv.c:111-119 | the running puncture index separates the listed positions before the current one from the later ones |
| ConvCode.CursorDecides | src/shared/libosmocore/src/conv.c:111-119 | comparing one list entry with the position decides whether the position is punctured |
| ConvCode.EncodedLength | src/shared/libosmocore/src/conv.c:50-71 | every message is sent in exactly the announced number of bits |
| ConvCode.StreamLength | src/shared/libosmocore/src/conv.c:103-131 | a path of any length emits one bit for every position that survives |
| ConvEncoder.Encoder.LoadState | src/shared/libosmocore/src/conv.c:90-101 | the loaded state is the first K-1 bits read as a number, the most recent lowest |
| ConvEncoder.Encoder.Punctures | src/shared/libosmocore/src/conv.c:111-119 | drops a bit if and only if its position is listed, and moves the index accordingly |
| ConvEncoder.Encoder.DoOutput | src/shared/libosmocore/src/conv.c:103-131 | writes the surviving bits of a symbol, highest first |
| ConvEncoder.Encoder.EncodeRaw | src/shared/libosmocore/src/conv.c:133-160 | extends what was sent by the bits of the path of the data, so chunks encode as one block |
| ConvEncoder.Encoder.EncodeFlush | src/shared/libosmocore/src/conv.c:162-196 | extends what was sent by the K-1 termination steps, through the termination tables if there are any |
| ConvEncoder.Start | src/shared/libosmocore/src/conv.c:217-220 | a tail-biting code starts in the state of its last K-1 bits, any other in state zero |
| ConvEncoder.Encode | src/shared/libosmocore/src/conv.c:208-228 | the output is exactly the encoding of the message |
| ConvSymbols.SymbolValue | src/shared/libosmocore/src/conv.c:103-131 | the bits of a symbol, highest first, are its value in the N lowest bits, so different symbols have different bits |
| ConvSymbols.StreamAt | src/shared/libosmocore/src/conv.c:103-131 | every bit that is not punctured stands in the stream at the rank of its position: it is that bit of the output symbol of that step |
| ConvSymbols.MessagesDiffer | src/shared/libosmocore/src/conv.c:208-228 | if in every data step the two branches out of a state differ in a bit that is sent, different messages are sent as different blocks |
| ConvSymbols.UnpuncturedTellsBranches | src/shared/libosmocore/src/conv.c:208-228 | an unpunctured code is such a code when the two branches out of every state have different symbols |
| ConvSymbols.TermTablesDecide | src/shared/libosmocore/src/conv.c:162-196 | codes with the same termination tables are flushed alike, in states and in bits, whatever their data tables are |
| ConvTrellis.RelaxBranch | src/shared/libosmocore/src/conv.c:375-402 | add, compare, select of one branch keeps the entry minimal and its survivor the earliest of the best |
| ConvTrellis.RowStepIsFunctional | src/shared/libosmocore/src/conv.c:371-405 | a symbol and a row determine the next row and the survivors of its reachable states |
| ConvTrellis.RowsAreDetermined | src/shared/libosmocore/src/conv.c:316-415 | the same symbols give the same rows and survivors, however they were cut into calls |
| ConvTrellis.RowIsLowerBound | src/shared/libosmocore/src/conv.c:316-415 | after any number of steps no legal path has a smaller metric than the entry of the state it reaches |
| ConvTrellis.LastHop | src/shared/libosmocore/src/conv.c:399-402 | a reachable state's entry is that of its survivor plus the metric of the branch between them |
| ConvTrellis.TracedIsExact | src/shared/libosmocore/src/conv.c:551-583 | following the survivors back from a reachable state gives a legal path to it of exactly its metric |
| ConvDecoder.ReceivedIsDetermined | src/shared/libosmocore/src/conv.c:352-369 | received bits determine the symbols of any range of steps |
| ConvDecoder.Decoder.Reset | src/shared/libosmocore/src/conv.c:265-284 | the start state has error zero and every other state is unreachable; without one all have error zero |
| ConvDecoder.Decoder.ReadSymbol | src/shared/libosmocore/src/conv.c:352-369 | each received bit goes to the position it was sent from, and zero to each punctured position |
| ConvDecoder.Decoder.ScanRow | src/shared/libosmocore/src/conv.c:343-405 | the next row is minimal over all branches, with the earliest best state as survivor; older survivors stay |
| ConvDecoder.Decoder.Scan | src/shared/libosmocore/src/conv.c:316-415 | consumes exactly the surviving bits of its steps and keeps the trellis exact |
| ConvDecoder.Decoder.Flush | src/shared/libosmocore/src/conv.c:417-520 | the same for the K-1 termination steps, with one branch per state |
| ConvDecoder.Decoder.FindEnd | src/shared/libosmocore/src/conv.c:531-548 | the first state of least error, 255 if and only if there is no other |
| ConvDecoder.Decoder.Predecessor | src/shared/libosmocore/src/conv.c:551-583 | the entry of the flat survivor array leads one step back on the best path |
| ConvDecoder.Decoder.GetOutput | src/shared/libosmocore/src/conv.c:522-586 | writes the data bits of the best path to the end state and returns its metric |
| ConvScan.RowIsMinimum | src/shared/libosmocore/src/conv.c:316-415 | after any number of steps the entry of a state is the least metric of all paths from the start state to it, and MAX_AE if and only if there is none |
| ConvScan.ChunkOfInput | src/shared/libosmocore/src/conv.c:316-415 | reading a chunk of the input is reading the input at the place of the chunk |
| ConvScan.ChunksAgree | src/shared/libosmocore/src/conv.c:316-520 | two decoders that read the same data and flush steps, however cut into calls, have the same errors and the same best path to every reachable state |
| ConvScan.TracedIsDetermined | src/shared/libosmocore/src/conv.c:551-583 | rows and symbols determine the path that is traced back |
| ConvScan.UnknownEndsAtZero | src/shared/libosmocore/src/conv.c:531-548 | of equally good end states the first one is taken: a block of which nothing was received ends in state zero at error zero |
| ConvScan.UnknownTracesZeros | src/shared/libosmocore/src/conv.c:398-402 | of equally good predecessors the first one is kept: such a block is traced back along zeros |
| ConvTheorems.MessageBoundsRow | src/shared/libosmocore/src/conv.c:598-625 | the distance of every message bounds the entry of the state it ends in |
| ConvTheorems.TraceIsMessage | src/shared/libosmocore/src/conv.c:522-586 | the message traced back from an end state has exactly the entry as its distance |
| ConvTheorems.FlushedBlock | src/shared/libosmocore/src/conv.c:598-625 | the end state zero of a flushed block is reachable, and no message is nearer than its entry |
| ConvTheorems.TruncatedBlock | src/shared/libosmocore/src/conv.c:531-548 | no message of a truncated block is nearer than the best end state |
| ConvTheorems.SentinelCollision | src/shared/libosmocore/src/conv.c:531-548 | the decoder finds no end state if and only if every nearest message ends in state 255 |
| ConvTheorems.Decode | src/shared/libosmocore/src/conv.c:598-625 | maximum likelihood: the message written has the returned distance and none is nearer; refused exactly when every nearest message of a truncated code ends in state 255 |
| ConvSoft.CostLeans | src/shared/libosmocore/src/conv.c:388-395 | the penalties of the two bits differ by the soft bit scaled by 508/512, and their sum is the scaled sum of the squared distances, each up to rounding |
| ConvSoft.DistanceIsCorrelation | src/shared/libosmocore/src/conv.c:388-395 | the distances of two blocks differ as their correlations with the reception do, up to rounding where the blocks differ |
| ConvSoft.BestMatch | src/shared/libosmocore/src/conv.c:598-625 | soft decision: no message correlates better with the reception than the one returned by more than 511/254 for each symbol in which their encodings differ |
| ConvSoft.StrongOutvotesWeak | src/shared/libosmocore/src/conv.c:388-395 | a block in which two weak symbols are outvoted by a strong one |
| ConvSoft.TripleIsDecodable | src/shared/libosmocore/src/conv.c:598-625 | its code is one the decoder takes, and three bits are received |
| ConvCorrection.MissIsFlips | src/shared/libosmocore/src/conv.c:388-394 | on hard decisions the distance is 126 times the number of differing symbols |
| ConvCorrection.SentIsNearest | src/shared/libosmocore/src/conv.c:598-625 | with fewer flips than half the distance to the other blocks the sent message is the only nearest one |
| ConvCorrection.BoundedErrorCorrection | src/shared/libosmocore/src/conv.c:598-625 | such a block decodes to the sent message and the number of flips, or is refused exactly when that message ends in state 255 of a truncated code |
| ConvCorrection.RoundTrip | src/shared/libosmocore/src/conv.c:208-228 | an undisturbed block of an injective code decodes to its message at error zero, with the same one exception |
| ConvCorrection.RefusesAnUndisturbedBlock | src/shared/libosmocore/src/conv.c:531-548 | a concrete code and an undisturbed block that the decoder refuses |
| ConvRefusal.NothingRefused | src/shared/libosmocore/src/conv.c:531-548 | codes with K up to 8, flushed codes, and codes none of whose messages end in state 255 refuse no block |
| ConvRefusal.RefusesIff | src/shared/libosmocore/src/conv.c:531-548 | a code refuses some block if and only if it is truncated and all messages encoded like some message end in state 255 |
| ConvRefusal.InjectiveRefusesIff | src/shared/libosmocore/src/conv.c:531-548 | an injective truncated code refuses some block if and only if some message ends in state 255 |
| ConvRefusal.LostIsRefused | src/shared/libosmocore/src/conv.c:531-548 | the refused block is that message, received without an error |
| ConvRefusal.RefusedBlock | src/shared/libosmocore/src/conv.c:531-548 | there is such a code and block: eight ones with K = 9 |
| ConvRefusal.DecodesBack | src/shared/libosmocore/src/conv.c:208-228 | a flushed code, or one with K up to 8, whose branches can be told apart in every step decodes every undisturbed block to the message that was encoded, at error zero |
| ConvCorrection.RegisterHolds | src/shared/libosmocore/src/conv.c:90-101 | the state of a shift-register code is the last K-1 bits fed into it |
| ConvCorrection.ShiftRegisterTerminates | src/shared/libosmocore/src/conv.c:162-196 | K-1 termination steps lead every state to zero when they shift zeros in, through the termination tables if there are any |
| ConvCorrection.TailBitingClosesTheLoop | src/shared/libosmocore/src/conv.c:217-220 | a tail-biting shift-register code ends in the state it starts in |
| ConvCorrection.FinalStateIsTail | src/shared/libosmocore/src/conv.c:208-228 | a truncated message ends in the state of its last K-1 bits, so state 255 means eight ones |
| RbTree.Tree.RotateLeft | src/shared/libosmocore/src/rbtree.c:21-42 | moves exactly the three links around the node, and the in-order sequence stays |
| RbTree.Tree.RotateRight | src/shared/libosmocore/src/rbtree.c:44-65 | the mirror image |
| RbTree.Tree.FixRed | src/shared/libosmocore/src/rbtree.c:71-126 | one round moves a red-red edge to a larger subtree or removes it |
| RbTree.Tree.InsertColor | src/shared/libosmocore/src/rbtree.c:67-130 | after a red leaf was linked all red-black invariants hold again, with the same in-order sequence |
| RbTree.Tree.FixBlackLeft | src/shared/libosmocore/src/rbtree.c:139-172 | one round of the four sibling cases moves a missing black to a larger subtree or supplies it |
| RbTree.Tree.FixBlackRight | src/shared/libosmocore/src/rbtree.c:174-207 | the mirror image |
| RbTree.Tree.EraseColor | src/shared/libosmocore/src/rbtree.c:132-210 | the loop ends and supplies a missing black anywhere in the tree |
| RbTree.Tree.Splice | src/shared/libosmocore/src/rbtree.c:255-273 | a node with at most one child is taken out of the sequence |
| RbTree.Tree.Supplant | src/shared/libosmocore/src/rbtree.c:221-253 | a node with two children is replaced by its successor, which takes its colour |
| RbTree.Tree.Erase | src/shared/libosmocore/src/rbtree.c:212-277 | erasing any node leaves a red-black tree whose in-order sequence lacks exactly that node |
| RbTree.Tree.LinkNode | src/shared/libosmocore/include/osmocom/core/linuxrbtree.h:147-154 | a leaf linked into an empty slot gets the slot's place in the sequence |
| RbTree.Tree.First | src/shared/libosmocore/src/rbtree.c:282-292 | the first node of the sequence, none when it is empty |
| RbTree.Tree.NextOf | src/shared/libosmocore/src/rbtree.c:306-332 | the next node of the sequence, none after the last |
| RbTree.Tree.HeightBound | src/shared/libosmocore/src/rbtree.c:67-130 | a subtree is at most twice as high as black-high, and holds at least two to the black height minus one nodes |
| RbTree.Tree.LogarithmicHeight | src/shared/libosmocore/src/rbtree.c:67-130 | a tree of n nodes is at most 2 log2(n+1) high |
| TimerList.InsertPlace | src/shared/libosmocore/src/timer.c:42-61 | a timer goes behind all that are not later, so equal timeouts stay in the order of insertion |
| TimerList.RunKeepsSorted | src/shared/libosmocore/src/timer.c:47-111 | any run of schedules and deletes keeps the list sorted |
| TimerList.Scheduled | src/shared/libosmocore/src/timer.c:84-94 | a scheduled timer has exactly one entry, at its new timeout, whether or not it was queued before; the other entries stay in their order |
| TimerList.LastOperationDecides | src/shared/libosmocore/src/timer.c:47-111 | over any run the last operation on a timer decides whether it is queued, and when it is due |
| TimerList.FiredOnce | src/shared/libosmocore/src/timer.c:206-247 | whatever the callbacks do, no timer fires twice and only expired ones fire |
| TimerList.FiresUnlessTouched | src/shared/libosmocore/src/timer.c:229-244 | an expired timer fires unless the callback of one fired before deleted or rescheduled it |
| TimerList.HarmlessFiresAll | src/shared/libosmocore/src/timer.c:229-244 | callbacks that leave expired timers alone let all of them fire |
| TimerList.FiredInOrder | src/shared/libosmocore/src/timer.c:229-244 | the timers fire in the order of the eviction list, whatever the callbacks do |
| TimerList.FiringIsRun | src/shared/libosmocore/src/timer.c:229-244 | the queue after an update is that after a run of operations: each timer that fires is deleted, then its callback runs |
| TimerList.FiredIsRequeuedOnly | src/shared/libosmocore/src/timer.c:229-244 | a timer that fires is queued afterwards exactly if the last operation on it is a schedule by a callback, for the time of that |
| TimerList.UpdateFires | src/shared/libosmocore/src/timer.c:206-247 | an update fires each timer at most once, only those not after the sampled time, and all of them, latest first, if callbacks do not interfere |
| Timers.TimerQueue.Del | src/shared/libosmocore/src/timer.c:102-111 | removes the timer from the queue and from the eviction list; an inactive timer changes nothing |
| Timers.TimerQueue.FindSlot | src/shared/libosmocore/src/timer.c:47-57 | the descent ends at the empty slot between the timers that are not later and the later ones |
| Timers.TimerQueue.Add | src/shared/libosmocore/src/timer.c:66-72 | the queue is the old list without the timer, with the timer inserted in its stable place |
| Timers.TimerQueue.Schedule | src/shared/libosmocore/src/timer.c:84-94 | the same when the timeout is changed while the timer is still in the tree: it is due at the new time and only then, and the others stay in their order |
| Timers.TimerQueue.Perform | src/shared/libosmocore/src/timer.c:42-111 | after any sequence of operations the tree is the list the operations make, and the flags tell its members |
| Timers.TimerQueue.Expired | src/shared/libosmocore/src/timer.c:216-223 | the eviction list is the expired head of the queue, reversed |
| Timers.TimerQueue.Update | src/shared/libosmocore/src/timer.c:206-247 | ends with an empty eviction list, having fired what the callbacks leave of the expired timers, and tells whether any was fired |
| Timers.TimerQueue.Prepare | src/shared/libosmocore/src/timer.c:167-201 | no timer is due before the computed wait, which is zero exactly if one is due now |
| Timers.TimerQueue.Check | src/shared/libosmocore/src/timer.c:249-258 | walking the tree visits every timer once and stops |
| Talloc.Heap.ParentChunk | src/shared/libosmocore/src/talloc.c:229-241 | walking to the head of the list finds the owner of any chunk |
| Talloc.Heap.DetachedParent | src/shared/libosmocore/src/talloc.c:229-241 | the stale links of a chunk being freed still lead to its former owner |
| Talloc.Heap.Unlink | src/shared/libosmocore/src/talloc.c:207-219 | taking a chunk off its list keeps every list linked and its head alone pointing to the parent |
| Talloc.Heap.LinkFront | src/shared/libosmocore/src/talloc.c:660-664 | a chunk becomes the first child and takes over the parent pointer |
| Talloc.Heap.Alloc | src/shared/libosmocore/src/talloc.c:336-384 | a new chunk is owned by the context or the null context; all else stays; too large or no memory gives none |
| Talloc.Heap.Steal | src/shared/libosmocore/src/talloc.c:619-669 | a chunk moves to the front of the new owner's list, also when that is the old one, with everything below it; no other chunk changes its owner |
| Talloc.Heap.Free | src/shared/libosmocore/src/talloc.c:509-612 | ends; a chunk that refuses changes nothing; otherwise exactly the chunks below it down to the first that refuse are freed, those move to the front of its former owner's list or the null context's, whose other children keep their order, and every other chunk is untouched |
| Talloc.Heap.FreesAll | src/shared/libosmocore/src/talloc.c:509-612 | everything below a chunk is freed with it if and only if nothing below refuses |
| Talloc.Heap.SubtreeSurvives | src/shared/libosmocore/src/talloc.c:569-589 | a chunk that refuses keeps everything below it |
| Talloc.Heap.SurvivesIff | src/shared/libosmocore/src/talloc.c:569-589 | a chunk below is freed if and only if neither it nor a chunk on the way to it refuses |
| Talloc.Heap.Comparable | src/shared/libosmocore/src/talloc.c:1787-1804 | of two owners of a chunk one owns the other: ownership is a forest |
| Talloc.Heap.EnableNullTracking | src/shared/libosmocore/src/talloc.c:1313-1318 | makes a null context, a root without children, unless there is one |
| Talloc.Heap.DisableNullTracking | src/shared/libosmocore/src/talloc.c:1323-1327 | frees exactly the null context and everything below it when nothing below refuses, and forgets it |
| Talloc.Heap.NullContextEnds | src/shared/libosmocore/src/talloc.c:566-589 | the freeing of a root that is the null context ends if and only if it refuses itself or nothing below it does |
| Talloc.Heap.StuckRound | src/shared/libosmocore/src/talloc.c:566-589 | a round of freeing the children of the null context leaves something below it that refuses, and so a child, when there was something at any depth |
| Talloc.Heap.StuckForEver | src/shared/libosmocore/src/talloc.c:566-589 | so after any number of rounds the loop goes on |
| Talloc.Heap.StuckExample | src/shared/libosmocore/src/talloc.c:1323-1327 | a null context with one child that refuses is such a case |
| GprsSlots.FittingCounters | src/shared/l1gprs.c:196-264 | with fewer than 256 entries on a slot its use count is their number and no asserted counter is zero |
| GprsSlots.TfisUnlinked | src/shared/l1gprs.c:246-254 | unlinking a downlink TBF leaves the right TFI mask if and only if no other TBF of the slot has its TFI |
| GprsSlots.TfisUpdated | src/shared/l1gprs.c:189-227 | the same for an update, which can only err on a slot it takes away |
| GprsSlots.TfisRetagged | src/shared/l1gprs.c:364-367 | giving a TBF another TFI after the update leaves the mask right if and only if the TFI is the same or others have both |
| GprsLists.PromotedKeeps | src/shared/l1gprs.c:348-375 | making pending TBFs active never adds entries to a slot and keeps active TBFs unique |
| GprsLists.PromotedPending | src/shared/l1gprs.c:353-355 | exactly the requests whose frame was reached leave the pending list; the rest keep their order |
| GprsLists.RequestedKeepsUnique | src/shared/l1gprs.c:508-542 | a request keeps direction and reference unique among active TBFs |
| GprsEffects.HolderIs | src/shared/l1gprs.c:114-140 | a lookup finds the one active TBF with a direction and reference, and none only if there is none |
| GprsEffects.RequestTakesEffect | src/shared/l1gprs.c:508-542 | after a request without start frame the TBF it names uses exactly the slots asked for, and has its old TFI or, when new, the requested one; the other TBFs stay as they were and in order |
| GprsEffects.RequestWaits | src/shared/l1gprs.c:508-522 | a request with a start frame is queued last, and the active TBFs stay |
| GprsEffects.RequestEnds | src/shared/l1gprs.c:531-539 | a request without slots ends the TBF it names and no other |
| GprsEffects.PromotedActive | src/shared/l1gprs.c:348-375 | after a block a TBF is active as the last request says whose frame was reached; without one it is as it was |
| GprsLists.RequestedTfi | src/shared/l1gprs.c:584-592 | after an immediate downlink request its TFI passes on a slot it asked for if and only if the TBF is new, has that TFI already, or another TBF on the slot has it |
| GprsLists.SharedTfiIsLost | src/shared/l1gprs.c:246-254 | two TBFs with one TFI on a slot: the end of the first takes the TFI from the second |
| GprsLists.ChangedTfiIsLost | src/shared/l1gprs.c:364-367 | a pending change of TFI leaves the old TFI in the mask |
| GprsLists.FullSlotFails | src/shared/l1gprs.c:246-254 | with 256 TBFs on a slot the counter is zero and the assertion at the end of any of them fails |
| Gprs.GprsState.Register | src/shared/l1gprs.c:142-177 | counters, masks and list after a TBF became active, and the callback knows the used slots |
| Gprs.GprsState.Update | src/shared/l1gprs.c:179-234 | the same after a change of slots; the assertions hold if and only if the counters to be lowered are not zero |
| Gprs.GprsState.Unregister | src/shared/l1gprs.c:236-272 | the same after the end of a TBF |
| Gprs.GprsState.AddPending | src/shared/l1gprs.c:274-307 | the same after a request with a start frame |
| Gprs.GprsState.RemovePending | src/shared/l1gprs.c:309-345 | the same when a request is taken off; its slots may then be unused though signalled active |
| Gprs.GprsState.Promote | src/shared/l1gprs.c:353-373 | a pending TBF that becomes active leaves the callback right, although it was not told midway |
| Gprs.GprsState.CheckPending | src/shared/l1gprs.c:348-375 | all reached requests are merged into the active list in order |
| Gprs.GprsState.HandleConfig | src/shared/l1gprs.c:496-606 | the lists after a request, the error numbers, and the kept invariants |
| Gprs.GprsState.FilterDlBlock | src/shared/l1gprs.c:398-426 | a data block passes if and only if its TFI is that of an active downlink TBF on the slot |
| GprsHeaders.AddressedByHeader | src/shared/l1gprs.c:398-426 | a block with the header of section 10.2.1 or 10.3.1 of 3GPP TS 44.060 is for the TBF with the TFI in it, or for everyone when it is a control block without one |
| GprsHeaders.HeaderOf | src/shared/l1gprs.c:398-426 | every block has such a header, except those with the reserved payload type, which are for no one |
| Gprs.GprsState.HandleBlock | src/shared/l1gprs.c:702-788 | a block is passed on exactly from a slot with an active TBF, with its octets only when it is for one |
| Gprs.GprsState.SignalTellsUse | src/shared/l1gprs.c:165-169 | what the callback was told last about a slot is whether an active or pending TBF uses it |
| Gprs.GprsState.Serve | src/shared/l1gprs.c:142-606 | over any run with fewer than 256 entries per slot no assertion fails, the counters count, and the last value signalled for a slot tells its use, inactive never twice in a row; while the TFIs of active TBFs sharing a slot are distinct, and a pending TBF keeps the TFI its predecessor has, the masks hold exactly the TFIs of the active TBFs |
| Mframe.MframeLayout | src/host/trxcon/src/sched_mframe.c:2090-2102 | the one layout of a channel combination and timeslot |
| Mframe.PeriodDividesHyperframe | src/host/trxcon/src/sched_mframe.c:1973-2087 | every multiframe fits the hyperframe a whole number of times |
| Mframe.BcchBlocks | src/host/trxcon/src/sched_mframe.c:32-85 | blocks of BCCH and CCCH have their bursts 0 to 3 on consecutive frames |
| Mframe.BcchSdcch4Blocks | src/host/trxcon/src/sched_mframe.c:88-193 | the same for the combined layout, with SDCCH/4 and SACCH/4 |
| Mframe.PdchBlocks | src/host/trxcon/src/sched_mframe.c:1812-1920 | the same for PDTCH |
| MframeLayouts.CombinedIs | src/host/trxcon/src/sched_mframe.c:88-193 | each frame of the combined layout is as 3GPP TS 45.002 describes it: FCCH, SCH, BCCH, CCCH, the subchannels and their bursts |
| MframeLayouts.UplinkFollows | src/host/trxcon/src/sched_mframe.c:88-193 | a dedicated channel has its uplink, burst by burst, 15 frames after its downlink |
| MframeLayouts.BcchIs | src/host/trxcon/src/sched_mframe.c:32-85 | the same for the non-combined layout |
| MframeLayouts.PdchIs | src/host/trxcon/src/sched_mframe.c:1812-1920 | the same for PDTCH and PTCCH |
| MframeLayouts.TimeOfFn | src/shared/libosmocore/src/gsm/gsm_utils.c:557-570 | every superframe and places in the two multiframes are those of the frame number made of them, and the hyperframe holds 2048 superframes |
| MframeLayouts.FnOfTime | src/shared/libosmocore/src/gsm/gsm_utils.c:557-570 | every frame number is told by them |
| Tdma.ElapsedIsCyclic | src/host/trxcon/src/sched_trx.c:675-679 | the elapsed frames lead from the last frame number to the new one, across the wrap, by the shorter way |
| Tdma.ElapsedOf | src/host/trxcon/src/sched_trx.c:675-679 | a step of less than half a hyperframe is measured exactly |
| Tdma.BetweenAt | src/host/trxcon/src/sched_trx.c:714-719 | the frames of a channel among those after a frame, in order: each frame adds its key at the end if the layout gives it to the channel |
| Tdma.LayoutsAreFit | src/host/trxcon/src/sched_mframe.c:1973-2087 | the layouts of BCCH+CCCH, the combined one and PDCH number the bursts of their blocks as the handlers need |
| Tdma.BetweenIsCyclic | src/host/trxcon/src/sched_trx.c:714-719 | from a frame of a channel on, its burst numbers run cyclically |
| Meas.RssiAverage | src/host/trxcon/src/sched_trx.c:888-890 | the average level is the mean if and only if the sum is not negative or the count is a power of two |
| Meas.ToaAverage | src/host/trxcon/src/sched_trx.c:888-890 | and so is the average time of arrival |
| Meas.WindowIsTotal | src/host/trxcon/src/sched_trx.c:868-887 | the sums are those of the levels and times of arrival of the last n measurements |
| Meas.WindowSlides | src/host/trxcon/src/sched_trx.c:868-887 | with one more measurement its values come in and those of the n-th last go out, with zeroes before the first |
| Meas.FourOnXcch | src/host/trxcon/src/sched_lchan_xcch.c:71 | four measurements that differ, averaged |
| Meas.SixOnTchH | src/host/trxcon/src/sched_lchan_tchh.c:153 | six measurements of -100 average to +70 |
| Meas.MeasHist.Push | src/host/trxcon/src/sched_trx.c:843-859 | the ring holds the last 24 measurements |
| Meas.MeasHist.Average | src/host/trxcon/src/sched_trx.c:862-894 | the average is over the last n measurements and carries the frame of the first; it is their mean if and only if their sum is not negative or n is a power of two; fails exactly on a bad count or an empty history |
| SchedRx.Assembler.RxData | src/host/trxcon/src/sched_lchan_xcch.c:36-100 | the blocks after any calls: one with every burst 3 from the first burst 0 on, of the last burst of each number, complete exactly when all four came since the last burst 3 |
| SchedRx.OrderFillsBlocks | src/host/trxcon/src/sched_lchan_xcch.c:51-87 | for bursts in order every block is complete, of its own four bursts, and reported with the frame of its burst 0 |
| SchedBlocks.AlignedFrom | src/host/trxcon/src/sched_lchan_xcch.c:51-53 | the bursts that count are those from the first burst 0 on |
| SchedBlocks.KeptFrom | src/host/trxcon/src/sched_lchan_xcch.c:61-64 | the bits kept for a burst number are those of the last burst with it |
| SchedBlocks.CompleteIff | src/host/trxcon/src/sched_lchan_xcch.c:66-87 | a block is complete if and only if bursts 0, 1 and 2 came since the burst 3 before; it is reported with the frame of the fourth last burst |
| SchedBlocks.MissingBurst | src/host/trxcon/src/sched_lchan_xcch.c:73-84 | a block without its burst 1 holds the bits of the burst 1 before |
| SchedTx.Transmitter.TxData | src/host/trxcon/src/sched_lchan_xcch.c:123-181 | the burst of a block around the training bits, and what is refused: a burst without its block, a block that cannot be encoded |
| SchedTx.PayloadPlace | src/host/trxcon/src/sched_lchan_xcch.c:61-64 | the receiver takes each bit of a block from the place in the burst where it was sent |
| SchedTx.PayloadIsPart | src/host/trxcon/src/sched_lchan_xcch.c:170-175 | the payload of a burst that was heard is the part of the block that was sent |
| SchedTx.BlockIsSent | src/host/trxcon/src/sched_lchan_xcch.c:36-181 | a block received in its place holds exactly the bits of the coded block that was sent in its bursts |
| SchedRx.Lchan.SubstFrameLoss | src/host/trxcon/src/sched_trx.c:659-734 | exactly the frames of the channel between the last and the new one are substituted, in order, and counted as processed and as lost; older frames are told apart |
| SchedRx.Lchan.HandleRxBurst | src/host/trxcon/src/sched_trx.c:736-805 | the handler gets the lost frames and then the burst; an older burst changes nothing |
| SchedRx.EveryFrameOnce | src/host/trxcon/src/sched_trx.c:659-805 | for bursts in time the handler is called once for every frame of the channel from first to last |
| SchedRx.ExpectedInOrder | src/host/trxcon/src/sched_trx.c:659-805 | and in the order of the blocks |
| SchedBlocks.ReceivedOrMadeUp | src/host/trxcon/src/sched_trx.c:705-805 | each call of the handler is for a burst that was received, or a dummy |
| SchedBlocks.ReceivedAt | src/host/trxcon/src/sched_trx.c:736-805 | every received burst gets its call, with the burst number of the layout, after those for the bursts before |
| SchedBlocks.DummyIsUnknown | src/host/trxcon/src/sched_trx.c:705-712 | a lost frame gives the decoder unknown bits only |
| SchedRx.Lchan.ReceiveAll | src/host/trxcon/src/sched_trx.c:736-805 | so all blocks of a run are complete and in their place |
| SchedPrim.CachesReport | src/host/trxcon/src/sched_prim.c:101-114 | when both caches hold reports every composed message is one |
| SchedPrim.FramedIs | src/host/trxcon/src/sched_prim.c:101-104 | a report is told by the discriminator and type of its layer 3 message, a filled cache by its LAPDm header |
| SchedPrim.CacheIsLastReport | src/host/trxcon/src/sched_prim.c:203-210 | while composed messages are reports, the cache holds the last report that was sent |
| SchedPrim.LastReportRepeated | src/host/trxcon/src/sched_prim.c:100-114 | so a composed report is then the last one sent again, while that one has a LAPDm header, and the common one otherwise |
| SchedPrim.TwoInARow | src/host/trxcon/src/sched_prim.c:154-220 | a second message in a row is no report if and only if no report is queued and the cached one is none |
| SchedPrim.ReportsAlternate | src/host/trxcon/src/sched_prim.c:130-220 | over any run no two messages in a row are other than reports (section 3.4.1 of 3GPP TS 04.08) |
| SchedPrim.FirstInFirstOut | src/host/trxcon/src/sched_prim.c:154-389 | over any run each class leaves the queue in order, without loss or duplication |
| SchedPrim.SentOnce | src/host/trxcon/src/sched_prim.c:154-220 | what is sent is what leaves the queue and what is composed, each exactly once |
| SchedPrim.OthersAreTaken | src/host/trxcon/src/sched_prim.c:154-220 | while composed messages are reports, the other messages sent are those that leave the queue, in order |
| SchedPrim.BoundedWait | src/host/trxcon/src/sched_prim.c:154-220 | every other dequeue serves a class that is queued |
| SchedPrim.LeavesWithinTwoK | src/host/trxcon/src/sched_prim.c:154-220 | the k-th queued message of a class leaves within 2k dequeues |
| SchedPrim.Starvation | src/host/trxcon/src/sched_prim.c:185-198 | without a report to send or to compose nothing leaves the queue any more |
| SchedPrim.Sacch.PrimEnqueue | src/host/trxcon/src/sched_prim.c:362-389 | a message goes to the end of the queue |
| SchedPrim.Sacch.ComposeMr | src/host/trxcon/src/sched_prim.c:85-127 | the report composed, and the cache after it |
| SchedPrim.Sacch.Search | src/host/trxcon/src/sched_prim.c:169-183 | the search finds the first report and the first other message as far as they are wanted |
| SchedPrim.Sacch.DequeueSacch | src/host/trxcon/src/sched_prim.c:154-220 | the message, the queue, the cache, its usage and the turn after a dequeue |
| Rach.RxRachReq | src/host/virt_phy/src/virt_prim_rach.c:72-110 | the frame and timeslot computed for a request, with 16-bit sums |
| Rach.LayoutPlaces | src/host/trxcon/src/sched_mframe.c:88-193 | the RACH frames of the combined layout |
| Rach.RankIs | src/host/virt_phy/src/virt_prim_rach.c:41-45 | the first table counts the RACH frames before a frame |
| Rach.SelectPlaces | src/host/virt_phy/src/virt_prim_rach.c:46-49 | the second table is its inverse on RACH frames |
| Rach.RachFramesAre | src/host/virt_phy/src/virt_prim_rach.c:96-103 | the RACH frames between two frames are the difference of their ranks, across the wrap |
| Rach.ScheduledIsChosen | src/host/virt_phy/src/virt_prim_rach.c:96-103 | the chosen frame is a RACH frame with exactly the requested number of RACH frames before it if and only if the sum of slots fits into 16 bits |
| Rach.WrappedRequest | src/host/virt_phy/src/virt_prim_rach.c:96-103 | a request at frame 50 for the slot after 65530 others gets frame 33, which is over |

## Left out

- Tail-biting decoding is a heuristic in two passes without a claim of optimality; only its
  encoder is modelled.
- ConvTheorems.Decode: requires that 127 times the number of positions stays below the mark for
  unreachable states, and that the termination steps of a flushed code lead to state zero; the
  decoder assumes both.
- ConvEncoder.Encoder.DoOutput: output bits are returned as a sequence; the caller's buffer and
  pointers into it are not modelled.
- ConvDecoder.Decoder.GetOutput: requires a given end state to be reachable, as it is in a flushed
  block; the source accepts any.
- The survivor array starts with unknown contents, as in the source; the proofs do not read it
  before it is written.
- Timers.TimerQueue.Add: requires the other timers to be in order, which a caller breaks by
  changing the timeout of a queued timer without adding it again.
- Timeouts are whole numbers of microseconds; the clock is a parameter, and a callback is the
  script of what it does to the timers.
- Links embedded in other objects are the objects themselves: a timer is its tree node.
- Talloc.Heap.Free: destructors answer yes or no and do not touch the hierarchy. A root above the
  null context, which only a steal of the null context makes, is not freed while something below
  it refuses.
- Memory pools, references, names and reallocation of the allocator.
- Gprs.GprsState.Update: TBFs are values in a list; the aliasing of list entries is not modelled.
- Uplink block requests and ready-to-send indications of the GPRS layer, which use the same checks.
- The comparison of frame numbers that decides whether a start frame was reached is a parameter.
- Message lengths and byte order are left to the caller: a request arrives parsed or as malformed.
- Mframe.MframeLayout: the frames of the layouts other than BCCH+CCCH, the combined one and PDCH
  are not transcribed.
- SchedRx.Assembler.RxData: the decoder of a block and the handlers of TCH and PDTCH are not
  modelled; a burst's two data halves are kept as one payload in a buffer of four.
- SchedTx.Transmitter.TxData: what the encoder makes of a message is a parameter; the choice of the
  message and its confirmation are left out.
- SchedRx.Lchan.HandleRxBurst: looking up the channel and decrypting the burst are left out.
- Tdma.ElapsedIsCyclic: frame numbers are assumed to be below the hyperframe, as the PHY gives them.
- Sockets, logging, option parsing and message packing.

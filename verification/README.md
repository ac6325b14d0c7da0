# Verified models of the inference engine's tools

Machine-checked models, in Dafny 4.11, of the parts of the engine whose correctness rests on protocol or
arithmetic arguments rather than on kernels. `dafny verify dfyconfig.toml` checks everything.

**Two-stage decoding.** A sequence runs through stage A (embedding and the first blocks, card 0) and stage B (the
other blocks and the head, card 1). `Blocks` models what one block keeps of a sequence (a recurrent state that cannot
rewind; a latent cache, pooled indexer keys and the roll of the pool still open) and, beside it, a cache-free
reference that recomputes everything from the whole history. `Stage` and `StageObject` add the snapshot, restore,
spec-verify capture and commit operations, as functions and as the object whose fields they update. Stale rows past
the depth stay in place after a rewind; that they are harmless is a lemma (`Blocks.CachePrefix`). `Greedy` defines the
text a plain greedy loop prints, over the reference alone. Four modes of the runner are then compared with it:

- the chunk-pipelined prefill (`Prefill`) and the pipelined-draft loop (`Pipedraft`), as programs of two threads over
  a shared memory (`Machine`, `Cards`), for every interleaving;
- the windowed draft / verify / commit loop (`Speculative`, `SpecLoop`), for every draft head and window width;
- the plain loop (`SpecLoop.PlainDecode`) and the chunked perplexity scorer (`Scorer`).

**The rest.** The exact-LRU simulator and its reuse-distance pass (`Lru`); the concurrent expert-file writer and
verifier (`Pool`, `ExpertLayout`, `ExpertBytes`, `ExpertFile`); the divergence monitor (`Divergence`); the hand-written
binary32 to binary16 conversion (`Half`, against sections 3.4 and 4.3.1 of IEEE 754-2019); the K-quant column dot
(`KQuant`), the split-K matrix-vector product (`Gemv`) and the tiled matrix product (`Gemm`), each against the plain
sum in exact arithmetic; the metric log and its reader (`MetricLog`); and the consolidated safetensors file
(`SafeTensors`).

Where the code keeps a shared flag, counter or buffer, threads are steps of a state machine and the theorems quantify
over every run. Where it loops over local variables or updates an object, the model is a method or a class proved
against a function whose properties are proved separately.

## What the models show of the code

- `--spec` is not bounded. A verify forward of more than 8 rows records nothing
  (`src/model/glm5next.cpp:4267`, `:4327`), yet `commit_verify` accepts it (`:4546-4547`) and replays stale rows. The
  speculative loop therefore prints the greedy text for every model, prompt and draft head if and only if
  `spec + 1 <= 8` (`SpecWidth.SpecIsGreedyExactly`).
- A window that would cross the context limit is refused, so `--spec` can end with an error where the plain loop has
  room (`SpecWidth.PlainHasRoomSpecDoesNot`). No draft head can make a run fail if and only if prompt + ngen + spec
  fits the context and spec + 1 a chunk (`Speculative.RefusedExactly`); what was printed is always a prefix of the
  greedy text (`Speculative.SpecIsGreedy`).
- The runner bounds the prompt (`tools/glm5next_run.cpp:430`), not ngen. `--pipedraft` with more tokens asked for than
  the context holds prints those that fit and ends in an error (`Pipedraft.PipedraftIsGreedy`).
- The expert-file writer removes its file only when a worker failed. A failed write of the head leaves an incomplete
  file, which the verifier rejects (`ExpertFile.LeftoverRejected`), and a failed fsync a complete one
  (`ExpertFile.WriterIsComplete`).
- `--threads 0` makes the expert-file writer exit 0 with no slot written (`ExpertFile.NoWorkerWritesNothing`); with no
  worker that got its buffers the verifier compares nothing and never exits 5
  (`ExpertFile.NoBuffersComparesNothing`).
- The monitor detects one changed word always, two changed words not always: the second can cancel the first
  (`Divergence.TwoWordsCanCancel`).
- `ff16` maps NaN to infinity (`Half.NanBecomesInfinity`).
- With more than one segment the split-K kernel's items return before the barrier unless N is a multiple of the columns
  per work-group (`Gemv.AllReachBarrier`); with one segment there is no barrier and every N is right (`Gemv.MatVec`).

## Model

| member | source | states |
|---|---|---|
| Blocks.RefLayerCausal | src/model/glm5next.cpp:4188-4447 | a block's output for a prefix of a history is the prefix of its output |
| Blocks.CopyOpenSlot | src/model/glm5next.cpp:4253-4278 | after the roll copy the slot of any position less than a pool back holds that position's row, whatever wrapped around |
| Blocks.CarryHolds | src/model/glm5next.cpp:4253-4278 | carrying a chunk's open pool members keeps the roll in step with the history, for every chunk length and pool size |
| Blocks.PoolsBuilt | src/model/glm5next.cpp:1423-1464 | the pools completed by a chunk, members split between chunk and roll included, are the pools of the whole history |
| Blocks.CachePrefix | src/model/glm5next.cpp:4606-4620 | a cache that stands for a longer history also stands for every prefix: rows past the depth are harmless |
| Blocks.LayerForwardHolds | src/model/glm5next.cpp:4188-4447 | a chunk through a block leaves the state of the joined history, returns the reference's rows, and fills the capture when it records |
| Blocks.LayerSnapshotHolds | src/model/glm5next.cpp:4529-4543 | what a snapshot keeps of a block suffices for the history it was taken at |
| Blocks.LayerRestoreHolds | src/model/glm5next.cpp:4606-4620 | a restore brings a block from a longer history back to the snapshot's |
| Blocks.LayerCommitHolds | src/model/glm5next.cpp:4545-4604 | rewinding a block and replaying n captured rows gives the state of exactly those n rows |
| Stage.DenseLimit | src/model/glm5next.cpp:5304-5315 | without the indexer a text is accepted exactly while its complete pools are no more than the indexer would select |
| Stage.RunToHolds | src/model/glm5next.cpp:5348-5369 | each block of a range reads the rows the reference gives for the block before it |
| Stage.ResetHolds | src/model/glm5next.cpp:2645-2651 | a reset stage stands for the empty history |
| Stage.ForwardHolds | src/model/glm5next.cpp:5297-5438 | a forward of any accepted length leaves the state of having consumed the joined history and returns the cache-free reference's rows |
| Stage.ForwardKeepsSnapshot | src/model/glm5next.cpp:5297-5438 | a forward never touches the snapshot slot |
| Stage.SnapshotTaken | src/model/glm5next.cpp:4529-4543 | a snapshot records the current history and changes nothing live |
| Stage.RestoreUndoes | src/model/glm5next.cpp:4606-4620 | a restore undoes any rows consumed since the snapshot |
| Stage.CommitKeepsPrefix | src/model/glm5next.cpp:4545-4604 | committing n rows of a recorded window leaves the state of having consumed exactly those n |
| StageObject.GlmStage.SetSpecVerify | include/ie/glm5next.hpp:344 | sets the recording flag and nothing else |
| StageObject.GlmStage.ResetState | src/model/glm5next.cpp:2645-2651 | the object's new state is the specified reset of the old |
| StageObject.GlmStage.ForwardRange | src/model/glm5next.cpp:5297-5438 | accepted exactly when the chunk is between 1 and the largest, starts at the depth and fits the context and, without the indexer, the selection; the new state and rows are the specified forward's, and a refused call changes nothing |
| StageObject.GlmStage.RunBlock | src/model/glm5next.cpp:4188-4447 | one block updates its own state and capture in place and hands on its rows |
| StageObject.GlmStage.SnapshotState | src/model/glm5next.cpp:4529-4543 | the object's new state is the specified snapshot of the old |
| StageObject.GlmStage.RestoreState | src/model/glm5next.cpp:4606-4620 | the object's new state is the specified restore of the old |
| StageObject.GlmStage.CommitVerify | src/model/glm5next.cpp:4545-4604 | accepted exactly for 1 to spec_T rows of a recorded window; a refusal changes nothing; otherwise the specified commit |
| Greedy.RowsCausal | tools/glm5next_run.cpp:218-225 | both stages' rows for a prefix of a text are the prefix of their rows |
| Greedy.GreedyPrefix | tools/glm5next_run.cpp:741-770 | a shorter greedy continuation is a prefix of a longer one |
| Greedy.TextGrows | tools/glm5next_run.cpp:741-770 | the committed text grows by the greedy next token |
| Greedy.AForward | tools/glm5next_run.cpp:218-225 | stage A on a chunk of tokens leaves the joined text and hands on its wide rows |
| Greedy.BForward | tools/glm5next_run.cpp:218-225 | stage B on stage A's rows leaves the joined text and the reference's mean rows |
| Greedy.ChunkRows | tools/glm5next_run.cpp:245-290 | the rows a chunk yields are those of one forward over the whole text |
| Scorer.ScoreChunk | tools/glm5next_run.cpp:255-288 | a chunk adds the score of exactly its own predictions |
| Scorer.ScoreText | tools/glm5next_run.cpp:245-290 | for every chunk size a run that ends well scores each position once, exactly as one forward would, and leaves both stages after the rows it forwards, all of the text or all but its last token; it ends well if and only if those rows fit the context and the widest chunk a forward |
| Scorer.GreedyCostsNothing | tools/glm5next_run.cpp:268-285 | each row is scored against the token that follows it: under a cost that is zero for the token picked, greedy text adds nothing to its prompt's score |
| Machine.Commute | tools/glm5next_run.cpp:689-700 | two operations whose footprints do not conflict can be swapped |
| Machine.SoundStep | tools/glm5next_run.cpp:689-710 | any step of either thread, a check that ends the main thread included, keeps the outcome of the serial run |
| Machine.AnySchedule | tools/glm5next_run.cpp:689-710 | every interleaving of a race-free program that ends has the serial run's memory |
| Machine.NoRace | tools/glm5next_run.cpp:603-612 | in no reachable state does the main thread's next operation or check conflict with the task's next operation |
| Machine.EveryRunEnds | tools/glm5next_run.cpp:689-710 | no schedule blocks or runs for ever |
| Cards.ACall | tools/glm5next_run.cpp:663-665 | a stage-A call with room is accepted and leaves the joined text and its wide rows |
| Cards.AFull | src/model/glm5next.cpp:5297-5330 | a stage-A call past the limit is refused |
| Cards.BCall | tools/glm5next_run.cpp:701-704 | a stage-B call on stage A's rows leaves the joined text, its mean rows and the greedy next token |
| Cards.BFull | src/model/glm5next.cpp:5297-5330 | a stage-B call past the limit is refused |
| Cards.RestCall | tools/glm5next_run.cpp:717 | stage A restored has the history of its snapshot |
| Prefill.ChunkOnBRaceFree | tools/glm5next_run.cpp:447-483 | stage B's chunk shares no buffer with stage A's next one |
| Prefill.PipelinedRaceFree | tools/glm5next_run.cpp:446-483 | the whole pipelined prefill is race-free, for every prompt and chunk size |
| Prefill.ChunkKeepsOneAhead | tools/glm5next_run.cpp:469-481 | one iteration keeps stage A one chunk ahead of the serial loop, with its rows in the slot stage B reads next, until one of the loops is refused a chunk; then both are |
| Prefill.PipelinedIsSerial | tools/glm5next_run.cpp:446-491 | the pipelined loop is refused a chunk iff the serial loop is; otherwise both cards and the last forward's row count end alike, ragged last chunk included |
| Prefill.PipelinedPrefillIsSerialPrefill | tools/glm5next_run.cpp:446-491 | the same for every interleaving of a run that ends, an error ending the main thread with a task in flight included |
| Prefill.SerialFills | tools/glm5next_run.cpp:484-491 | the serial loop consumes the prompt, refuses nothing, and leaves the greedy first token and the seed row |
| Prefill.PipelinedFills | tools/glm5next_run.cpp:446-483 | so does the pipelined loop |
| Pipedraft.ProgramSafe | tools/glm5next_run.cpp:649-722 | the whole run is race-free with the draft head on either card, the two buffer indices the task reads by reference included |
| Pipedraft.DraftKeeps | tools/glm5next_run.cpp:651-666 | a draft step gives the head the hidden row of pos - 1 and the token at pos, from whichever copy its home has |
| Pipedraft.JoinKeeps | tools/glm5next_run.cpp:671-710 | at the join of a round stage B has the token at pos and the draft head one more entry; stage A accepted the draft or, with the context full, was refused |
| Pipedraft.SettleKeeps | tools/glm5next_run.cpp:713-722 | keeping a right draft or restoring and redoing a wrong one both leave stage A with the committed text and t |
| Pipedraft.RoundKeeps | tools/glm5next_run.cpp:671-722 | a round with room keeps the loop's invariant and commits one more token, whatever the draft was |
| Pipedraft.RoundRefused | tools/glm5next_run.cpp:696-710 | a round with the context full ends the run, its token printed and counted and stage A refused |
| Pipedraft.DecodePrints | tools/glm5next_run.cpp:671-722 | from the loop's invariant the greedy text's next n tokens are printed, as many as the context has room for, and the run is refused exactly when n is more |
| Pipedraft.PipedraftIsGreedy | tools/glm5next_run.cpp:430-722 | for every model, draft function, draft home, prefill mode, ngen and interleaving: a finished run printed the first ngen greedy tokens that fit the context, was refused a forward iff prompt + ngen passes the limit, counted a round for every token but the last and an accept for every right draft, and gave the draft head entry i from the hidden row before position prompt + i and the token there |
| Pipedraft.PipedraftHasNoRace | tools/glm5next_run.cpp:649-722 | no reachable state has a conflict between the two threads' next operations, the buffer indices included |
| Pipedraft.WhatWouldRace | tools/glm5next_run.cpp:680-722 | the tail-hosted draft inside the async task, a single hand-off buffer, a single hidden-row copy, or flipping the indices before the join would each race |
| Speculative.ScanIsGreedy | tools/glm5next_run.cpp:560-574 | the scan prints the longest prefix of the window greedy would print, capped at ngen, and its next token is greedy's |
| Speculative.VerifyA | tools/glm5next_run.cpp:555 | a verify forward on stage A consumes and records the window and can still be rewound to before it |
| Speculative.VerifyB | tools/glm5next_run.cpp:555 | the same for stage B, whose rows are the reference's |
| Speculative.PicksPredict | tools/glm5next_run.cpp:564-567 | the argmax of verify row i is the greedy token after the window's first i + 1 tokens |
| Speculative.DraftIs | tools/glm5next_run.cpp:543-551 | each draft step fuses the window's token with the head's own row after the step before (the first with the row given), at the next position, and its answer is the next token |
| Speculative.RoundFeeds | tools/glm5next_run.cpp:543-553 | a round gives the head the hidden row of the last committed token, the token after it and its position |
| Speculative.RoundCounts | tools/glm5next_run.cpp:543-557 | a draft past the context is refused before the round is counted, anything later after |
| Speculative.SettleKeeps | tools/glm5next_run.cpp:579-589 | by full accept or by commit, both stages end with exactly the printed text, and row lastT - 1 is the hidden row of the position before |
| Speculative.RoundIsGreedy | tools/glm5next_run.cpp:539-590 | a round of at most 8 rows fails exactly when its window does not fit, printing nothing, and otherwise keeps the invariant |
| Speculative.RunIsGreedy | tools/glm5next_run.cpp:539-590 | the same over every run: always a prefix of the greedy text, and short of ngen tokens exactly where the next window does not fit |
| Speculative.SpecIsGreedy | tools/glm5next_run.cpp:512-590 | for every model, draft head and window of at most 8 rows, a run from a prefill prints the greedy text, or a prefix of it and an error where the next window does not fit |
| Speculative.WrongRun | tools/glm5next_run.cpp:539-590 | a head that always drafts wrong comes to every position, and its run fails exactly when the last one has no room for a window |
| Speculative.RefusedExactly | tools/glm5next_run.cpp:512-590 | from a prefill, for ngen > 0 and windows of at most 8 rows: no draft head makes the run fail if and only if prompt + ngen + spec fits the context and spec + 1 a chunk |
| Speculative.ScanBalances | tools/glm5next_run.cpp:560-574 | a scan keeps each depth's tries equal to the accepts above it |
| Speculative.ScanCounts | tools/glm5next_run.cpp:560-574 | a scan of n rows adds one try at every depth it reached, one accept at every depth before the last, and n - 1 accepts in all |
| Speculative.ScanStops | tools/glm5next_run.cpp:560-574 | a scan goes on exactly while a row confirms the draft after it and fewer than ngen tokens are printed |
| Speculative.SpecIsAccounted | tools/glm5next_run.cpp:527-590 | for every window width: emitted = rounds + accepted, drafted = rounds * spec, accepted is the sum of acc_at, try_at[0] = rounds, try_at[d+1] = acc_at[d] |
| SpecWidth.StuckRound | src/model/glm5next.cpp:4545-4604 | with a window over 8 rows a partial commit replays a stale row and loses the committed one |
| SpecWidth.WideWindowDiverges | tools/glm5next_run.cpp:539-590 | for every wider window a concrete model prints 1, 2, 3 where greedy prints 1, 2, 4 |
| SpecWidth.PlainHasRoomSpecDoesNot | tools/glm5next_run.cpp:512-590 | for every spec from 1 to 7 a concrete model and ngen for which the plain loop has room and some head makes the speculative loop end in an error |
| SpecWidth.SpecIsGreedyExactly | tools/glm5next_run.cpp:512-590 | the loop prints the greedy text for all models, prompts and heads if and only if spec + 1 <= 8 |
| SpecLoop.DraftWindow | tools/glm5next_run.cpp:543-551 | the log grows by one entry a step: the first fuses the row given, each later one the head's own row after the step before, with the window's token and position; each answer is the window's next token |
| SpecLoop.ScanWindow | tools/glm5next_run.cpp:558-574 | the printed tokens, the stop, the next token and every counter of the print-and-compare loop |
| SpecLoop.VerifyWindow | tools/glm5next_run.cpp:218-225 | the window runs through both stage objects, and a refusal stops it |
| SpecLoop.SettleWindow | tools/glm5next_run.cpp:579-589 | both objects end committed, or as they were when the whole window was kept |
| SpecLoop.SpecVars.Round | tools/glm5next_run.cpp:539-590 | a round on the objects and the loop's variables is the specified round |
| SpecLoop.SpecVars.Decode | tools/glm5next_run.cpp:539-590 | the loop is the specified run |
| SpecLoop.SpecDecode | tools/glm5next_run.cpp:512-590 | the imperative loop from a prefill prints the greedy text, or a prefix of it and an error where the next window does not fit, and its counters balance |
| SpecLoop.PlainDecode | tools/glm5next_run.cpp:741-770 | the plain loop prints the greedy text and fails exactly when the context does not hold it |
| Lru.AmongMostRecent | scripts/glm52_router_trace.py:33-47 | a key is among the c most recent iff it was requested and fewer than c distinct keys were since |
| Lru.Served | scripts/glm52_router_trace.py:39-46 | one request turns the c most recent keys into the c most recent after it, and hits iff its stack distance is below c |
| Lru.CacheIsMostRecent | scripts/glm52_router_trace.py:37-46 | after every stream the simulator's ordered dict holds exactly the most recent keys, as many as fit, in order of last use |
| Lru.HitIffCached | scripts/glm52_router_trace.py:39-41 | a request finds its key in the dict iff fewer than capacity distinct keys came since its previous use |
| Lru.LruHitRate | scripts/glm52_router_trace.py:33-47 | the simulator's hits are the requests found in its dict, and exactly those with fewer than capacity distinct keys since their previous use |
| Lru.Inclusion | scripts/glm52_router_trace.py:33-47 | after every stream the smaller cache is the most recent part of the larger one in the same order, so hits are monotone in capacity |
| Lru.ReuseDistances | scripts/glm52_router_trace.py:91-97 | one distance for every repeat, in request order: distance d at position i means the key was requested at i - d and not since; and the last-use map |
| Lru.ShortReuseHits | scripts/glm52_router_trace.py:91-97 | a repeat whose recorded distance is at most capacity hits |
| Lru.EveryRepeatHits | scripts/glm52_router_trace.py:33-47 | with room for every distinct key, hits = len(dists) = requests - distinct keys |
| Pool.AnySchedule | tools/ds41_expert_file.cpp:70-85 | for every interleaving no item is claimed or carried out twice, and none claimed is lost unless the run stopped |
| Pool.FinishedRun | tools/ds41_expert_file.cpp:122-137 | a run that ended without stopping, with a worker that got its buffers, carried out every item exactly once; with none it carried out nothing |
| Pool.StopsSoon | tools/ds41_expert_file.cpp:126-134 | once a run has stopped only the items past the check are carried out, at most one more for each worker |
| Pool.EveryRunEnds | tools/ds41_expert_file.cpp:122-137 | no schedule runs for ever |
| ExpertLayout.SlotPlace | tools/ds41_expert_file.cpp:99-101 | slots are 4096-aligned, past header and table, inside the file |
| ExpertLayout.SlotsTile | tools/ds41_expert_file.cpp:99-101 | every byte from slots_off to the end lies in exactly one slot |
| ExpertLayout.EntryIs | tools/ds41_expert_file.cpp:112-113 | a table entry is nonzero iff its expert lies in the window, and is then the offset of the slot that holds it |
| ExpertLayout.EntryOfSlot | tools/ds41_expert_file.cpp:128-132 | the entry of the expert a slot index stands for is that slot's offset |
| ExpertLayout.BuildTable | tools/ds41_expert_file.cpp:112-113 | the nested loops fill exactly the window's entries and leave the rest 0 |
| ExpertLayout.TableIs | tools/ds41_expert_file.cpp:99-113 | slots begin at the first page after the table; the expert at window position i of layer l has entry slots_off + (l * per_layer + i - cutoff) * slot, every other 0 |
| ExpertBytes.HeaderRoundTrip | include/ie/deepseek41_experts.hpp:47-58 | a header written and read back is the same header |
| ExpertBytes.HeaderLayout | include/ie/deepseek41_experts.hpp:47-58 | the magic and the little-endian place of each of the ten fields |
| ExpertBytes.HeaderBytesKept | include/ie/deepseek41_experts.hpp:47-58 | writing back a header that was read changes only the bytes of the id |
| ExpertBytes.PutElsewhere | tools/ds41_expert_file.cpp:133 | a pwrite leaves every other region as it was |
| ExpertBytes.TableRoundTrip | tools/ds41_expert_file.cpp:60-61 | the table read back is the table written |
| ExpertFile.HeadReads | tools/ds41_expert_file.cpp:114-119 | header and table read back from any file that starts with the written page |
| ExpertFile.HeadFields | tools/ds41_expert_file.cpp:116-118 | the value of every header field of a written file |
| ExpertFile.HeadPadding | tools/ds41_expert_file.cpp:115-118 | the head page is zero between header and table and after the table |
| ExpertFile.ReplayKeeps | tools/ds41_expert_file.cpp:122-137 | whatever order the slots were written in, each is in the file and the head is untouched |
| ExpertFile.WriterIsComplete | tools/ds41_expert_file.cpp:97-145 | with at least one worker: exit 0 leaves a complete file, each slot written once; once the output is open nothing is left exactly when a worker failed, what is left is complete exactly when the head was written, and a complete file is left with exit 1 exactly when the fsync failed |
| ExpertFile.NoWorkerWritesNothing | tools/ds41_expert_file.cpp:122-145 | with no worker exit 0 leaves a file without its slots |
| ExpertFile.HeadAloneFails | tools/ds41_expert_file.cpp:53-80 | a head cut at any byte, or whole with no slot after it, is not a complete file: it does not open, or some slot does not match |
| ExpertFile.LeftoverRejected | tools/ds41_expert_file.cpp:53-119 | after a failed allocation or a short write of the head the writer exits 1 with an incomplete file in place, and a verifier with a live worker exits 1 or 5 on it |
| ExpertFile.ShortHeadStays | tools/ds41_expert_file.cpp:119 | a head pwrite that stops after 100 bytes leaves those 100 bytes as the file |
| ExpertFile.WorkList | tools/ds41_expert_file.cpp:62-63 | the list is the nonzero entries, in row-major order |
| ExpertFile.OpensExactly | tools/ds41_expert_file.cpp:56-61 | a file opens exactly when its magic is right, its header names the model's five sizes, and it holds the whole table |
| ExpertFile.OtherLayoutRefused | tools/ds41_expert_file.cpp:58 | a header of another model's layout ends the verifier with 1 and the file as it was |
| ExpertFile.TruthExactly | tools/ds41_expert_file.cpp:74-77 | a slot counts as matching exactly when it lies aligned and whole at its entry and equals its expert's packed bytes |
| ExpertFile.BadCounts | tools/ds41_expert_file.cpp:76-77 | bad counts each item that failed or differed once |
| ExpertFile.VerifyExits | tools/ds41_expert_file.cpp:54-95 | when each exit code 0, 1, 5 and 6 is given |
| ExpertFile.VerifierIsExact | tools/ds41_expert_file.cpp:53-96 | with a live worker: an exit other than 5 means every slot matches, a slot that does not match forces 5, without a failing read 5 means some slot does not match, and exit 1 means a rebind whose header write failed |
| ExpertFile.NoBuffersComparesNothing | tools/ds41_expert_file.cpp:69-96 | without a live worker nothing is compared and the exit is 0, 6, or 1 from a rebind whose header write failed |
| ExpertFile.RebindChangesOnlyTheId | tools/ds41_expert_file.cpp:88-95 | only a rebind changes the file, only in the header's id, of which a write cut short replaces the first bytes; exit 0 means the header names these shards |
| ExpertFile.WindowListed | tools/ds41_expert_file.cpp:62-63 | the verifier's list holds a (layer, expert) iff it lies in the written window |
| ExpertFile.WrittenFileMatches | tools/ds41_expert_file.cpp:53-96 | a complete file opens, its table reads back, and every slot matches |
| ExpertFile.WriteThenVerify | tools/ds41_expert_file.cpp:53-145 | write then verify against unchanged shards exits 0 and leaves the file as it was |
| Divergence.UnscaleScale | tools/ie_bug_monitor.cpp:106-117 | the step's multiplication modulo 2^64 is a bijection, with 0xce965057aff6957b its inverse on both sides |
| Divergence.MixIs | tools/ie_bug_monitor.cpp:106-117 | a step is an exclusive or, then the multiplication |
| Divergence.MixInverse | tools/ie_bug_monitor.cpp:106-117 | from a step's result either its word or the hash before it can be recovered with the other |
| Divergence.OneWordChanges | tools/ie_bug_monitor.cpp:106-117 | changing one word always changes a fold |
| Divergence.TwoWordsCanCancel | tools/ie_bug_monitor.cpp:106-117 | after any first changed word exactly one second word restores the hash, and it differs from the one that was there |
| Divergence.OneUnitChanges | tools/ie_bug_monitor.cpp:106-117 | changing bytes of one 8-byte word, or one tail byte, always changes a buffer's hash |
| Divergence.WordBytes | tools/ie_bug_monitor.cpp:106-117 | byte i of eight is bits 8i to 8i + 7 of its word, a tail byte its own low bits |
| Divergence.HashSmall | tools/ie_bug_monitor.cpp:106-117 | no bytes leave the seed, one byte or one word is one step from it |
| Divergence.Hash64 | tools/ie_bug_monitor.cpp:106-117 | the two loops compute the fold of the buffer's words and tail bytes |
| Divergence.HeadsFold | tools/ie_bug_monitor.cpp:356-382 | chaining the heads' hashes is one fold over all their units, from the offset basis |
| Divergence.HashChain | tools/ie_bug_monitor.cpp:325-402 | each layer's hash from the offset basis, heads chained and empty layers 0, and the combined fold over all of them in producer order |
| Divergence.CheckLayer | tools/ie_bug_monitor.cpp:284-295 | finds the first layer that differs, or none does |
| Divergence.DiffVsRef | tools/ie_bug_monitor.cpp:279-306 | diverged iff the combined hashes differ; for one shape the tag is the first difference in producer order |
| Divergence.DetectsAndLocates | tools/ie_bug_monitor.cpp:262-402 | one changed unit in exactly one buffer is always reported, with exactly that buffer and layer |
| Divergence.AlwaysExplained | tools/ie_bug_monitor.cpp:304-305 | the "combined diff but per-layer match" tag is unreachable for chains of one shape |
| Divergence.CountUnique | tools/ie_bug_monitor.cpp:1062-1070 | the number of different combined hashes |
| Divergence.Monitor | tools/ie_bug_monitor.cpp:1052-1090 | diffs is the number of iterations that diverged and matches the others; the first divergence is the first diverging iteration, its lowest diverging chain, and a tag that explains it |
| Half.RoundsToNearestEven | tools/glm5next_epv_ref.cpp:33-52 | every non-NaN binary32 goes to the nearest binary16, ties to even, subnormals, carries and overflow included, sign kept |
| Half.OverflowAt65520 | tools/glm5next_epv_ref.cpp:38 | the result is infinity iff the magnitude is at least 65520 |
| Half.SignedMonotone | tools/glm5next_epv_ref.cpp:33-52 | the conversion is monotone |
| Half.WidensExactly | tools/glm5next_epv_ref.cpp:25-32 | widening a finite binary16 keeps its value exactly |
| Half.Inverse | tools/glm5next_epv_ref.cpp:25-52 | narrowing inverts widening on every non-NaN binary16 |
| Half.KnownValues | tools/glm5next_epv_ref.cpp:25-52 | one, minus two, the largest and the least positive binary16, each way |
| Half.Idempotent | tools/glm5next_epv_ref.cpp:53 | rounding twice is rounding once |
| Half.NanBecomesInfinity | tools/glm5next_epv_ref.cpp:38 | a NaN becomes a signed infinity |
| KQuant.ScalesRoundTrip | tools/glm5next_epv_ref.cpp:55-61 | the 12 scale bytes and the eight six-bit pairs determine each other |
| KQuant.Nibbles4Once | tools/glm5next_epv_ref.cpp:75-78 | every nibble of a Q4_K block is read exactly once |
| KQuant.BitParts | tools/glm5next_epv_ref.cpp:90 | the eight bits read from a byte are its binary digits, the two nibbles its hexadecimal ones |
| KQuant.Fields5Once | tools/glm5next_epv_ref.cpp:86-91 | the nibble plane and the high-bit plane of a Q5_K block and its 256 five-bit quants determine each other |
| KQuant.Fields6Once | tools/glm5next_epv_ref.cpp:97-110 | every 4-bit and 2-bit field of a Q6_K block is read exactly once |
| KQuant.WeightQ5 | tools/glm5next_epv_ref.cpp:84-91 | element 32 sub + j of a Q5_K block is d s (nibble + 16 bit sub of qh[j]) - dmin m, with the sub-block's scale and minimum |
| KQuant.ElementParts | tools/glm5next_epv_ref.cpp:97-104 | the lane lattice visits each of the 256 elements once, in index order |
| KQuant.DotQ4 | tools/glm5next_epv_ref.cpp:67-79 | the nested loops add the block's dot with its dequantised weights |
| KQuant.DotQ5 | tools/glm5next_epv_ref.cpp:80-93 | the same with the fifth bit |
| KQuant.DotQ6 | tools/glm5next_epv_ref.cpp:94-112 | the same over the lane lattice |
| KQuant.ColDot | tools/glm5next_epv_ref.cpp:63-114 | for every number of blocks the column dot is the index-order dot with the dequantised column; for an x with one nonzero element it is that element times its own weight |
| KQuant.ColumnUnit | tools/glm5next_epv_ref.cpp:63-114 | the same for the first n blocks, 0 when the nonzero element lies past them |
| Gemv.IDotBound | include/ie/dp4a.hpp:25-31 | no partial sum of a block dot leaves the int32 range |
| Gemv.Int8RoundTrip | include/ie/dp4a.hpp:25-31 | bytes are read as two's-complement int8: every int8 reads back from the byte it is stored as, and every byte is that of one |
| Gemv.BlockDot | tools/gemv_shapes_bench.cpp:50-54 | eight packed multiply-adds compute the 32-term dot |
| Gemv.LanesPartition | tools/gemv_shapes_bench.cpp:48-49 | every block falls to exactly one (segment, lane): the strided sums add up to the single sum |
| Gemv.LaneSum | tools/gemv_shapes_bench.cpp:47-56 | a lane's strided loop adds exactly the blocks of its residue |
| Gemv.WorkGroup | tools/gemv_shapes_bench.cpp:57-69 | a work-group stores the single sum of each of its columns in range and touches no other output; with one segment also where the last group is ragged |
| Gemv.CellsDistinct | tools/gemv_shapes_bench.cpp:61 | no two (column, segment) pairs share a partial-sum cell |
| Gemv.OneWriter | tools/gemv_shapes_bench.cpp:41-42 | for every N each output belongs to one column of one work-group, and the work-groups launched cover all |
| Gemv.AllReachBarrier | tools/gemv_shapes_bench.cpp:42-62 | no item returns before the barrier iff N is a multiple of the columns per work-group |
| Gemv.MatVec | tools/gemv_shapes_bench.cpp:24-71 | each output is the single sum over all blocks: for every N with one segment, and with several for every N that is a multiple of the columns per work-group; for one nonzero activation it is that times its own weight and scales |
| Gemv.PlainUnit | tools/gemv_shapes_bench.cpp:43-55 | the single sum over one nonzero activation is the product with the weight of that column and row, under their blocks' scales |
| Gemm.ABounds | bench/bench_gemm_fp16.cpp:86-90 | every A tile load is in bounds |
| Gemm.BBounds | bench/bench_gemm_fp16.cpp:80-83 | every B tile load is in bounds |
| Gemm.MadHolds | bench/bench_gemm_fp16.cpp:85-92 | one multiply-add advances a tile's dots by 16 of K |
| Gemm.StoreTile | bench/bench_gemm_fp16.cpp:95-101 | a store writes its tile's positions and no other |
| Gemm.OneTile | bench/bench_gemm_fp16.cpp:52-63 | the tiles cover C and each element lies in one |
| Gemm.Tiled | bench/bench_gemm_fp16.cpp:46-103 | for all accepted sizes every element of C is the row-by-column sum |
| Gemm.RefBlock | bench/bench_gemm_fp16.cpp:109-121 | the reference's block holds the same sums |
| Gemm.DotUnit | bench/bench_gemm_fp16.cpp:109-121 | a row of A with one nonzero element picks that element times its own row of B |
| MetricLog.Emit.S | tools/ie_ds4_bench.cpp:98-102 | the retained map gets the pair, the text its printed line, and both stay those of one log |
| MetricLog.Emit.Na | tools/ie_ds4_bench.cpp:113-116 | an unmeasured metric keeps its key as "unavailable" and a note line follows |
| MetricLog.ReadBaseline | tools/ie_ds4_bench.cpp:128-143 | the loop collects the metric lines, last write winning, and an empty result is an error |
| MetricLog.LineRoundTrip | tools/ie_ds4_bench.cpp:128-143 | a metric line reads back as its key and value iff the key holds no '=' |
| MetricLog.OddLines | tools/ie_ds4_bench.cpp:134-139 | a tagged line without an equals sign is no metric; a last line counts with or without its newline |
| MetricLog.LogRoundTrip | tools/ie_ds4_bench.cpp:96-143 | reading a log's text gives exactly the emitter's map, whatever notes and deltas lie between |
| MetricLog.Diff | tools/ie_ds4_bench.cpp:1248-1268 | compared counts the keys numeric in both, changed those of them not equal as numbers, missing the keys the baseline has not |
| MetricLog.ChangedExactly | tools/ie_ds4_bench.cpp:1253-1261 | two numbers count as changed exactly when they differ, a NaN always, a value that is no number never |
| MetricLog.SelfDiff | tools/ie_ds4_bench.cpp:1242-1271 | against its own log no key is missing, and the changed keys are exactly those whose value is NaN |
| SafeTensors.Collect | scripts/fetch_mtp_head.py:47-56 | the dictionary holds exactly the MTP tensors, the last of each name, and never the metadata entry |
| SafeTensors.BeforeExactly | scripts/fetch_mtp_head.py:64 | name order: after equal beginnings the string that ends or has the smaller character comes first |
| SafeTensors.ItemsAre | scripts/fetch_mtp_head.py:64 | the sorted items are the dictionary's entries, each once, in strict name order |
| SafeTensors.WriteFile | scripts/fetch_mtp_head.py:61-76 | the loops write the length, the padded header and the blobs of the sorted items, in name order |
| SafeTensors.EntriesFollow | scripts/fetch_mtp_head.py:62-66 | header entry i starts where the one before it ends, at 0 first, and is as long as its blob |
| SafeTensors.OffsetsTile | scripts/fetch_mtp_head.py:62-66 | every byte of the data area lies in some tensor's range |
| SafeTensors.OneRange | scripts/fetch_mtp_head.py:62-66 | no byte lies in two ranges |
| SafeTensors.HeaderAligned | scripts/fetch_mtp_head.py:67-69 | for every dictionary and codec the padded header's length is a multiple of 8 |
| SafeTensors.WidenedWord | scripts/mtp_to_gguf.py:46-48 | a widened word is its two little-endian bytes shifted up 16 bits |
| SafeTensors.WidenInjective | scripts/mtp_to_gguf.py:46-48 | widening from BF16 loses nothing |
| SafeTensors.Load | scripts/mtp_to_gguf.py:34-49 | the reader's loop computes the specified result, errors included |
| SafeTensors.LoadsExactly | scripts/mtp_to_gguf.py:40-49 | the entries load exactly when each but the metadata is BF16 and its bytes fill its shape |
| SafeTensors.ElementsProduct | scripts/mtp_to_gguf.py:49 | a shape's elements are the product of its dimensions |
| SafeTensors.FileRoundTrip | scripts/mtp_to_gguf.py:34-49 | every written dictionary reads back as the dictionary of its blobs widened, and the read fails exactly when a tensor is not BF16 or does not fill its shape; the JSON codec need only read back headers without repeated names |

## Left out

- The kernels behind a block: the model takes them as arbitrary functions of whole rows, so a row's result does not depend on how many rows share its launch; the different rounding of batched and single-row kernels is not modelled.
- The experts, the CPU partition and the streaming of weights inside a block: they change where a row is computed, not which.
- Blocks.LayerCommitHolds: rows past the capture's eight slots read as zero instead of as whatever lies behind the buffer; this matters only for windows the capture cannot hold.
- Pipedraft.PipedraftIsGreedy: model errors other than the forward's position and length checks are not modelled; any of them ends the program. A refused forward's copy into its hand-off buffer, which nothing reads, is still made.
- Speculative.SpecIsGreedy: the time, memory and profiling counters of the loop are not modelled.
- The text a token prints, argument parsing, environment switches and the choice of mode.
- `tools/hyv4_run.cpp`: an older copy of the same prefill and speculative loops.
- The request lanes, the prompt cache, the expert-cache ring and the supervisor: described in prose, with their code elsewhere.
- Lru.LruHitRate: a capacity below zero, which behaves like zero, is not modelled; no caller passes one.
- Pool.AnySchedule: packing an expert and writing or comparing it is one step, since packing reads only the shards.
- ExpertFile.WriterIsComplete: the free-space check and the confirmation flag before the output is opened are not modelled.
- ExpertFile.VerifierIsExact: the printed list of the first differing slots and the count per layer are not modelled.
- Divergence.Monitor: the kernel timings and the dashboard's rendering are not modelled.
- `tools/ie_bug_live.cpp` and `tools/ie_det_probe.cpp`: the same hash over two chains and over one run's steps would add only easier members.
- Half.F16f: which NaN a NaN widens to is not modelled.
- KQuant.ColDot: the single-precision rounding of each scale and product is not modelled; sums are over the reals.
- Gemv.MatVec: the order of a sub-group's reduction and the final rounding to half precision are not modelled.
- Gemm.Tiled: the fragment layout inside the matrix unit and its rounding are not modelled.
- MetricLog.LogRoundTrip: notes that themselves contain a newline are not modelled.
- `distribution`, the benchmark's prefill timing and the other metrics it computes: straight-line numerics.
- SafeTensors.WriteFile: the temporary file and its rename are not modelled.
- SafeTensors.FileRoundTrip: JSON itself is an arbitrary codec, and a header too long for its 8-byte length is excluded; the HTTP ranges the blobs come from, and the GGUF file written next, are not modelled.

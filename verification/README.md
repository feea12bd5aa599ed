# AgentSight: verified models of its stateful core

AgentSight observes coding agents from the outside: eBPF probes and their userspace
loaders print one JSON object per event, scripts rebuild conversations from them, and
a small controller manages organizations and nodes. These Dafny modules model the parts
whose correctness is not visible from one function body, and prove what each part is
for. The source's in-place tables, loops and buffers appear as classes, arrays and
loops; each is proved equal to a specification function, and the theorems about whole
runs are stated on those functions.

| file | models |
|---|---|
| `search.dfy` | the linear scan that the small tables share |
| `pid_table.dfy`, `pid_tracker.dfy` | the open-addressing PID tracker: what its operations mean, and the array they update |
| `rate_limit.dfy`, `file_dedup.dfy` | the per-second limiter and the sliding-window deduplication of file opens |
| `file_hash.dfy`, `dedup_memory.dfy` | the key of an open and what it tells apart; what the deduplication remembers and prints, key by key |
| `tracer_model.dfy`, `tracer_output.dfy`, `process_tracer.dfy` | the event loop that combines tracker, kernel PID set, limiter and deduplication: its runs, what it tracks and prints in every mode, and the code |
| `agg_map.dfy`, `agg_race.dfy` | the kernel aggregation map, its flushes and overflow report, without and with concurrent updates |
| `sse_timeline.dfy`, `sse_meaning.dfy` | merging server-sent-event chunks into the response that opened the stream, and what the result holds at each position |
| `jsonl.dfy`, `json_escape.dfy` | JSON escaping and UTF-8 validation, against RFC 8259 section 7 and RFC 3629 section 4 |
| `marker_search.dfy`, `process_tree.dfy` | chunked and signature search in binaries; the search for an attach target in the process tree |
| `rustls_copy.dfy` | gathering rustls plaintext from several user buffers into one event |
| `pid_cache.dfy` | the cache of process-match answers, on the tracker's probe order |
| `access.dfy`, `access_authority.dfy` | organizations, memberships, invites and nodes under interleaved database statements; who may change them, and what each operation does on its own |

Results worth knowing before reading the proofs:

- Hole-free probe paths, the usual invariant of linear probing, are not kept by deletion
  from a full table (`HoleFreePathsAreNotEnough`). The tracker is right because every
  reachable table has an insertion order that explains it; the walk that re-inserts the
  cluster keeps a relation to that order even when it wraps all the way round.
- The conservation law of the deduplication table holds exactly as long as no 32-bit
  counter wraps (`ConservationExact`, for the whole tracer `TracerConservesExact`). One
  does wrap after 2^32 opens of one file: handed to the table directly, past the limiter
  (`ManyOpensWrap`, `ManyOpensAreLost`), and in a run of the whole tracer, one a second
  (`TracerLosesOpens`). The limiter lets events through again after its own counter
  wraps (`DropLaw`, `WrapLetsThrough`).
- The kernel set and the userspace tracker agree throughout a run if and only if only
  positive PIDs are ever taken: by seeding (`SeedsKeepSync`) and by exec events
  (`RunKeepsSync`). The kernel sends no other exec PIDs, but a seed argument is checked
  before it is cut to 32 bits, so `--seed-pid 4294967296` seeds PID 0 and the two sides
  differ from the start (`WideSeedUnsyncs`; exactly which arguments do, `SeedArgSyncs`).
- A PID is tracked by descent if and only if an unbroken chain of execs, for each of which
  the table had room, leads to it (`TrackedIffChain`).
- An open is printed at once if and only if the tracer remembers no open of its key from
  the last 60 s (`PrintedAtOnce`). A key is remembered from an open that found room, as
  long as every later open, of whatever file, came within 60 s of it and its process has
  not exited (`RememberedIff`). One path in two processes never shares a key, nor do two
  paths of a process that differ in one byte (`PidsDiffer`, `PathsDiffer`); paths that
  differ in two can, exactly when `NeighboursCollideIff` says, and then one of the two files
  is not printed (`PathsCollide`, `SharedKeyHides`).
- A per-PID flush of more than 256 keys prints the surplus and keeps it, so it is counted
  again; all other operations of the aggregation map conserve counts (`RunAccounts`). A
  PID with 257 keys is enough (`ManyKeysCountTwice`).
- With concurrent updates nothing is counted twice but what a large PID flush prints and
  leaves, and what is lost is exactly the stale writes, to an entry already freed, or
  looked up by a flush and not yet deleted, and the late ones, which overflow between the
  report of the overflow counters and their clearing (`ExactLaw`, `ExactIff`). Losing runs
  of both kinds exist (`LosingRun`, `LateRun`); overlap of an update with a flush of its key
  need not lose anything (`HarmlessOverlap`).
- The header of `bpf/jsonl.h` promises that no escape can corrupt the stream. For
  `json_print_escaped` that is proved for all bytes. What `json_escape` leaves in its
  buffer is JSON if and only if the part of the source that fits is well-formed text
  without control characters other than newline and tab (`BufferIsJsonIff`); even for a
  source that is, truncation can cut a character in two (`CleanBufferIsJsonIff`,
  `TruncationMatters`). The model follows the code.
- A vectored rustls write is captured as a prefix, whatever it contains, if and only if
  its first buffer is within 128 KiB or nothing is taken after it (`CapturedPrefixIff`).
- In every interleaving, whatever is about to change members, invites, nodes or an
  organization goes back to a request whose author was an admin or owner of that
  organization at some earlier moment, for its deletion the owner (`RunAuthorized`); the
  role may have gone by the time the statement runs. Every membership row is what creation,
  an authorized request or the invite made it (`RowsAccounted`).
- An owner who accepts a viewer's invite to his own team stops being its owner
  (`OwnerBecomesViewer`); nothing else but deleting the organization ends an owner row
  (`OwnerRowsStay`).

`dafny verify dfyconfig.toml` checks the whole project.

## Model

| member | source | states |
|---|---|---|
| PidTable.ProbeIsModulo | bpf/process_filter.h:57 | The i-th probed slot is the home slot plus i, modulo the table size. |
| PidTable.FindHits | bpf/process_filter.h:50-70 | An entry whose probe path has no hole is found, in its own slot, from any earlier point of the probing. |
| PidTable.FindAgrees | bpf/process_filter.h:50-70 | Find succeeds exactly for the PIDs of the abstract map, with the ppid the map has. |
| PidTable.FreeIs | bpf/process_filter.h:85-96 | The slot that insertion takes is the first free one in probe order. |
| PidTable.AddAgrees | bpf/process_filter.h:73-99 | Add keeps the invariant, refuses exactly when the PID is absent and no slot is free, keeps the first ppid of a known PID and maps a new one to its ppid. |
| PidTable.AddCapped | bpf/process_filter.h:73-99 | The same in terms of the map alone: refused exactly when the PID is absent and the map holds as many PIDs as there are slots. |
| PidTable.AddHome | bpf/process_filter.h:80-96 | A free home slot, the PID modulo the table size, is the one taken. |
| PidTable.ReinsertMoves | bpf/process_filter.h:123-135 | Re-inserting an entry of the cluster puts it into the hole if its probe path crosses the hole, else back where it was. |
| PidTable.WalkMoves | bpf/process_filter.h:123-135 | Moving an entry into the hole keeps the walk's invariant with the hole where the entry was, also when the cluster is the whole table. |
| PidTable.WalkSteps | bpf/process_filter.h:123-135 | Each turn of the walk keeps its invariant and the table's contents. |
| PidTable.RehashRestores | bpf/process_filter.h:123-136 | From any point of the walk, running it to its end restores the table invariant and changes no contents. |
| PidTable.RemoveAgrees | bpf/process_filter.h:106-138 | Remove on any table with the invariant, full ones included, forgets that PID and nothing else, and keeps the invariant. |
| PidTable.VisitedAgrees | bpf/process_filter.h:212-220 | The visitor gets every tracked pair exactly once. |
| PidTable.Capacity | bpf/process_filter.h:85-98 | The map never holds more PIDs than there are slots, and fewer exactly when a slot is free. |
| PidTable.RunKeepsInv | bpf/process_filter.h:36-138 | Every sequence of init, add and remove keeps the invariant and computes the capped map. |
| PidTable.RunAnswersLikeMap | bpf/process_filter.h:36-145 | After every run, lookup, tracked test, add and iteration answer as a map capped at the table size would. |
| PidTable.HoleFreePathsAreNotEnough | bpf/process_filter.h:101-138 | A full table of four slots with hole-free probe paths where removing one PID makes another unfindable; no run of the operations builds it. |
| PidTracker.Tracker.constructor | bpf/process_filter.h:36-47 | A new tracker is valid and tracks nothing. |
| PidTracker.Tracker.Init | bpf/process_filter.h:36-47 | Initialising a tracker already in use empties it and sets its filters. |
| PidTracker.Tracker.Find | bpf/process_filter.h:50-70 | The probing loop finds exactly the tracked PIDs, with their ppid. |
| PidTracker.Tracker.Add | bpf/process_filter.h:73-99 | The in-place insertion acts on the tracked map as a capped insertion that keeps the first ppid. |
| PidTracker.Tracker.Remove | bpf/process_filter.h:106-138 | The in-place deletion takes exactly that PID out of the tracked map. |
| PidTracker.Tracker.RehashCluster | bpf/process_filter.h:123-136 | The bounded inner loop computes the cluster walk. |
| PidTracker.Tracker.IsTracked | bpf/process_filter.h:141-145 | True exactly for tracked PIDs. |
| PidTracker.Tracker.Foreach | bpf/process_filter.h:212-220 | Visits every tracked pair once. |
| PidTracker.Tracker.CommandMatches | bpf/process_filter.h:148-158 | True exactly when the command is one of the filters. |
| PidTracker.Tracker.ShouldTrack | bpf/process_filter.h:161-196 | Everything outside filter mode; in it, the target PID, children of tracked PIDs and matching commands. |
| PidTracker.Tracker.ShouldReportFileOps | bpf/process_filter.h:199-208 | Everything in mode ALL, else exactly the tracked PIDs. |
| PidTracker.Tracker.ShouldReportBashReadline | bpf/process_filter.h:223-232 | Everything outside filter mode, in it exactly the tracked PIDs. |
| RateLimit.SecondIs | bpf/process.c:404 | The second of a timestamp is the whole multiple of 10^9 ns it lies in. |
| RateLimit.CheckKeeps | bpf/process.c:403-445 | An open keeps slots unique per PID and at most 256, counts in its PID's slot, and leaves every other PID's slot as it is. |
| RateLimit.AtExitKeeps | bpf/process.c:762-771 | A reported exit removes the PID's slot exactly when a warning is pending, by swapping in the last, and leaves every other PID's slot. |
| RateLimit.SlotLaw | bpf/process.c:403-445 | In every run a slot's counter is the length (as a 32-bit number) of its PID's current streak of opens in one second, and the warning flag says exactly that the streak exceeded 30. |
| RateLimit.DropLaw | bpf/process.c:403-445 | An open is dropped exactly when its PID has or gets a slot and it is not among the first 30 of its second, up to the wrap of the counter; a later second's first open announces the excess exactly when there was one. |
| RateLimit.ExitLaw | bpf/process.c:762-771 | An exit announces a pending warning, and frees the slot, exactly when the last streak exceeded 30. |
| RateLimit.WrapLetsThrough | bpf/process.c:436-442 | After n opens of one PID at one time the next is dropped exactly when (n + 1) mod 2^32 exceeds 30: the counter's wrap lets another 30 through. |
| RateLimit.Limiter.CountOpen | bpf/process.c:426-444 | Counting in place is the specified update of the slot, and announces a pending warning when the second changes. |
| RateLimit.Limiter.ShouldRateLimit | bpf/process.c:403-445 | The in-place code computes the specified verdict and table. |
| RateLimit.Limiter.TakeWarning | bpf/process.c:762-771 | The exit loop with swap-removal computes the specified table and answer. |
| FileDedup.SweptSplits | bpf/process.c:515-549 | The swap-with-last loop removes exactly the expired (or exiting) entries: kept and removed together are the old table as a multiset. |
| FileDedup.SweptExtra | bpf/process.c:622-632 | A sweep takes the dead entries' extra opens of a key out of the table and nothing else. |
| FileDedup.RunOk | bpf/process.c:552-580 | In every run keys are distinct and there are at most 1024 entries. |
| FileDedup.OpenBalance | bpf/process.c:492-587 | One open adds exactly one to what is reported or held for its key, except that a wrapping counter loses 2^32. |
| FileDedup.ExitBalance | bpf/process.c:590-638 | A process exit changes nothing in what is reported or held for any key: its entries' extra opens move into the report. |
| FileDedup.Conservation | bpf/process.c:492-638 | If no counter wraps, opens = immediate reports + sum of (count - 1) over aggregate reports + sum of (count - 1) over live entries, for every key, and live counts are at least 1. |
| FileDedup.ConservationExact | bpf/process.c:552-561 | A run is balanced throughout for all keys if and only if no 32-bit counter wraps. |
| FileDedup.ManyOpensWrap | bpf/process.c:552-561 | Of opens handed straight to the table, past the limiter, n of one key at one time wrap its counter if and only if n is at least 2^32. |
| FileDedup.ManyOpensAreLost | bpf/process.c:552-561 | After 2^32 of them, past the limiter, the balance of the key fails. |
| FileDedup.Dedup.ExpireOld | bpf/process.c:514-549 | The in-place clean-up loop leaves the swept table and reports each removed entry with count above 1, in order. |
| FileDedup.Dedup.Remember | bpf/process.c:551-586 | A known key is counted and not reported; a new one is reported, and remembered while there is room. |
| FileDedup.Dedup.OpenCount | bpf/process.c:492-587 | Clean-up and counting together are the specified step on table and output. |
| FileDedup.Dedup.FlushPid | bpf/process.c:590-638 | The report loop and the removal loop together are the specified exit step. |
| FileHash.KeyOfNothing | bpf/process.c:480-481 | With an empty path the key is (5381 * 33 + pid) mod 2^64. |
| FileHash.KeyOfMore | bpf/process.c:484-487 | Every further character maps the key h to (33 h + the signed character) mod 2^64. |
| FileHash.PidsDiffer | bpf/process.c:477-489 | One path under two different 32-bit PIDs never shares a key. |
| FileHash.PathsDiffer | bpf/process.c:477-489 | Two paths of one PID that differ in exactly one byte never share a key. |
| FileHash.NeighboursCollideIff | bpf/process.c:477-489 | Two paths of one PID that differ only in two adjacent characters share a key if and only if 33 times the first difference makes up for the second. |
| FileHash.PathsCollide | bpf/process.c:477-489 | So different files can share a key: any path with "ab" in it and the one with "bA" there. |
| DedupMemory.RecentIs | bpf/process.c:516 | For timestamps in order the window is a difference of at most 60 s; a timestamp ahead of now counts as long past. |
| DedupMemory.WindowKeeps | bpf/process.c:514-549 | An open keeps exactly the entries of the last 60 s, whatever their count. |
| DedupMemory.ExitKeeps | bpf/process.c:622-632 | An exit keeps exactly the entries of other PIDs. |
| DedupMemory.OpenPrints | bpf/process.c:517-542 | An open prints the aggregate of exactly the entries it drops that count two opens or more, once each. |
| DedupMemory.OpenOrder | bpf/process.c:514-587 | These lines come first and say that the window expired; the line of the open itself, if any, is last. |
| DedupMemory.ExitPrints | bpf/process.c:594-621 | An exit prints the aggregate of exactly the entries of the PID that count two opens or more, once each. |
| DedupMemory.TableShowsMemory | bpf/process.c:492-638 | In every run the table holds of each key exactly what the events before leave of it: count, time of the last open, and the file of the first. |
| DedupMemory.PrintedAtOnce | bpf/process.c:551-586 | In every run an open is printed at once if and only if nothing of its key is remembered from the last 60 s. |
| DedupMemory.RememberedIff | bpf/process.c:492-638 | A key is remembered if and only if its last open left something, every open since came within 60 s of it and its PID has not exited. |
| DedupMemory.LeavesSomething | bpf/process.c:564-580 | An open leaves something unless its key is new and 1024 other keys are remembered. |
| DedupMemory.SharedKeyHides | bpf/process.c:551-562 | Right after a remembered open, an open of any other file with its key within 60 s is not printed. |
| TracerModel.AddKeepsSync | bpf/process.c:345-352 | Adding a PID on both sides keeps tracker and kernel set equal exactly unless the tracker takes a new non-positive PID. |
| TracerModel.SeedsKeepSync | bpf/process.c:720-740 | After seeding both sides hold the same positive PIDs if and only if every seed taken into the table is positive, even if the table filled up. |
| TracerModel.StepKeepsSync | bpf/process.c:742-805 | An event keeps both sides equal if and only if it is not an accepted exec of a new non-positive PID. |
| TracerModel.SeedArgSyncs | bpf/process.c:158-183 | A seed argument that passes the range check keeps both sides in step if and only if its PID is positive after the cut to 32 bits. |
| TracerModel.WideSeedUnsyncs | bpf/process.c:158-183 | The arguments 4294967296 and 3000000000 pass the check and leave both sides different before any event. |
| TracerModel.RunKeepsSync | bpf/process.c:720-805 | Kernel set and tracker hold the same positive PIDs after seeding and after every event of a run if and only if neither seeding nor an exec event made the tracker take a non-positive PID. |
| TracerModel.PositivePidsSync | bpf/process.c:720-805 | In particular in every run whose seeds and execs name positive PIDs, even when the table is full. |
| TracerModel.StepTracks | bpf/process.c:742-805 | In filter mode without session, a PID is tracked after an event exactly if it was and did not exit, or it was just started, wanted itself or by its parent, and there was room. |
| TracerModel.TrackedHasChain | bpf/process_filter.h:176-195 | Every tracked PID has a chain of earlier execs back to a seed, the target PID or a command match, for each of which there was room, no process on it having exited before it was needed. |
| TracerModel.ChainTracked | bpf/process_filter.h:176-195 | Conversely, every PID with such a chain is tracked. |
| TracerModel.TrackedIffChain | bpf/process_filter.h:161-196 | In filter mode without session a PID is tracked if and only if it has such a chain, in every run, full tables included. |
| TracerModel.TrackedDescends | bpf/process_filter.h:161-196 | Without reference to the table: whatever is tracked descends from a seed, the target or a command match by execs, and in runs that never met a full table whatever so descends is tracked. |
| TracerModel.LimiterRuns | bpf/process.c:816-834 | In every run of the tracer the limiter's table is that of the reportable opens and reported exits. |
| TracerModel.DedupRuns | bpf/process.c:816-838 | In every run the dedup table and the printed file lines are those of the opens that passed the limiter and the reported exits. |
| TracerModel.TracerConserves | bpf/process.c:783-838 | If no 32-bit counter wraps in a run of the whole tracer, every open of a key that passed the limiter was printed at once, is in a printed aggregate, or is in a live entry. |
| TracerModel.TracerConservesExact | bpf/process.c:783-838 | That holds throughout a run, for every key, if and only if no 32-bit counter wraps in it. |
| TracerModel.TracerLosesOpens | bpf/process.c:492-561 | In mode ALL, k opens of one file a second apart all pass the limiter, and are conserved throughout if and only if k is below 2^32, for every k up to 2^32. |
| TracerModel.TracerLimits | bpf/process.c:403-445 | The limiter's promise, for the next open of any run of the whole tracer. |
| TracerOutput.TakenIs | bpf/process.c:326-343 | An exec is taken by the session alone if there is one, else outside filter mode, as target, by its parent or by its command; in mode PROC always. |
| TracerOutput.SeedTracks | bpf/process.c:720-740 | A seed is tracked with its parent if it is new and there is room, and enters the kernel set if positive too; else nothing changes. |
| TracerOutput.StepTracksAll | bpf/process.c:742-805 | What every event does to the tracked map, in every mode, with and without session. |
| TracerOutput.TrackedIffStarted | bpf/process.c:720-805 | In every run outside the selection by process tree a PID is tracked if and only if it is a seed that had room, or was started by an exec that was taken and had room, and has not exited since. |
| TracerOutput.ExecPrints | bpf/process.c:784-804 | An exec line is printed exactly for execs taken, and for all outside filter mode. |
| TracerOutput.ExitPrints | bpf/process.c:747-782 | An exit of a tracked PID, or any outside filter mode, prints its line, the warning exactly when one is pending, the aggregates of its opens and the flush of its summaries, in that order; any other prints nothing. |
| TracerOutput.ReadlinePrints | bpf/process.c:807-814 | A readline is printed exactly outside filter mode or for a tracked PID, and changes nothing. |
| TracerOutput.FilePrints | bpf/process.c:816-840 | An open that may be reported and passes the limiter prints the lines of the dedup table, only the last of which can carry the warning; anything else prints nothing. |
| ProcessTracer.Tracing.constructor | bpf/process.c:56-60 | The initial state is that of a run with no seeds. |
| ProcessTracer.Tracing.AddToKernel | bpf/process.c:345-352 | The set gains exactly the PID, and only if it is positive and the map has room; it never outgrows the map. |
| ProcessTracer.Tracing.RemoveFromKernel | bpf/process.c:354-360 | The set loses exactly the PID, if it is positive. |
| ProcessTracer.Tracing.SeedOne | bpf/process.c:724-733 | One seed is the specified step; it reports whether the PID is newly tracked. |
| ProcessTracer.Tracing.SeedInitialPids | bpf/process.c:720-740 | The seeding loop computes the seeded state and returns how many PIDs are tracked. |
| ProcessTracer.Tracing.ShouldTrackEvent | bpf/process.c:326-343 | With a session id the session decides alone, otherwise the filters. |
| ProcessTracer.Tracing.HandleExec | bpf/process.c:787-804 | The exec branch is the specified step on state and output. |
| ProcessTracer.Tracing.HandleExit | bpf/process.c:749-786 | The exit branch is the specified step on state and output. |
| ProcessTracer.Tracing.HashFileOpen | bpf/process.c:477-489 | The loop computes the 64-bit key of PID and path, chars signed. |
| ProcessTracer.Tracing.HandleFileOp | bpf/process.c:816-838 | The file branch is the specified step on state and output. |
| ProcessTracer.Tracing.HandleEvent | bpf/process.c:742-852 | Every event is the specified step on state and output. |
| ProcessTracer.Trace | bpf/process.c:720-852 | Starting, seeding and handling any event sequence ends in the state and output about which the run theorems speak. |
| AggMap.ApplyCounts | bpf/process_ext/bpf_common.h:36-61 | One update keeps the map's shape and counts once: in its key's entry, or as overflow exactly when the key is new and the map full. |
| AggMap.ApplyStores | bpf/process_ext/bpf_common.h:36-61 | Its key gains one hit and the bytes with the first timestamp kept; every other key is as before. |
| AggMap.FlushFromClear | bpf/process_ext/map_flush.h:118-124 | From a point with nothing to print before it, the walk that deletes its own cursor prints every positive entry once, in order, and leaves the others. |
| AggMap.FlushAllExact | bpf/process_ext/map_flush.h:113-126 | On any map the walk drains all positive entries or none: none exactly when the zero key is present with something to print before it and nothing beyond it. |
| AggMap.FlushAllDrains | bpf/process_ext/map_flush.h:113-126 | On every map the updates can build a flush prints each entry once and leaves the map empty. |
| AggMap.FlushPidExact | bpf/process_ext/map_flush.h:128-149 | A PID flush prints every entry of the PID once and removes exactly the first 256 printed; with at most 256, every entry of the PID. |
| AggMap.FlushPidConserves | bpf/process_ext/map_flush.h:140-147 | Its counts move from map to output if and only if the PID has at most 256 keys; otherwise some are counted again. |
| AggMap.StepAccounts | bpf/process_ext/map_flush.h:113-181 | One operation changes the grand total by exactly the update it makes, except an oversized PID flush. |
| AggMap.RunAccounts | bpf/process_ext/map_flush.h:113-181 | Over any sequential run no update is lost: updates = printed + live + pending overflow + reported overflow, if and only if every PID flush met at most 256 keys. |
| AggMap.ManyKeysCountTwice | bpf/process_ext/map_flush.h:128-149 | n updates of n distinct keys of a PID, then its flush: counted once each if and only if n is at most 256, and more than once in total beyond. |
| AggMap.KernelMap.constructor | bpf/process_ext/bpf_state.h:8-13 | The map starts empty with all overflow counters zero. |
| AggMap.KernelMap.UpdateAggMap | bpf/process_ext/bpf_common.h:36-61 | The in-place update is the specified one on entries and this CPU's overflow counter. |
| AggMap.KernelMap.FlushAggMap | bpf/process_ext/map_flush.h:113-126 | The cursor loop terminates, and on a valid map prints everything and empties it. |
| AggMap.KernelMap.FlushPidFromAggMap | bpf/process_ext/map_flush.h:128-149 | Walk and deletion together are the specified PID flush. |
| AggMap.KernelMap.CollectPid | bpf/process_ext/map_flush.h:135-144 | The walk prints the PID's entries and notes their first 256 keys. |
| AggMap.KernelMap.DeleteCollected | bpf/process_ext/map_flush.h:146-147 | The loop deletes the noted keys. |
| AggMap.KernelMap.CheckOverflow | bpf/process_ext/map_flush.h:152-181 | Returns the sum over all CPUs and resets the counters exactly when it is positive. |
| AggRace.NextBalanced | bpf/process_ext/bpf_common.h:36-61 | Every interleaved step keeps: printed + live + overflow + reported + lost + cleared = updates + the counts printed but not yet deleted + the overflow reported but not yet cleared + what was printed of keys that stay. |
| AggRace.LookUpFinds | bpf/process_ext/bpf_common.h:38 | The lookup of an update finds the element of its key if and only if there is one. |
| AggRace.MissedWrites | bpf/process_ext/bpf_common.h:45-60 | After a miss the key is inserted with count 1, and the overflow counter bumped exactly when the key has come meanwhile or the map is full. |
| AggRace.HeldWrites | bpf/process_ext/bpf_common.h:39-44 | Through a held pointer one is added to whatever lives there now, and lost when nothing does. |
| AggRace.RunWithinCap | bpf/process_ext/bpf_common.h:53 | In every interleaving the map holds no more keys than it has room for. |
| AggRace.RunBalanced | bpf/process_ext/map_flush.h:113-181 | That balance holds in every interleaving of updates with flushes, PID flushes and overflow reports, with keys and addresses distinct and every key looked up by a flush still live. |
| AggRace.NeverOvercounts | bpf/process_ext/map_flush.h:113-181 | Whatever interleaves, printed + live + overflow + reported never exceed the updates, apart from what a large PID flush prints of keys that stay; a key between its print and its delete, and an overflow between report and clearing, count once. |
| AggRace.NextCoherent | bpf/process_ext/bpf_common.h:38-45 | Without overlap, a step keeps every pointer held by a CPU on the live element of its key. |
| AggRace.StaleWritesAreLost | bpf/process_ext/bpf_common.h:38-45 | In every interleaving, what is lost, or will be when the flush deletes the keys it has looked up, is exactly the number of stale writes: to a freed entry, or to one being flushed. |
| AggRace.LateWritesAreCleared | bpf/process_ext/map_flush.h:163-177 | In every interleaving, what is cleared unread, or will be, is exactly the number of writes that overflow between the report of the counters and their clearing. |
| AggRace.ExactLaw | bpf/process_ext/map_flush.h:113-181 | In every interleaving, while userspace is in no flush and no report: printed + live + overflow + reported + stale writes + late writes = updates + what was printed of keys that stayed; in the middle of one, the same up to the keys and the report in hand. |
| AggRace.NothingRecounted | bpf/process_ext/map_flush.h:140-144 | Runs whose flushes have fewer than 256 keys in hand print nothing that stays. |
| AggRace.ExactIff | bpf/process_ext/map_flush.h:113-181 | In such runs, while userspace is quiet, the counts are exact if and only if no write was stale or late. |
| AggRace.ExactWithoutOverlap | bpf/process_ext/map_flush.h:118-124 | If no update's lookup-to-write overlaps a flush's lookup-to-delete of its key, no write is stale; the counts then differ from the updates only by late writes and the surplus of large flushes, and are exactly equal without those. |
| AggRace.OverlapLoses | bpf/process_ext/map_flush.h:119-122 | In every run that has printed a key and not yet deleted it, an update of that key that completes before the delete is stale, and the delete loses it. |
| AggRace.LosingRun | bpf/process_ext/map_flush.h:119-122 | Such a run exists: two updates of one key from the start, of which one is counted nowhere. |
| AggRace.LateRun | bpf/process_ext/map_flush.h:163-177 | A run from the start in which one of three updates overflows between report and clearing and is counted nowhere. |
| AggRace.HarmlessOverlap | bpf/process_ext/bpf_common.h:53-59 | A run from the start in which an update overlaps the flush of its key and nothing is lost: the late insertion counts as overflow. |
| SseTimeline.RunIsLongest | script/ssl_log_analyzer.py:255-302 | The entries of the run are chunks with the response's tid, each at most 5 s after the entry before it, and the entry after the run is not. |
| SseMeaning.TextsAt | script/ssl_log_analyzer.py:270-284 | The texts of a chunk are exactly the non-empty ones of its text and thinking deltas, in order. |
| SseMeaning.ChunkTextsNext | script/ssl_log_analyzer.py:270-284 | The texts of several chunks follow one another. |
| SseMeaning.JoinNext | script/ssl_log_analyzer.py:381 | Text parts are concatenated with nothing between. |
| SseMeaning.GroupSize | script/ssl_log_analyzer.py:222-254 | The timeline has one entry for every request and response. |
| SseMeaning.GroupAt | script/ssl_log_analyzer.py:207-318 | Each request and response has its place in the timeline in order; an event stream there holds exactly the chunks right after it that follow one another, the time of the last, and their texts after its own, or its own body if there is none; any other entry is unchanged. |
| SseTimeline.StepKeeps | script/ssl_log_analyzer.py:218-301 | Every entry keeps: only the last timeline entry can be open, and every other event-stream response was finalized exactly once. |
| SseTimeline.LoopKeepsInv | script/ssl_log_analyzer.py:218-301 | That holds after any number of entries. |
| SseTimeline.LoopKeepsOrder | script/ssl_log_analyzer.py:289-290 | Although merging moves a response's timestamp in place, the timeline stays sorted after every entry. |
| SseTimeline.FinalPassIdle | script/ssl_log_analyzer.py:303-313 | The final pass finds nothing open; each event-stream response was finalized exactly once. |
| SseTimeline.OpenGroups | script/ssl_log_analyzer.py:255-306 | An open response ends up with the rest of its longest run, and the entries after it are grouped on their own. |
| SseTimeline.ClosedGroups | script/ssl_log_analyzer.py:218-306 | With nothing open, the loop appends the grouping of the remaining entries. |
| SseTimeline.TimelineIsGroup | script/ssl_log_analyzer.py:207-318 | The loop with its final pass equals the declarative grouping: each response with its longest run, body the initial texts followed by the run's, or the original body when that is empty. |
| SseTimeline.SortSorts | script/ssl_log_analyzer.py:210 | Sorting orders by timestamp and is a permutation. |
| SseTimeline.SortIsStable | script/ssl_log_analyzer.py:210 | Entries with equal timestamps keep their order. |
| SseTimeline.AnalyzerTimeline | script/ssl_log_analyzer.py:207-318 | For any collected entries the result is the grouping of the sorted ones, and is sorted. |
| SseTimeline.Entry.FinalizeSse | script/ssl_log_analyzer.py:378-404 | A non-empty merged text becomes the body; the text parts are dropped; no other field changes; it counts as a finalization only while there are parts. |
| SseTimeline.ExtractTexts | script/ssl_log_analyzer.py:272-284 | Exactly the non-empty text and thinking deltas, in order. |
| SseTimeline.FinalizeCurrent | script/ssl_log_analyzer.py:225-228 | Closes the open response in place, if there is one. |
| SseTimeline.ProcessChunk | script/ssl_log_analyzer.py:255-301 | Merges a chunk into the open response in place, or closes it. |
| SseTimeline.Append | script/ssl_log_analyzer.py:223-253 | With nothing open, a request or response joins the timeline, an event stream opened with its initial texts. |
| SseTimeline.Process | script/ssl_log_analyzer.py:218-301 | One turn of the loop on the shared objects is the specified step. |
| SseTimeline.MergeLoop | script/ssl_log_analyzer.py:218-301 | The loop on the shared objects computes the fold. |
| SseTimeline.FinalizeRemaining | script/ssl_log_analyzer.py:308-313 | The final pass finalizes, and counts, exactly what is open. |
| SseTimeline.GroupByTimeline | script/ssl_log_analyzer.py:207-318 | On the sorted objects the method yields the declarative grouping, each event-stream response in it has been finalized exactly once and nothing else ever, and the final pass counts zero. |
| Jsonl.ValidateUtf8Char | bpf/jsonl.h:24-83 | Returns the length of the well-formed RFC 3629 character at the start, else 0, assuming of mbrtowc only that it rejects bad continuation bytes and accepts well-formed characters. |
| Jsonl.TwoBytes | bpf/jsonl.h:58-62 | The overlong check of two-byte forms is exactly RFC 3629's lead-byte range. |
| Jsonl.ThreeBytes | bpf/jsonl.h:63-71 | The overlong and surrogate checks are exactly RFC 3629's ranges for the second byte. |
| Jsonl.FourBytes | bpf/jsonl.h:72-80 | The range check is exactly RFC 3629's four-byte forms. |
| Jsonl.PrintOne | bpf/jsonl.h:94-126 | One turn prints the specified token and advances past what it stands for, never beyond the end. |
| Jsonl.JsonPrintEscaped | bpf/jsonl.h:90-127 | The loop prints the escape of the whole buffer. |
| Jsonl.ShortEscapes | bpf/jsonl.h:97-111 | The seven short escapes, by their codes. |
| Jsonl.TokenIs | bpf/jsonl.h:112-125 | Any other printable ASCII byte and every well-formed character is copied; any other byte becomes the four-digit escape of its value. |
| Jsonl.EscapeIsSame | bpf/jsonl.h:90-127 | The output equals the input if and only if that is well-formed UTF-8 of printable ASCII other than quote and backslash, and multi-byte characters. |
| Jsonl.TokenReads | bpf/jsonl.h:97-125 | Each token reads back as the bytes it stands for, whatever follows. |
| Jsonl.ByteRoundTrip | bpf/jsonl.h:90-127 | A reader that maps every escape and raw byte back recovers every byte sequence exactly. |
| Jsonl.EscapeIsJson | bpf/jsonl.h:85-127 | For every input the output is a JSON string body (RFC 8259 section 7). |
| Jsonl.JsonIsUtf8 | bpf/jsonl.h:85-127 | Such a body is well-formed UTF-8. |
| Jsonl.JsonRoundTripExact | bpf/jsonl.h:85-127 | A standard JSON reader gets the input back if and only if it was valid UTF-8. |
| JsonEscape.Escape | bpf/jsonl.h:142-156 | Fills the buffer within bounds with the terminated escape of the prefix that fits; the result is a JSON string body if and only if that prefix is clean: well-formed UTF-8 without control characters other than newline and tab. |
| JsonEscape.MinNext | bpf/jsonl.h:147-153 | Byte by byte: quote, backslash, newline and tab are escaped, every other byte is copied. |
| JsonEscape.FitsIff | bpf/jsonl.h:146 | The whole source is escaped exactly when what precedes its last character leaves room for two bytes and the terminator. |
| JsonEscape.MinRoundTrip | bpf/jsonl.h:147-153 | Reading the escapes back recovers the source, so the buffer never ends inside an escape. |
| JsonEscape.MinEscapeIsJsonIff | bpf/jsonl.h:147-153 | The escape of a whole string, without a size limit, is a JSON string body if and only if the string is clean. |
| JsonEscape.BufferIsJsonIff | bpf/jsonl.h:137-156 | What the buffer of a given size holds is a JSON string body if and only if the part of the source that fits is clean. |
| JsonEscape.CleanBufferIsJsonIff | bpf/jsonl.h:137-156 | For a clean source: if and only if the scan stops at the end of a character, in particular whenever everything fits. |
| JsonEscape.TruncationMatters | bpf/jsonl.h:146-155 | With four bytes of room a clean source leaves broken JSON, cut inside a character, and a source with a control character leaves sound JSON. |
| MarkerSearch.Memchr | bpf/codex_offsets.h:84-85 | The first index in the range holding the byte, or none. |
| MarkerSearch.FindPattern | bpf/codex_offsets.h:78-94 | The first occurrence of the pattern, or none exactly when it does not occur. |
| MarkerSearch.OccursByByte | bpf/codex_offsets.h:78-94 | An occurrence is one byte by byte. |
| MarkerSearch.CarryMissesNothing | bpf/codex_offsets.h:246-256 | A needle occurs in prefix + chunk if and only if it occurs in the prefix or in carry + chunk, for any carry at most one byte shorter than the needle. |
| MarkerSearch.CarryMissesNone | agentsight-capture/src/binary_resolver.rs:224-233 | The same for a set of needles. |
| MarkerSearch.ScanChunk | bpf/codex_offsets.h:246-256 | One turn of the loop finds what the chunk adds to what was found before and leaves the last 32 bytes of everything read at the front. |
| MarkerSearch.BinaryHasRustlsMarkers | bpf/codex_offsets.h:224-260 | For every file and every split into reads the chunked search with a 32-byte carry equals the search of the whole file. |
| MarkerSearch.KeepLength | agentsight-capture/src/binary_resolver.rs:212-217 | The carry is one less than the longest needle. |
| MarkerSearch.WindowsContain | agentsight-capture/src/binary_resolver.rs:225-228 | True exactly when some needle occurs. |
| MarkerSearch.BinaryEmbedsSsl | agentsight-capture/src/binary_resolver.rs:197-236 | For every file and every split into reads the search equals that of the whole file. |
| MarkerSearch.Offsets.constructor | bpf/codex_offsets.h:116 | The list starts empty. |
| MarkerSearch.Offsets.Add | bpf/codex_offsets.h:96-106 | Appends unless 64 offsets are held. |
| MarkerSearch.SkipTo | bpf/codex_offsets.h:130-147 | Jumping to the next occurrence skips no hit. |
| MarkerSearch.HitIs | bpf/codex_offsets.h:118-147 | A plain hit is an occurrence of its prologue; a vectored one must also have the two further signatures 19 and 28 bytes behind it. |
| MarkerSearch.Offsets.Collect | bpf/codex_offsets.h:130-160 | One search loop appends all hits in order, up to 64 in total. |
| MarkerSearch.HitsExact | bpf/codex_offsets.h:130-160 | The hits are exactly the confirmed occurrences, each once, ascending. |
| MarkerSearch.FindRustlsOffsets | bpf/codex_offsets.h:108-165 | The first 64 of the confirmed vectored hits followed by the plain ones; success exactly when there is any. |
| ProcessTree.Frontier | agentsight-capture/src/binary_resolver.rs:736-761 | Whatever lies at a depth is seen by then, or queued, or something shallower still waits. |
| ProcessTree.NothingAbove | agentsight-capture/src/binary_resolver.rs:736-761 | Nothing shallower than the head of the queue has a target. |
| ProcessTree.ExpandKeeps | agentsight-capture/src/binary_resolver.rs:750-758 | Queueing a process's children keeps the search invariant, for any child relation. |
| ProcessTree.DropKeeps | agentsight-capture/src/binary_resolver.rs:740-742 | Skipping a process seen before keeps it. |
| ProcessTree.FindSslTargetInTree | agentsight-capture/src/binary_resolver.rs:736-761 | Terminates on any finite, possibly cyclic child relation; finds a target exactly when a descendant has one, and one of minimal depth. |
| RustlsCopy.CopyRustlsIovec | bpf/sslsniff.bpf.c:110-138 | Appends the readable bytes up to 64 KiB in total; every write is in bounds despite masking and clamping. |
| RustlsCopy.GatherChunks | bpf/sslsniff.bpf.c:264-279 | The first 64 KiB of the inspected chunks, or nothing when they exceed the declared total. |
| RustlsCopy.GatheredConcat | bpf/sslsniff.bpf.c:264-279 | What is gathered, and its length, go chunk by chunk in the order they are listed. |
| RustlsCopy.GatheredLength | bpf/sslsniff.bpf.c:277-278 | With readable chunks nothing is missing: as many bytes as inspected; never more. |
| RustlsCopy.ProbeBufferPlaintext | bpf/sslsniff.bpf.c:217-286 | Exactly when an event is submitted, and that it carries the first 64 KiB of the inspected chunks and no more than the declared total. |
| RustlsCopy.CopyInChunks | bpf/sslsniff.bpf.c:190-208 | The first 128 KiB of one readable iovec are appended, in bounds. |
| RustlsCopy.Seen | bpf/sslsniff.bpf.c:181-189 | The iovecs looked at are the first two, up to one whose descriptor cannot be read. |
| RustlsCopy.ProbeWriteVectored | bpf/sslsniff.bpf.c:162-215 | The event carries up to 128 KiB of each of the first two iovecs and is marked longer than its data when there were more. |
| RustlsCopy.CapturedIsPrefix | bpf/sslsniff.bpf.c:181-209 | With readable memory the capture is a prefix of what is written if the first iovec is within 128 KiB or nothing follows it. |
| RustlsCopy.CapturedSkips | bpf/sslsniff.bpf.c:194-208 | Otherwise the byte after the first 128 KiB captured is the second iovec's first, where the written data goes on with the first iovec. |
| RustlsCopy.CapturedPrefixIff | bpf/sslsniff.bpf.c:181-209 | For buffers of given lengths, the capture is a prefix of what is written whatever they contain, if and only if the first is within 128 KiB or nothing is taken after it. |
| PidCache.StoreWhere | bpf/browsertrace.c:550-569 | No entry of the PID lies anywhere but in the slot that a store picks. |
| PidCache.StoreKeeps | bpf/browsertrace.c:550-569 | Storing keeps PIDs unique and probe paths hole-free, also when a full table overwrites a home slot. |
| PidCache.StoreAgrees | bpf/browsertrace.c:550-569 | After a store its PID has the new answer and every other the old one, except that a full table forgets the PID in the home slot. |
| PidCache.RoomIff | bpf/browsertrace.c:555-564 | No room is found exactly when all slots hold other PIDs. |
| PidCache.RunRemembers | bpf/browsertrace.c:531-600 | In every run an answer given was read earlier for the same PID, and the last PID asked about is remembered. |
| PidCache.CachingIsInvisible | bpf/browsertrace.c:571-600 | If a PID's executable does not change, every query gets the answer that reading it afresh would give. |
| PidCache.Cache.constructor | bpf/browsertrace.c:507-511 | The cleared cache is valid. |
| PidCache.Cache.LookupPid | bpf/browsertrace.c:531-548 | The probing loop computes the lookup. |
| PidCache.Cache.StorePid | bpf/browsertrace.c:550-569 | The in-place store computes the specified one. |
| PidCache.Cache.TargetProcessMatches | bpf/browsertrace.c:571-600 | Answers from the cache, or reads and stores. |
| Access.ExecMakesNoOwner | controller/src/access.ts:235-309 | No statement makes an owner row other than a new one, in a personal organization or in a team just created. |
| Access.RunOk | controller/src/access.ts:235-565 | In every interleaving memberships belong to existing organizations, personal organizations have only owners, invites never make owners, direct configs belong to existing nodes, and no pending member update or removal faces an owner. |
| Access.NobodyBecomesOwner | controller/src/access.ts:486-565 | No step of any interleaving turns an existing membership into an owner's. |
| Access.WritesMeetNoOwner | controller/src/access.ts:530-565 | The unguarded UPDATE and DELETE never hit an owner row, whatever happened since their check. |
| Access.OwnerRowsStay | controller/src/access.ts:522-526 | An owner row survives a statement if and only if it is neither an accepted invite's write for that very member nor the deletion of its organization. |
| Access.OwnerBecomesViewer | controller/src/access.ts:522-526 | Ten steps from an empty database in which a team's owner invites his own email as viewer, accepts, and leaves the team without an owner. |
| Access.ExecTally | controller/src/access.ts:514-526 | A statement consumes only an unspent invite, and writes only for one consumed before, with its organization and role. |
| Access.RunTally | controller/src/access.ts:486-528 | Per invite: consumptions at most one, writes done and pending at most consumptions, in every interleaving. |
| Access.InviteUsedOnce | controller/src/access.ts:461-528 | Under any interleaving an invite is consumed at most once and leads to at most one membership write: in its organization, with its role, never owner, and for a user who asked to accept it in time, signed in with the email it was sent to. |
| AccessAuthority.NoteIsRow | controller/src/access.ts:522-526 | Accepting an invite writes the role of the invite into the row of the accepting user, and no other row. |
| AccessAuthority.WrittenRows | controller/src/access.ts:522-526 | The same for every step of every interleaving. |
| AccessAuthority.RowsAccounted | controller/src/access.ts:235-565 | In every interleaving a membership row that appears or changes is the owner row of a creation, the role an authorized update asked for, or that of the invite accepted; one that disappears was removed on an authorized request or with its organization. |
| AccessAuthority.RunAuthorized | controller/src/access.ts:311-321 | In every interleaving a call about to insert an invite, to look at or write a membership, to register or delete a node goes back to a request whose author was an admin or owner of that organization; to delete an organization, its owner. |
| AccessAuthority.InviteAlone | controller/src/access.ts:461-484 | Without interference: an admin or owner of a team creates the invite as asked, with a role other than owner; else nothing changes. |
| AccessAuthority.AcceptAlone | controller/src/access.ts:486-528 | Consumes the invite and writes its role for the user if it is unspent, in time, for his email and for an existing team; else nothing changes. |
| AccessAuthority.UpdateAlone | controller/src/access.ts:530-548 | An admin or owner gives a member who is no owner any role but owner; else nothing changes. |
| AccessAuthority.RemoveAlone | controller/src/access.ts:550-565 | An admin or owner removes a member who is no owner; else nothing changes. |
| AccessAuthority.RegisterAlone | controller/src/access.ts:367-417 | An admin or owner registers a node that is new or of the organization already, with the direct config given; else nothing changes. |
| AccessAuthority.DeleteNodeAlone | controller/src/access.ts:419-427 | An admin or owner of the node's organization deletes it and its direct configs, and nothing else. |
| AccessAuthority.DeleteOrgAlone | controller/src/index.ts:160-167 | The owner of a team deletes it; else nothing changes. |
| AccessAuthority.OrgRowsGo | controller/src/index.ts:165 | With an organization go exactly its members, invites, nodes and their direct configs. |
| AccessAuthority.EnsureAlone | controller/src/access.ts:235-254 | The personal organization exists afterwards, with its user as owner unless there was a row, and nothing else changes. |
| AccessAuthority.CleanUpAlone | controller/src/core.ts:542-550 | The periodic job deletes exactly the invites that are spent or expired. |
| Access.NodeStep | controller/src/access.ts:367-427 | One statement never moves an existing node, and writes a direct config only for a node of the caller's organization. |
| Access.NodesStayPut | controller/src/access.ts:367-417 | The same in every interleaving, and direct configs never outlive their node. |

## Left out

- BPF attachment, ring buffers, `/proc`, `mmap`, `readlink`, `getsid`, clocks and printing of whole records: file bytes, child lists, session ids, timestamps and executable matches are inputs, printed records are values in order.
- Verbose output of the process tracer; its full-table path prints an event twice.
- A tracer started without the kernel PID set or without the aggregation map (both file descriptors negative): the model always has the set, and marks each summary flush at an exit without expanding it.
- PidTable.Home: for a negative PID it is the Euclidean remainder, which equals the source's mask because the table size divides 2^32; other sizes are covered only in the sense of the modulus.
- Text of the rate-limit warning: it is lost when the next second's first open is a duplicate, so the theorems speak of the flag.
- 64-bit counts, byte totals and overflow counters of the aggregation map do not wrap in the model; `flush_agg_map` formatting, and failing allocations and lookups in `check_overflow`, are not part of it.
- AggRace: the overflow counters of all CPUs are read in one step and cleared in one step; which keys a walk meets is left open, so the theorems hold for every order.
- TracerModel.SeedArgSyncs: starts from the numbers that `strtol` read; the text of the argument is not part of this model.
- Entry types of the timeline other than request, response and chunk, which the loop skips; parsing of entries, headers, chunked bodies and JSON; the `json_body` re-parse.
- SseTimeline.GroupByTimeline: starts from the entries as sorted; `sorted()` itself is a stable sort on values.
- Jsonl.ValidateUtf8Char: `mbrtowc` is a parameter about which only the two stated facts are assumed.
- JsonEscape.Escape: asks for a buffer of at least two bytes, because `dst_size - 2` is unsigned in the source.
- Read errors during marker search (error-free reads only); needles longer than 33 bytes for the C search; the byte values of the signatures, of which only lengths and positions matter; the Grok signature search, which adds only more comparisons to the same search.
- Partly readable user buffers: a buffer is readable as a whole or not at all; 64-bit totals do not wrap; the ordinary `SSL_write` probes and `probe_rustls_write`, a single bounded read.
- The comparison of executable path and basename in `target_process_matches`, whose outcome is an input.
- Access: emails that differ only in case are one email; users and their deletion, sessions, billing, plans (the hosted preview constant makes every plan check pass), configuration rows, relay tokens, and validation of names, emails and token lengths; the engine's statements and batches are atomic, random ids and tokens do not repeat, and personal organization ids do not collide.
- That an organization always keeps an owner: an accepted invite can lower an owner's role, which `Access.OwnerRowsStay` states exactly.
- Terminal interface, command line, web server, telemetry export, storage, frontend and reports: plumbing or easy members.

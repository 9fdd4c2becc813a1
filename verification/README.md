# The download client, modelled and proved

A Dafny model of the Go client in `client/`: how it keeps one node alive between downloads,
how downloads publish onto output paths, how provider streams are merged, how trees from
sources nobody vouches for are written to disk, and the smaller caches and counters around
them.

Code under a mutex is one atomic step. Where interleavings are the point (`Lifecycle`,
`PathLocks`, `Publishing`, `Merge`, `Dials`, `Scratch`, `Saving`) a `State` holds the shared fields, a
program counter for each goroutine and, marked as such, history; `Enabled` and `After` give
the steps; `Replay` runs a sequence of them; a theorem about `Reachable` or `Replay` is one
about every interleaving of any number of callers. Code that updates fields in place is also a
class whose methods are proved to compute the function the steps use. The methods of
`ClientCore.Client`, `LockTable.PathLocks`, `Merge.Seen` and `Gateways.Cooldowns` say no more than
that they are those functions; what is worth knowing is in the theorems about the functions.

| file | models |
|---|---|
| ClientCore.dfy, Lifecycle.dfy | the mutex-guarded `Client`, and every run of `acquire`, `release`, `closeIdle`, `Close` and the timers |
| PathLocks.dfy, Locks.dfy | `pathLocks`, every run of its callers, and what they get |
| Publishing.dfy, Outcomes.dfy, Progress.dfy, Deadlines.dfy, Spellings.dfy | every run of `replace` on one place; what it comes to; that it ends; what a deadline does to it; what a second spelling of the place does |
| Merge.dfy | `parallelDiscovery.FindProvidersAsync` and `newProviderFinder` |
| Paths.dfy, PathMeaning.dfy | `filepath.Clean`, `Join`, `Dir` and `resolveTarPath` on strings; where paths lead |
| Disk.dfy, Tar.dfy, Materialise.dfy | a file tree with `mkdir` and `writeLimited`; `extractTar`; `materialise` |
| Scratch.dfy | `claimScratch` against `sweepScratchPrefix` |
| Peers.dfy, Snapshot.dfy, Saving.dfy | `parsePeers`; the peer snapshot, written and read back; its file put in place |
| TxtCache.dfy, Gateways.dfy, Dials.dfy | `txtCache`; gateway cooldowns and `fetchFromGateways`; `dialAll` |
| Counting.dfy, FixedWidth.dfy, Wrappers.dfy | counting the entries of a map; 64-bit integers; `Option` |

## What the code does not do

Each of these is a lemma, with the exact condition where there is one.

- A byte limit of the largest 64-bit integer wraps to "copy nothing": every file is written
  empty and the download succeeds (`Disk.WhenLimitsDeliver`). Every other limit delivers what fits.
- The gateway fallback stages under what `os.MkdirTemp` returns. For an output directly in the
  working directory that is `./.ipfs-gateway-…`, which is not clean, and `resolveTarPath`
  refuses every entry. Unpacking works exactly for the other outputs (`Paths.FallbackNeedsADirectory`).
- The table of staging directories in use is keyed by text, so a sweep finds a claim only if it
  spells the directory as the claim did, and other than `.` (`Paths.SweepsSpellAlike`). A download
  directly into the working directory, or into a directory another output spells differently (say
  `out/x` and `/work/out/y`), can lose its directory after an hour. A claim is safe exactly if
  all outputs in its directory spell that the same, and not `.`, and two short stretches of code each
  take less than half the stale age (`Scratch.SweepsSpareClaims`, `Scratch.TwoSpellingsOfOut`).
- Locks go by cleaned text too, so two spellings of one output have a lock each. Single files then
  can leave the path empty after a publish; they leave no gap exactly if all spellings clean to the
  same (`Spellings.WhenFilesLeaveNoGap`). All else in `Outcomes` holds with any number of spellings.
- A `Retry-After` in seconds is multiplied out in 64 bits and can wrap to next to no wait
  (`Gateways.WhenWaitsAreHonoured`, `Gateways.AHugeWaitWrapsToNothing`). It never wraps to none,
  or to more than the maximum.
- The provider limit is a cap exactly for one router; for `n` the merge can send `limit - 1 + n`,
  and does in some run (`Merge.WhenTheLimitHolds`).
- A timer that fired but has not yet got the mutex can close a node another download has just
  left, whose own timer is still ticking (`Lifecycle.AStaleSweepComesEarly`). A timer has seen out
  the documented idle time exactly if it is the one `client.timer` names
  (`Lifecycle.CurrentSweepIsOnTime`).
- `startNode` reads the counts before it reads `finished`, so it can report that nobody could be
  reached when somebody just was (`Dials.VerdictCanMissAConnection`). The report is sure to be right
  exactly if every gateway and every peer had failed when it read the second count
  (`Dials.WhenTheStartUpVerdictIsRight`).
- `replace` looks at the context on entry and in the `select` of the wait for the lock. A deadline
  rules a publish out exactly if it comes before the first look, or finds the call blocked in that
  `select` (`Deadlines.WhenADeadlineStops`).
- A full `txtCache` refuses to refresh even a name it holds (`TxtCache.WhenAnswersAreTaken`).

## Model

| member | source | states |
|---|---|---|
| ClientCore.Client.Acquire | client/client.go:404-440 | the first critical section of `acquire`: refuses when closed, else stops the timer and reuses the node, waits on the start under way, or claims the start |
| ClientCore.Client.Settle | client/client.go:444-450 | the second critical section: the start is over, and its node is installed unless the client was closed meanwhile |
| ClientCore.Client.Release | client/client.go:472-484 | one claim less; arms a fresh timer exactly when none is left, the client is open and idle shutdown is on |
| ClientCore.Client.CloseIdle | client/client.go:486-501 | takes the node away exactly when the client is open and unused |
| ClientCore.Client.Close | client/client.go:368-392 | retires the client once, stopping the timer and taking the node away |
| ClientCore.Client.StopTimer | client/client.go:504-509 | the timer named is no longer ticking, and none is named |
| Lifecycle.StepKeepsInv | client/client.go:368-501 | every step of every caller, timer and `Close` keeps the whole ownership, counting, channel and timer invariant |
| Lifecycle.OneOwner | client/client.go:368-501 | in every reachable state each node built has exactly one owner: its starter, the client, one sweep, one `Close`, or nobody once closed |
| Lifecycle.OwnedAreBuilt | client/client.go:442-450 | the nodes with an owner are exactly those a start-up returned |
| Lifecycle.ClosedAtMostOnce | client/client.go:388-390 | no node is torn down twice, and none that was not built |
| Lifecycle.HeldNodeIsClosedOnlyByClose | client/client.go:436-440 | while a download holds a node no sweep or starter owns it, and if the client does not own it either the client is closed and a `Close` took it |
| Lifecycle.OnlyACloseTakesOnceClosed | client/client.go:368-392 | over every run, a `Close` owns or has closed a node only once the client is closed |
| Lifecycle.EveryNodeIsClosedInTheEnd | client/client.go:366-392 | once every caller has finished, and the client is closed or idle shutdown has run, every node built has been closed |
| Lifecycle.AtMostOneNode | client/client.go:400-484 | a start under way means no node and a claim; closed means no node; at most one node is installed or under construction; `inflight` is exactly the number of callers between claim and release |
| Lifecycle.NoIdleNodeIsLeaked | client/client.go:472-501 | an idle node always has an armed timer or a fired sweep to come, and that sweep takes it |
| Lifecycle.StoppedTimersDoNotFire | client/client.go:377-409 | a timer that `acquire` or `Close` finds named never fires afterwards |
| Lifecycle.TickingTimersAreNamed | client/client.go:472-509 | over every run a timer that ticks is the one `client.timer` names exactly if no sweep has taken a node since it was armed |
| Lifecycle.NamedTimersAreArmed | client/client.go:472-509 | over every run the timer `client.timer` names ticks or has fired |
| Lifecycle.NoTimersWithoutIdling | client/client.go:478-480 | no run with idle shutdown off ever has a timer |
| Lifecycle.CurrentSweepIsOnTime | client/client.go:27-29 | while the client is open and has a node, a timer that ticks or has fired is the one `client.timer` names exactly when nobody has entered `acquire` since it was armed |
| Lifecycle.AStaleSweepComesEarly | client/client.go:486-496 | a run in which a sweep takes the node while a newer timer is still ticking |
| Lifecycle.NoLostWakeup | client/client.go:423-453 | the channel a waiter blocks on is closed, or its maker is on the way to closing it and can move; and a waiter can always give up, which changes nothing shared |
| Lifecycle.NoCallIsHeldUp | client/client.go:402-453 | every call can go on but a waiter whose channel is still open, and a release goes ahead whatever else is in flight |
| Lifecycle.NoCloseIsHeldUp | client/client.go:368-392 | so can every armed timer, fired sweep, arriving `Close` and teardown, whatever else is in flight |
| Lifecycle.EnteringGetsSomewhere | client/client.go:402-440 | whoever enters is refused exactly by a closed client, and else gets the installed node, a wait on the start under way, whose channel is not closed yet, or a start of its own |
| Lifecycle.ClosingEmptiesTheClient | client/client.go:368-392 | whatever is in flight, a `Close` leaves the client closed and empty, and its caller has the node there was |
| Lifecycle.EveryStepCounts | client/client.go:402-501 | every step but an arrival brings the end nearer, waiters that wake and wait again included |
| Lifecycle.RunsAreBounded | client/client.go:402-501 | without new arrivals a run is no longer than `StepsLeft` where it starts, so nobody loops for ever |
| Lifecycle.StuckMeansQuiet | client/client.go:402-501 | a state with no step but arrivals and deadlines is one where everyone is finished and no timer ticks |
| LockTable.PathLocks.Register | client/output.go:60-74 | the key is the cleaned path, its use counted, and the gate the one in the table |
| LockTable.PathLocks.Drop | client/output.go:76-85 | one use less, and the entry gone with the last |
| Locks.MutualExclusion | client/output.go:58-98 | over every interleaving at most one caller has the lock of a cleaned path, holding it or handed it and about to wake, though entries are deleted and made anew |
| Locks.NobodyParksTooLate | client/output.go:87-97 | nobody waits with a context that was done when they came to the lock |
| Locks.GoneTellsWhoHeld | client/output.go:87-98 | whoever leaves with the lock given back is told from whoever gave up |
| Locks.TableIsExact | client/output.go:50-55 | `held` and `waiting` have one domain, each count is exactly the holders, waiters and callers mid-release, and both are empty once all are gone |
| Locks.OnlyHoldersBlock | client/output.go:87-98 | giving a lock back never blocks, a caller waits only while another has the lock of its own key, and with its context done it can give up at once |
| Locks.HoldersLock | client/output.go:87-92 | a key's lock is held by exactly the caller that has its gate |
| Locks.RefinesOneLockPerKey | client/output.go:43-98 | the table behaves as one plain lock per key: taken when free, given back by its holder, and then free or with the caller that has waited longest, untouched by everything else |
| Locks.FirstComeFirstServed | client/output.go:87-92 | over every run a lock given back goes to a caller that waits for it with its context alive, one that parked before every other such caller, and to nobody only if there is none |
| Locks.HeirsShareTheKey | client/output.go:87-92 | a lock given back passes to a caller of the same key |
| PathLocks.EveryStepCounts | client/output.go:60-98 | every step but a new caller's and a context's end brings the callers there are nearer to being done |
| Locks.StuckMeansGone | client/output.go:60-98 | with no new caller and no context ending, nothing stops before every caller is done and the table is empty |
| Renaming.Output.Replace | client/output.go:13-41 | alone on the path, `replace` publishes the whole staged tree whatever was there, or gives up having changed nothing; it gives up exactly if its context is done on entry, or, where a rename can fail, perhaps if it is done at the wait for the lock; the lock table is left as found |
| Renaming.RenamesAreDecided | client/output.go:24-40 | a staged file lands exactly on a path without a directory, and a staged directory exactly where nothing or an empty directory is |
| Publishing.StepKeepsInv | client/output.go:13-41 | every step of every `replace` on one place, however spelled, and of lock callers elsewhere, keeps the publication invariant |
| Outcomes.FailureMeansOvertaken | client/output.go:31-40 | a call that fails after clearing the path was followed, after its clearing, by another call's publish and by none of its own |
| Outcomes.ResultsAreHonest | client/output.go:13-41 | the calls that return nil are exactly those that published, each once, and a call gives up only past its deadline |
| Outcomes.WholeTreesAtRest | client/output.go:10-41 | once all calls are over the path holds its first content, or the whole tree of the last call that returned nil; it is absent only if it was and nobody published |
| Outcomes.WholeTreesAlways | client/output.go:10-12 | at any moment the path is absent or holds a whole tree, and it is absent only while some call stands between clearing and a rename bound to succeed |
| Outcomes.FilesLeaveNoGap | client/output.go:10-26 | when every download is a single file nobody is overtaken, and with one spelling the path is never absent after the first publish |
| Spellings.WhenFilesLeaveNoGap | client/output.go:43-61 | files leave no gap on any run exactly when all spellings of the place clean to the same |
| Progress.EveryStepCounts | client/output.go:13-41 | every step but a new call, a deadline or a new lock caller elsewhere brings the calls there are nearer to their ends |
| Progress.RunsAreBounded | client/output.go:13-41 | without such arrivals a run is no longer than `StepsLeft` where it starts |
| Progress.StuckMeansOver | client/output.go:13-41 | with no arrival and no deadline, nothing stops before every call is over and every lock given back |
| Deadlines.LetInMeansInTime | client/output.go:14-19 | over every run the calls let past the check are exactly those whose check came before their deadline, and every call that publishes is one |
| Deadlines.WhoCanPublish | client/output.go:13-40 | from any reachable state some continuation lets a call publish exactly where it stands before its check in time, in the queue and not blocked there past its deadline or giving up, past the lock, or in a third try that nothing is in the way of or that a call with another key can clear |
| Deadlines.WhenADeadlineStops | client/output.go:14-28 | a deadline rules out a publish that was possible exactly when it comes before the call's check, or finds the call blocked in the `select` for a lock it has not been handed |
| Deadlines.WaitingEndsAtTheDeadline | client/output.go:58-97 | a call in the queue past its deadline can give up at once, unless it has the lock |
| Merge.Seen.Admit | client/routing.go:122-128 | an id new to the set is entered and others are duplicates; satisfied when a positive limit is reached |
| Merge.MergeIsSafe | client/routing.go:109-149 | over every interleaving no id is emitted twice, everything comes from some router, and each worker keeps its stream's order |
| Merge.NothingAfterClosing | client/routing.go:104-150 | once the merged channel is closed nothing is sent on it and it is not closed again |
| Merge.LimitOvershoot | client/routing.go:127-144 | a positive limit lets through at most `limit - 1` providers and one for each router |
| Merge.WhenTheLimitHolds | client/routing.go:127-144 | the limit is a cap on every run exactly when there is at most one router, and the overshoot bound is reached for any number |
| Merge.CancellingStopsSiblings | client/routing.go:134-144 | once a satisfied worker or the caller has cancelled, every other worker can stop where it is |
| Merge.MergeIsComplete | client/routing.go:100-152 | if the caller does not give up and the limit is out of reach, the closed channel has carried every router's every id exactly once |
| Merge.MergeIsNeverStuck | client/routing.go:118-149 | with a reader that drains, some step is possible until the channel is closed |
| Merge.NoWorkerIsHeldUp | client/routing.go:118-146 | what each worker can do at each of its places, whatever the others do |
| Merge.EveryStepCounts | client/routing.go:118-149 | every step but the caller's giving up brings the closing of the channel nearer |
| Merge.RunsAreBounded | client/routing.go:118-149 | from any point of a run on, the channel is closed within `StepsLeft` steps |
| Merge.NewProviderFinder | client/routing.go:77-93 | nothing when no router is there, the router itself when exactly one is, and when more are all of them, each once and in order |
| Paths.TarPathIsExact | client/fallback.go:299-319 | under a clean directory other than `/` and `.` a name is refused exactly when its components cancel to nothing; else it lands strictly beneath, at or under `top`, a direct child; the escape branch is never taken |
| Paths.WhereTarPathsResolve | client/fallback.go:304-311 | a directory is either clean and neither `/` nor `.`, or empty, and every name that comes down to something resolves under it, or it is not and no name at all does |
| Paths.FallbackNeedsADirectory | client/fallback.go:211-219 | the fallback can unpack for exactly those outputs whose directory is not the working directory, and there every entry is refused |
| Paths.SweepsSpellAlike | client/node.go:361-397 | a sweep looks up the path a claim entered exactly when both are for one name and their outputs have the same directory text, other than `.` |
| Paths.BareNamesAreInTheWorkingDirectory | client/node.go:332-334 | an output given as a bare name is in the working directory |
| Paths.CleanIdempotent | client/output.go:61 | cleaning a cleaned path changes nothing |
| Paths.SameCleanSamePlace | client/output.go:61 | two paths share a lock exactly when they are rooted alike and come down to the same components |
| Paths.SlashedInjective | client/fallback.go:304-313 | components and the path they print as determine each other |
| PathMeaning.CleanLeads | client/output.go:61 | a path and its cleaned form lead to the same place from every directory |
| PathMeaning.CleanTellsMeanings | client/output.go:61 | two paths clean to the same text exactly when both are absolute or both relative and they lead to the same place from every directory |
| PathMeaning.ComponentsLead | client/fallback.go:304-313 | what an entry name comes down to is where it leads from the root |
| PathMeaning.DotDotTakesBack | client/fallback.go:304-316 | a name followed by `..` counts for nothing, in an entry name and in a path |
| PathMeaning.LeadingDotDotIsDropped | client/fallback.go:304-307 | climbing out of the root stays there |
| PathMeaning.JoinLeads | client/fallback.go:307-318 | joining leads on from where the directory does |
| PathMeaning.DirLeads | client/node.go:332-334 | the directory of a path is where the path leads short of its last component |
| Disk.WhenLimitsDeliver | client/fallback.go:333-348 | a limit delivers every body that fits exactly when it is not the largest 64-bit integer |
| Disk.LandedSize | client/fallback.go:337-345 | short of the largest limit a body within it lands whole, and one beyond it stops at one byte more |
| Disk.ShareOfLimit | client/fallback.go:275-284 | the budget left under a positive limit is between 0 and the limit, and a body that does not fit in it is cut where the total is the limit and one |
| Disk.Directory.WriteLimited | client/fallback.go:324-348 | nothing is touched if something is in the way; else exactly the bytes the limit lets through land, and an error follows exactly when that is more than the limit |
| Disk.Directory.MkdirAll | client/fallback.go:266-273 | fails, changing nothing, exactly when a file is on the way; else adds exactly the missing directories |
| Disk.Directory.Mkdir | client/node.go:442-444 | adds one directory exactly when its parent is one and nothing is there |
| Tar.ExtractTar | client/fallback.go:235-295 | succeeds exactly for an acceptable archive, leaving exactly its tree, one root and a byte count that is what lies on disk; otherwise the fault is that of the first entry that will not do; budgets never go negative under a limit |
| Tar.WhatIsAcceptable | client/fallback.go:235-295 | acceptable means: an entry; files and directories only, with names that come down to something; one root; no file at or above the place of another entry; bodies within the limit |
| Tar.WhatTheTreeIs | client/fallback.go:264-290 | the tree has a file exactly where a file entry is, with its body, and a directory at every other place on the way to an entry |
| Tar.WhatStopsIt | client/fallback.go:247-294 | what each fault says of the entry it stopped at |
| Tar.TotalIsOnDisk | client/fallback.go:284-285 | the bytes of an acceptable archive's bodies are the bytes in its tree |
| Tar.PlaceEntry | client/fallback.go:264-290 | one entry goes in exactly when its kind, its place and its size allow, and then the tree is that of all entries so far; else which of the three it was |
| Tar.RootOf | client/fallback.go:247-262 | the top level path, or the fault for a nameless entry or a second root |
| Tar.ExtractionIgnoresOrder | client/fallback.go:256-258 | under every limit, acceptance, tree, total and root are the same for every order of the entries |
| Tar.OrderDoesNotMatter | client/fallback.go:235-295 | the same for the entries themselves |
| Tar.OneTreeOnly | client/fallback.go:235-295 | entries determine the tree they stand for |
| Tar.FreeMeansNoClash | client/fallback.go:265-283 | the place of an entry is free exactly when no earlier entry is a file at or above it, nor it a file at or above an earlier entry |
| Tar.DeliveredWhole | client/fallback.go:338 | what an archive delivers is the archive, except under the largest limit, where every file with content is changed |
| Materialise.Materialise | client/node.go:425-465 | succeeds exactly when nothing is at `path`, its parent is there, the DAG is writable and its bytes fit; then the subtree is the DAG and the count what lies on disk; a fault always has its reason in the DAG, the limit or the place; on any outcome nothing outside `path` changes |
| Materialise.MaterialiseEntries | client/node.go:446-460 | the same for a directory's entries, in any state the loop can reach |
| Materialise.TreeIsTheDag | client/node.go:425-465 | walking the tree on disk down any sequence of names finds what walking the DAG does, byte for byte, and nothing where it finds nothing |
| Materialise.WritableAllMeans | client/node.go:446-460 | the recursive acceptance test says: names valid, pairwise distinct, every child writable |
| Materialise.WhatIsWritable | client/node.go:425-465 | writable are files, and directories of what is writable under valid, distinct names; links and other nodes are not |
| Materialise.WhatFlawsMean | client/node.go:425-471 | which fault each node of a DAG accounts for |
| Materialise.SizeIsOnDisk | client/node.go:437-460 | the bytes of a DAG's files are the bytes in its tree |
| Materialise.LookupFinds | client/node.go:442-460 | walking finds the DAG itself, the entry of the next name in a directory, and nothing else |
| Materialise.ValidNamesArePlain | client/node.go:469-471 | valid names are exactly the path components without a zero character, so they stay in their directory |
| Materialise.DeliveredWhole | client/fallback.go:338 | for every limit but the largest, what a DAG delivers is the DAG |
| Scratch.SweepsSpareClaims | client/node.go:332-411 | over every interleaving no sweep removes a directory claimed for an output, exactly when two short stretches take less than half the stale age, the output is not directly in the working directory, and every other output in that directory spells it the same |
| Scratch.ReleasesRemove | client/node.go:361-373 | over every run a download's release removes its directory for good, and until then the directory is there unless a sweep removed one of that output's |
| Scratch.DownloadsKeepTheirScratch | client/node.go:332-411 | so all downloads into a directory are safe exactly when all spell it the same, and not `.`, and those stretches are that short |
| Scratch.TwoSpellingsLoseClaims | client/node.go:332-411 | of a relative and an absolute output in one directory neither is sure to keep its staging directory |
| Scratch.TwoSpellingsOfOut | client/node.go:332-411 | the same at `out/x` and `/work/out/y` |
| Scratch.OnlyTheStaleGo | client/node.go:390-410 | over every run a directory goes only by its own download's release, or by a sweep that had found it stale, and then there is no claim on it for an output that is safe in the sense above |
| Scratch.LeftoversGo | client/node.go:390-410 | over every run and continuation, a sweep that listed a stale directory nobody claimed can move until it has moved on, and then the directory is gone unless somebody changed it |
| Scratch.NobodyIsHeldUp | client/node.go:361-411 | what each download and sweep can do at each of its places, whatever the others do |
| Scratch.TouchedDirectoriesStay | client/node.go:390-410 | a sweep that looks at the age of a directory within the hour of its last change leaves it |
| Peers.ParsePeers | client/node.go:566-600 | for every parser of single addresses, the readable ones grouped by peer, peers in order of first appearance, addresses in order |
| Peers.GroupedIsDistinct | client/node.go:583-597 | each peer comes once, and exactly the peers of the input come |
| Peers.ParsingMerges | client/node.go:566-600 | what a concatenation parses to is the merge of what the parts parse to |
| Peers.ParsingOne | client/node.go:570-590 | one address parses to its peer, or to nothing |
| Peers.MergingOne | client/node.go:583-590 | merging one peer in appends to a known peer in its place, or puts a new one last |
| Peers.MergingConcat | client/node.go:583-597 | merging goes list by list |
| Snapshot.PrintedParses | client/snapshot.go:62 | for the plainest parser, an address and id printed as a line parse back to that peer and address |
| Snapshot.FieldsSplitAtSpace | client/snapshot.go:46 | a text falls into its words at every white space character |
| Snapshot.PlainPeersAreWritable | client/snapshot.go:62 | what the round trip asks of a parser holds of that one, for every peer whose id is non-empty without slash or space and whose addresses are non-empty without space |
| Snapshot.File.Write | client/snapshot.go:54-82 | replaces the whole text, and only for a path and at least one peer |
| Saving.ReadersSeeWholeSnapshots | client/snapshot.go:49-82 | however many writers interleave and wherever the process dies, a reader finds what was there at first or the whole of the snapshot renamed last |
| Saving.OnlyTheDeadLitter | client/snapshot.go:66-81 | a writer that got to its end leaves no temporary file, and its deferred removal takes no snapshot away |
| Saving.NoWriterIsHeldUp | client/snapshot.go:66-81 | every writer can take each of its steps, and fail or stop at each, whatever the others do |
| Saving.OnlyNobodyIsNotSaved | client/snapshot.go:54-56 | an empty list is never begun to be written, any other at any time |
| Saving.ReadersGetWholeLists | client/snapshot.go:28-82 | so what is read is the whole list some writer was given, but for peers with no address |
| Snapshot.File.Read | client/snapshot.go:28-47 | no path, no file or a stale one is no peers; else the peers its words parse to |
| Snapshot.SnapshotAddrs | client/snapshot.go:124-139 | the literal addresses the node would dial, in order |
| Snapshot.SnapshotWorth | client/snapshot.go:87-116 | the first 64 peers of the routing table that are not configured and have an address worth keeping; none without a DHT |
| Snapshot.WorthIsWanted | client/snapshot.go:84-116 | what is worth writing comes from the table, is not configured, has addresses, all dialable, and lists no peer twice if the table does not |
| Snapshot.WorthExactly | client/snapshot.go:87-139 | a peer of the table is written down exactly if it is not configured and has a literal, dialable address, and with exactly those |
| Snapshot.WorthOfOne | client/snapshot.go:99-113 | one peer gives itself with its literal, dialable addresses in order, or nothing |
| Snapshot.WorthConcat | client/snapshot.go:99-113 | what is written of a list keeps its order |
| Snapshot.FilteredConcat | client/snapshot.go:124-139 | so do the addresses kept |
| Snapshot.SnapshotRoundTrip | client/snapshot.go:28-82 | read back within its lifetime a snapshot gives the same peers, addresses and order, but for peers with no address; later, nothing |
| Snapshot.RestartKeepsThePeers | client/snapshot.go:28-116 | what a node chooses to write is read back whole by the next: at most 64, none configured, every address dialable |
| TxtCache.Cache.Lookup | client/resolver.go:127-137 | the records held for a name whose hour has not passed |
| TxtCache.Cache.Purge | client/resolver.go:147-151 | in any order, deletes what lapsed before it began and nothing that has not lapsed when it ends |
| TxtCache.Cache.Keep | client/resolver.go:142-159 | a full cache is purged, and the answer stored unless it is still full |
| TxtCache.WhenAnswersAreTaken | client/resolver.go:139-159 | an answer is taken if fewer than 64 are live when the call begins and refused if 64 are when it ends, never more than 64 are held, and no unexpired answer to another name is lost |
| TxtCache.LookupsAreExact | client/resolver.go:113-159 | over every run a lookup finds a name exactly when its latest taken answer is at most an hour old, and then finds that answer |
| Gateways.DelayIsBounded | client/fallback.go:67-79 | every wait recorded is positive and at most the maximum, whatever the header and even if the product wraps |
| Gateways.WhatHeadersAskFor | client/fallback.go:67-79 | the wait for each kind of header: the time to a date or the seconds, capped, and the default for what has passed, is not positive or does not parse |
| Gateways.WhenWaitsAreHonoured | client/fallback.go:69-78 | a wait in seconds is the one asked for, capped, exactly when its nanoseconds fit 64 bits or wrap to the cap or beyond |
| Gateways.AHugeWaitWrapsToNothing | client/fallback.go:69-70 | a number of seconds that wraps to a pause of half a microsecond |
| Gateways.Cooldowns.CoolingDown | client/fallback.go:37-51 | the deadline of the gateway's host, if its URL parses and the deadline has not passed |
| Gateways.Cooldowns.Start | client/fallback.go:54-60 | the host's deadline becomes now and the wait, and no other changes |
| Gateways.CoolingIsTheLatestWait | client/fallback.go:37-60 | over every log of throttled answers a gateway is cooling exactly while the wait its host asked for last has not passed, and until then |
| Gateways.FetchFromGateways | client/fallback.go:110-161 | the run gets past a pass exactly if the client is open and the gateway is cooling, or turns the request down with the client open and time left; the first other pass stops it and says how; it asks, in order, each gateway it gets to that is not cooling; "none served" comes with one failure for each gateway, in order |
| Gateways.AHostNamedTwiceIsLeftAlone | client/fallback.go:125-153 | a host that told this run to slow down is asked again by it exactly when the run gets to a gateway of that host and the wait it asked for has passed |
| Dials.ChannelsAreHonest | client/node.go:602-668 | over every interleaving `first` closes at most once and only with a connection, `done` at most once and only with every dial settled; then the count is the number of successes and `first` is closed exactly when it is positive |
| Dials.AlwaysGoesOn | client/node.go:646-665 | until `done` closes somebody can move |
| Dials.NoDialIsHeldUp | client/node.go:646-660 | every dial can end either way at any time, whatever the others do |
| Dials.EveryStepCounts | client/node.go:646-665 | every step brings the closing of `done` nearer |
| Dials.CountIsFinalOnceDone | client/node.go:662-665 | once `done` is closed nothing changes the count |
| Dials.WhenTheVerdictIsRight | client/node.go:216-230 | for one group, a count of zero stays zero in every continuation that finishes it exactly when every dial has failed by then |
| Dials.WhenTheStartUpVerdictIsRight | client/node.go:216-230 | for gateways and peers side by side, that nobody was reached is right in every interleaving of what is left exactly when every gateway and every peer had failed at the second count |
| Dials.VerdictCanMissAConnection | client/node.go:216-230 | for every group with somebody to dial, and no other, the count can read zero, the group then finish, and somebody be connected |

## Left out

- libp2p, bitswap, the DHT, HTTP and the delegated router: `startNode` returns a node or an
  error, a dial succeeds or fails, an attempt at a gateway is served, too big or refused.
- `Get`, `awaitDownload`, `primaryDeadline` and `conclusive`: choosing which error to report,
  one branch each.
- `redial`: it starts dials on a node that is already installed and returns.
- Identity keys, address gating, gateway URL and DNS server rendering, `ffi`, `utils`, the Kotlin
  wrapper and logging.
- Faults of the operating system, other processes, and file systems that ignore case. Renames,
  removals of whole trees and exclusive creation are single steps; a rename of a directory onto
  an empty directory may succeed or fail, since POSIX and `os.Rename` differ there.
- Cancelling downloads through `retire`: a download in `Lifecycle` may end at any time anyway.
- The `staging` table as a mutable object: `Scratch` is a state machine on values, since the
  interleavings are its point; `os.MkdirTemp` never draws a name twice, and a release is one step.
  Which outputs lie in the one directory modelled is a parameter, and the working directory is fixed.
- The `dialGroup` as a mutable object: `Dials` is a state machine on values for the same reason.
- The multiaddr library: an address is text, and a parameter says what a text parses to. The round
  trip asks of it that texts of addresses and ids have no spaces and that a printed line parses back.
- Gateways.FetchFromGateways: what other downloads and `Close` do meanwhile is arbitrary in each
  pass, rather than steps of their own; a failure is told by its gateway and, for a cooldown, its
  deadline, rather than by its message.
- Renaming.Output.Replace: one call with nobody else on the path; `Publishing` has all of them.
- Tar.ExtractTar: the reader is a list of entries with whole bodies, so a stream that breaks off
  is not modelled; nor is a byte total beyond 64 bits where there is no limit.
- Materialise.Materialise: the same holds of the DAG's blocks.
- Paths.TarPathIsExact: for a directory that is clean and neither `/` nor `.`; what happens under
  any other is `Paths.WhereTarPathsResolve`.
- Snapshot.File.Write: in one step; `Saving` has the temporary file and the rename.
- Snapshot.SnapshotRoundTrip: for lists that name each peer once, which a routing table does.

# Verification of the stateful core of rust-sak

A Dafny model of the parts of the library whose state has to survive interleaving, crashes or hostile input, and proofs
of what they promise. `dafny verify dfyconfig.toml` checks all of it.

| files | component | modelled from |
|---|---|---|
| `Digest`, `Partial`, `Download` | resumable download | `src/fetch/download.rs`, `partial.rs`, `digest.rs` |
| `VerifiedFetch` | download checked against a published hash | `src/ai/install.rs` |
| `Flight` | single-flight table | `src/memo/flight.rs` |
| `Tiers`, `CompositeStore` | memory in front of disk | `src/memo/composite_store.rs`, `memory_store.rs`, `disk_store.rs` |
| `InstallMachine`, `InstallDrops`, `Install` | crash-safe installer | `src/ai/install.rs`, `install/lock.rs`, `install/marker.rs` |
| `SafePath`, `Containment` | entry names and symbolic links | `src/fs/safe_path.rs` |
| `ExtractRoot`, `Extract` | directory cache, budget, one entry after the other | `src/fs/extract_root.rs`, `extract.rs` |
| `Container`, `Associations`, `ColorProfile`, `DescribedFile`, `WebPFile`, `ProbeFile` | box and chunk walker, prefix-first probe | `src/image/container.rs`, `probe_file.rs`, `dispatch.rs` |
| `Retry`, `Links`, `Text` | backoff, `Link` headers, strings | `src/fetch/retry.rs`, `response.rs` |

## How to read it

- **Form.** What the source changes in place is a class with the same fields, and its methods are proved against a
  function of the old state or against the property itself. Concurrent protocols (`FlightMachine`, `InstallMachine`) are
  state machines over one event per lock region or per file operation; theorems about them quantify over every run of
  unboundedly many activities or processes. `Flight` ties the objects' lock regions to the machine's, and
  `Install.Installer` is the installer's own code, which is shown to be a run of the machine among arbitrary steps of
  other processes.
- **Crashes.** Every disk operation may fail, with any error, leaving what a failure of it can leave (a prefix of a write,
  a sidecar that does not parse). A failure that ends a run with no further change to the disk is how a crash at that
  point looks, so what holds after every operation, failed or not, holds wherever the process stops. In the machines a
  process may stop at any step.
- **Servers.** An answer is a status, the headers read from it and a body in chunks that ends or breaks off. Nothing is
  assumed of it except where a clause says so: an honest server (`Server.Serves`) gives each version a strong `ETag`, or
  else a date that no other version has, honours `Range` and `If-Range` (sections 13.1.5, 14.4 and 15.5.17 of RFC 9110) and may change the version between any
  two answers.
- **Hashes** are a fold over bytes with an arbitrary absorbing function; no collision is assumed away, since the theorems
  say that a digest is the one-pass hash of given bytes.

## What turned out not to hold as promised

- **Download, retries within one run.** The partial is settled once, before the first attempt. If an attempt fails after
  the sidecar was deleted or half-written (a sidecar write, or the rename, failing with a retryable error), or reading the
  sidecar fails on the next one, the retry asks for a range without `If-Range`, and an honest server may continue with
  another version. `SplicesInOneRun` is such a run, of two attempts; `ResumesSoundlyExactly` gives the exact condition on
  a resume; the no-splice clauses of `RunAll` and `Run` hold for a disk on which such a failure ends the run
  (`Disk.orderly`). Provenance of the partial and the digest theorems need no such assumption.
- **Installer, dropped futures.** Dropping an install releases the folder's lock, but file work already running on a
  blocking thread goes on. As long as no one takes the folder's lock while that unpacks, it is as safe as before; whoever
  does, another install of the version (`DroppedInstallMarksAnother`) or one of another version that removes it as old
  (`DroppedInstallIsSwept`), can end in a marker over part of an archive. `RunIsSafeExactly` says so in both directions.
  A drop after the marker was written is harmless.
- **Two-tier cache, large values.** A value over the memory budget is declined by memory, which keeps and serves a live
  older copy (`StaleRead`). Disk deadlines are cut to whole milliseconds, so over whole runs the tiers agree with one map
  up to one millisecond (`RunsWithinAGrain`), and exactly if and only if no live deadline is cut (`InvisibleExactly`).
- **Symbolic links.** The lexical rule is exact for where a link stands (`RuleIsExact`), but a link created through
  another link may stand shallower than its name (`LinkedParentEscapes`). The checks after creation and at the end make
  up for that (`KeptStaysInside`), except for a link whose name takes more links to resolve than the system follows,
  which they let pass: `LeavesOneOutside` ends in a successful finish with a name that leads outside. `EscapesExactly` is
  the exact condition.
- **Probing.** A `meta` box of size 0 runs to the end of whatever was read, so an answer on a prefix may be wrong
  (`OpenMetaMisleads`, `MetaStandsExactly`, `NameStandsExactly`).
- **`Link` headers.** A `;` inside a quoted parameter value ends the parameter, so a link may be found under a relation it
  does not declare (`SemicolonMisleads`) and not under one it does (`SemicolonMisses`); `ReadsAsMeantExactly` says when
  neither happens.

## Model

| member | source | states |
|---|---|---|
| DownloadRuns.RunAll | src/fetch/download.rs:492-715 | Over any number of runs with any URLs, keys, modes and servers, each stopped at any disk step: a readable sidecar tells the truth about every byte of the partial; and with honest servers, whose versions are named by a strong tag or by a date, whatever reaches the target is, byte for byte, one complete version of what one of the runs asked for (no splices) |
| DownloadRuns.ResumesSoundlyExactly | src/fetch/download.rs:546-576 | A resume is continued soundly by every honest server if and only if the sidecar reads back and its validator names the version the partial starts; otherwise a splice is constructed |
| DownloadRuns.SplicesInOneRun | src/fetch/download.rs:540-668 | A run of the code itself, with an honest server and one sidecar write cut short: its second attempt puts bytes at the target that are no version |
| Download.Transfer.Run | src/fetch/download.rs:383-405 | A digest is published only by a transfer that finished, and is the one-pass hash of exactly the bytes at the target; a failed run leaves the target alone; no splice under honest servers |
| Download.Transfer.StreamToFile | src/fetch/download.rs:492-540 | Completeness at the target, the number of attempts, a finished file is never fetched again in the modes that respect it, and on a disk that works one answer carrying everything finishes the run at once; after a sidecar write cut short, the retry asks without a validator and takes what it is answered |
| Download.Transfer.AttemptAll | src/fetch/download.rs:540-713 | Attempts are made until one finishes, fails for good or the retries are spent, and between any two of them the checkpoint, provenance and version invariants hold; on a disk that works, a run that ends with a failure worth retrying was never answered whole |
| Download.Transfer.Retry | src/fetch/download.rs:540-713 | The attempts after the first: invariants, number, liveness, and a retry that is answered with the rest finishes with the kept bytes followed by it |
| Download.Transfer.Attempt | src/fetch/download.rs:540-576 | One attempt asks from where the partial ends; what it leaves is a whole version at the target or a partial that is still the start of one, still resumable as that; a sidecar write cut short leaves the bytes without their identity |
| Download.Transfer.Act | src/fetch/download.rs:578-621 | Every answer (none, 200, 206 for the right or another range, 416, error status, whole or broken body) has the one outcome the branches give it, down to what the sidecar then says, and none breaks the invariants |
| Download.Transfer.RefusalDecides | src/fetch/download.rs:577-600 | The length in a conforming 416 decides, else the recorded one, and with neither the partial is the whole |
| Download.Transfer.AsksForTheRest | src/fetch/download.rs:546-568 | After a body that broke off, the next request asks for what follows the kept bytes if they are still those of the answer they came with: by its strong tag, or the one recorded before, and else by its date |
| Download.Transfer.Unsatisfied | src/fetch/download.rs:578-605 | A 416 finishes exactly when the known length is absent or equals the offset, with the hash of the whole partial; otherwise partial and sidecar are gone |
| Download.Transfer.RejectRange | src/fetch/download.rs:615-621 | A 206 for another range empties the partial and forgets the carried hash |
| Download.Transfer.Take | src/fetch/download.rs:623-713 | A received body continues the version its recorded validator names or starts one, and finishes only as the whole of it |
| Download.Transfer.Collect | src/fetch/download.rs:623-668 | Truncate, then sidecar, then bytes: whichever step fails, the partial is empty, untouched, or bytes the new sidecar describes; a body that breaks off leaves a sidecar with the tag, the date and the length the answer gave, or for a part those recorded before, its length counted from the offset |
| Download.NextDescribes | src/fetch/download.rs:640-660 | What is recorded of an answer: whose bytes, the strong tag and the date it gives or a part carries forward, and the length of the whole |
| Download.Transfer.Receive | src/fetch/download.rs:670-712 | A body is promoted only when it arrived whole; a broken one leaves the old bytes followed by a prefix of it |
| Download.Transfer.ReceiveBody | src/fetch/download.rs:673-696 | However a body is cut into chunks and the buffer spills, disk plus buffer are the bytes received so far and the hash covers exactly them |
| Download.Transfer.FlushAndCheckpoint | src/fetch/download.rs:691-694 | The hash is recorded only after the flush, so a checkpoint covers bytes a retry will find |
| Download.Transfer.HashPrefix | src/fetch/download.rs:436-456 | The carried hash brought up to the offset is the one-pass hash of the first `offset` bytes of the partial, whether or not there was a usable checkpoint |
| Download.HonestContent | src/fetch/download.rs:606-668 | An honest answer that is received continues the version, named by tag or by date, that was recorded, or starts one; and what is then recorded names it |
| Download.HonestRange | src/fetch/download.rs:321-326 | An honest 206 is never taken for another range |
| Server.OntoIsConcat | src/fetch/download.rs:681-687 | Appending chunk by chunk is appending the concatenation |
| ContentRange.StartOfRendered | src/fetch/download.rs:321-326 | What a conforming server writes in a 206 is read back as its first position |
| ContentRange.TotalOfRendered | src/fetch/download.rs:332-335 | What a conforming server writes in a 416 is read back as the complete length |
| Digest.AbsorbConcat | src/fetch/digest.rs:54-56 | Hashing in pieces is hashing the concatenation, however the pieces are cut |
| Digest.Hasher.UpdateRange | src/fetch/digest.rs:69-94 | Reading a range in chunks of any length absorbs exactly that range, and a file shorter than the range is an error |
| Partial.Disk.Reconcile | src/fetch/partial.rs:124-133 | A partial is kept only when its readable sidecar matches the request; otherwise both are deleted |
| Partial.Disk.Discard | src/fetch/partial.rs:109-112 | The partial goes before its sidecar, so stopping between the two leaves no bytes without an identity |
| Partial.Disk.Promote | src/fetch/partial.rs:148-151 | The sidecar goes before the rename; either the target is the whole partial and nothing is left, or the target is untouched |
| Partial.Disk.AppendPart | src/fetch/download.rs:684-684 | A failing write leaves a prefix of what was to be written |
| Partial.FinalExactly | src/fetch/download.rs:345-361 | The disk errors that end a run are nine: no permission, no room, no such place |
| Download.RetriedExactly | src/fetch/download.rs:339-363 | Which statuses and disk errors another attempt follows on |
| VerifiedFetch.Fetcher.FetchVerified | src/ai/install.rs:437-472 | Ok only when the staged file hashes to the expected digest; Damaged leaves neither file, partial nor sidecar; at most two transfers, the second only when asked for; a damaged staged file is replaced when the second download carries the expected one |
| VerifiedFetch.Fetcher.MatchesExactly | src/ai/hf.rs:88-95 | Digests match when they are the same up to the case of letters and white space around them |
| VerifiedFetch.Fetcher.ContinuesThisUpload | src/ai/install.rs:496-503 | A partial is continued exactly when it was begun for this hash, whatever URL it came from |
| VerifiedFetch.Fetcher.FetchFromNothing | src/ai/install.rs:455-456 | The second transfer starts from nothing |
| VerifiedFetch.Fetcher.FetchHashed | src/ai/install.rs:484-523 | The digest returned is the hash, of the expected kind, of exactly the staged file, whether it was downloaded or found complete |
| VerifiedFetch.Fetcher.Discard | src/ai/install.rs:475-480 | The staged file, its partial and its sidecar are all gone |
| FlightMachine.StepKeepsInv | src/memo/flight.rs:62-195 | Every lock region of every activity keeps the invariant over unboundedly many keys and callers |
| FlightMachine.EnterKeepsInv | src/memo/flight.rs:127-144 | Joining or leading keeps one registered call per key |
| FlightMachine.EntersAsAsked | src/memo/flight.rs:127-144 | A registered key is followed, blocking or polling; any other gets a fresh call, led and registered |
| FlightMachine.PublishKeepsInv | src/memo/flight.rs:62-79 | Publishing sets an unset slot once and takes the parked wakers with it |
| FlightMachine.ReleaseKeepsInv | src/memo/flight.rs:190-194 | A guard dropped unpublished releases its followers with Abandoned |
| FlightMachine.PollKeepsInv | src/memo/flight.rs:98-110 | A waker parked under the outcome lock is on the list of an unpublished call |
| FlightMachine.WakeOneKeepsInv | src/memo/flight.rs:75-78 | A waker taken from the list stays owed until it is woken |
| FlightMachine.OneGuardPerKey | src/memo/flight.rs:173-195 | In every reachable state two live guards of one key are one, the registered call is its own, and dropping it takes out that call and no other |
| FlightMachine.RegisteredHasGuard | src/memo/flight.rs:127-144 | Every registered key has its live guard |
| FlightMachine.OutcomeIsFinal | src/memo/flight.rs:62-67 | An outcome once written never changes, over any run |
| FlightMachine.WaitersAgree | src/memo/flight.rs:82-110 | All waiters of a call got the same outcome, and it is Abandoned exactly when its guard never published |
| FlightMachine.OutcomeIsTheOffer | src/memo/flight.rs:62-110 | Over any run, what is in a call's slot, and what everyone waiting on it got, is exactly what its leader first published, or Abandoned if it never did |
| FlightMachine.NoLostWakeUp | src/memo/flight.rs:62-110 | In every reachable state a waiting follower is owed its wake-up: it is listed with an unpublished call whose guard is live, or a publisher mid-step still holds its waker or its notify_all |
| FlightMachine.ProgressDescends | src/memo/flight.rs:62-110 | Every step of a publisher or follower, in any order, lowers a lexicographic measure and loses no follower |
| FlightMachine.WakeDescends | src/memo/flight.rs:75-78 | Waking one task lowers the wakers left and adds no stage |
| FlightMachine.SomeoneCanStep | src/memo/flight.rs:82-110 | Once the guards are dropped someone unfinished can step: no deadlock |
| FlightMachine.FollowersFinish | src/memo/flight.rs:181-195 | Once every guard is dropped, publishers and followers by themselves reach a state in which every follower has its own call's outcome |
| Flight.InFlight.Publish | src/memo/flight.rs:62-79 | An unset slot holds exactly what was offered and hands the wakers over; a set one stays; and that is the machine's step |
| Flight.InFlight.Poll | src/memo/flight.rs:98-110 | The slot region of a poll is the machine's: the outcome, or the waker parked once |
| Flight.Table.Enter | src/memo/flight.rs:127-144 | A registered key is joined and the table unchanged; any other gets a fresh call under a fresh guard |
| Flight.Guard.Publish | src/memo/flight.rs:175-178 | A guard's publication is its call's, and marks the guard |
| Flight.Guard.Drop | src/memo/flight.rs:182-194 | Dropping removes the key, and publishes Abandoned exactly when the guard never published |
| Tiers.RunsWithinAGrain | src/memo/composite_store.rs:45-112 | Whatever the disk's unit: over any run of get, set, remove, retain, cleanup, time passing and evictions that leaves no stale copy, a hit is the last write with no more than its own time left, and what is missed or not counted had less than one unit left |
| Tiers.KeptAsLongAsAsked | src/memo/composite_store.rs:45-81 | In numbers: over any run that leaves the key alone, a value written to live `ttl` is read back after `t` when `t` and one unit of the disk's clock are at most `ttl`, with at most `ttl - t` left, and is gone from `ttl` on |
| Tiers.KeptForever | src/memo/memory_store.rs:106-109 | A time past what the clock can read never runs out |
| Tiers.GoneOnceRemoved | src/memo/composite_store.rs:83-107 | A key removed or refused stays gone until it is written again |
| Tiers.MemoryHoldsWhatFits | src/memo/memory_store.rs:99-113 | Memory takes a value with any time to live that fits the budget, for exactly that time, and nothing else |
| Tiers.PromotedForItsTime | src/memo/composite_store.rs:52-65 | A disk hit that fits is answered from memory for the promotion time, but no longer than the entry has |
| CompositeStore.SetThenGet | src/memo/composite_store.rs:45-81 | The code itself, a write and then a read after some time, with the value evicted in between or not |
| Tiers.AnswersWithinAGrain | src/memo/composite_store.rs:45-112 | So it is for each operation on coherent tiers |
| Tiers.MemoryIsInvisible | src/memo/composite_store.rs:45-112 | Over any such run in which no deadline written is cut down, every answer is that of one exact map, whatever the unit |
| Tiers.InvisibleExactly | src/memo/composite_store.rs:69-81 | From a coherent state every continuation is answered as by one map if and only if the operation was not a write too large for memory over a live older copy, and no live entry has a deadline the disk cuts down |
| Tiers.CutShows | src/memo/disk_store.rs:302-316 | An entry with a cut deadline, evicted and read between its two deadlines, is missed though the map has it |
| Tiers.CoherentExactly | src/memo/composite_store.rs:45-112 | An operation keeps the tiers coherent exactly when it leaves no stale copy |
| Tiers.StaleRead | src/memo/composite_store.rs:69-81 | After a write memory declined for its size, the next read returns the older value |
| Tiers.ReadsWithinAGrain | src/memo/disk_store.rs:302-316 | With disk deadlines cut to whole units, a hit is the last write with no more than its own time left, and a miss has less than one unit left |
| Tiers.AnswersAgree | src/memo/composite_store.rs:45-112 | When the disk keeps the live deadlines exactly, a read returns what the disk alone would, and counts and flags are the map's |
| Tiers.GetKeepsCoherent | src/memo/composite_store.rs:45-67 | A promoted copy never outlives the entry it came from |
| Tiers.SetKeepsCoherent | src/memo/composite_store.rs:69-81 | A write both tiers or the disk alone took leaves no older copy, unless it is too large for memory |
| Tiers.RetainKeepsCoherent | src/memo/composite_store.rs:92-107 | Memory keeps no copy of what the disk refused or let expire |
| CompositeStore.CompositeStore.Get | src/memo/composite_store.rs:45-67 | The method is the specified read, a failing disk is reported only on a memory miss, and coherence is kept |
| CompositeStore.CompositeStore.Set | src/memo/composite_store.rs:69-81 | Both tiers are visited whatever the other does; the error is the disk's |
| CompositeStore.CompositeStore.Remove | src/memo/composite_store.rs:83-90 | The key is gone from memory even when the disk fails |
| CompositeStore.CompositeStore.Retain | src/memo/composite_store.rs:92-107 | `keep` is asked once about each live disk key, in some order, and both tiers keep what it approved |
| CompositeStore.Consult | src/memo/disk_store.rs:363-397 | Each live key is asked about exactly once, the dead never, and the refused are counted |
| CompositeStore.CompositeStore.Cleanup | src/memo/composite_store.rs:109-112 | Only expired entries go |
| Tiers.NoDeadEntries | src/memo/disk_store.rs:363-420 | A cleanup and a retain leave no dead entry on disk and every live one that is not refused |
| CompositeStore.CompositeStore.MemoryGet | src/memo/memory_store.rs:78-97 | A hit is live and has its remaining time |
| CompositeStore.CompositeStore.MemoryRetain | src/memo/memory_store.rs:122-138 | Refused live entries are invalidated, all others kept |
| InstallMachine.MarkersAlwaysSafe | src/ai/install.rs:311-424 | At every point of every interleaving of installs and old-version removals by any number of processes, each stopping anywhere and dropped at any time, a present marker stands over the complete entry set of one archive, as long as no one takes the lock on a folder in which a dropped install still unpacks |
| InstallDrops.RunIsSafeExactly | src/ai/install.rs:360-395 | No point of a run leaves a marker over part of an archive in the making if and only if no step of it takes the lock on a folder in which a dropped install still unpacks |
| InstallDrops.StepIsSafeExactly | src/ai/install.rs:360-395 | The same for one step from any consistent state |
| InstallDrops.DisturbanceIsUnsafe | src/ai/install.rs:360-415 | Whoever takes that lock, to install or to remove the version, at whatever stage of the unpacking, can bring a marker over part of an archive; before the record is made, one that reads as intact |
| InstallMachine.WithoutDropsUndisturbed | src/ai/install.rs:360-366 | Runs in which no file work is dropped are safe ones |
| InstallDrops.DroppedInstallMarksAnother | src/ai/install.rs:360-366 | From any start, a dropped install and another of the same version can end in an intact-looking marker over part of the archive |
| InstallDrops.DroppedInstallIsSwept | src/ai/install.rs:399-415 | And so can a dropped install and one of another version that removes it as old |
| InstallMachine.StepKeepsInv | src/ai/install.rs:311-424 | Every step of every process that does not take such a lock keeps locks, stages, markers and exclusion consistent, a dropped install unpacking on included |
| InstallMachine.LocksStayOk | src/ai/install/lock.rs:22-66 | A folder's lock is held by exactly the process that is inside it |
| InstallMachine.MarkersStaySafe | src/ai/install.rs:575-585 | Only the last write brings a marker, and whatever removes entries found it gone |
| InstallMachine.OnlyTheHolderWrites | src/ai/install.rs:311-424 | A folder changes only under its lock, or by a dropped install still unpacking into it |
| InstallMachine.PreviousInstallSurvives | src/ai/install.rs:557-575 | While an install downloads, verifies and extracts, whatever other processes do, and if it then stops, the previous install stands |
| InstallMachine.FinishedIsInstalled | src/ai/install.rs:575-586 | A reported success left the whole archive, marked as such, with the lock let go |
| InstallMachine.DamageIsSeen | src/ai/install/marker.rs:71-83 | An install reads as intact until a recorded entry is lost or changes its length, whatever else is added, and a folder without a marker never does |
| InstallMachine.IntactInstallIsUsed | src/ai/install.rs:318-324 | A process that takes the lock and finds an intact install uses it, whatever others do between the two, and changes nothing |
| InstallMachine.GuardedFoldersStand | src/ai/install/lock.rs:22-66 | While a process stands still, over any run of the others, the folders it is at work in do not change |
| InstallMachine.VersionsAreNotRemovedUnderALock | src/ai/install.rs:399-424 | No step of another process changes or removes a folder held locked |
| InstallMachine.NeverDeadlocked | src/ai/install.rs:318-318 | As long as a process is unfinished one can step: a process waits for a lock only while it holds none |
| InstallMachine.ReplacementStaysOk | src/ai/install.rs:575-577 | From the deletion of the marker on, the folder is unmarked, and emptying it leaves what was extracted |
| InstallMachine.RecordingStaysOk | src/ai/install.rs:580-585 | What is recorded and then written is the size of every entry of the archive, and it stands over exactly those |
| InstallMachine.MovingStaysOk | src/ai/install.rs:577-580 | Entries moved in and still staged are together the archive |
| Install.Installer.InstallOne | src/ai/install.rs:311-395 | The code, step by step among arbitrary steps of other processes and failing anywhere, is a run of the machine; success means the archive stands in the folder; and when no operation of its own fails it succeeds, unless the folder is locked or a dropped install still unpacks |
| Install.Installer.Extract | src/ai/install.rs:557-573 | The extraction folder holds exactly the archive, whatever an earlier attempt left in it, and the rest of the folder is as it was |
| Install.Installer.Unpack | src/ai/install.rs:557-586 | Extraction, marker deletion, emptying, moving and the marker's write happen in the machine's order, and the folder then holds the archive, its marker and nothing else |
| Install.Installer.EmptyDir | src/ai/install.rs:602-610 | Every entry is removed; the marker's absence and the extracted files stay as they were |
| Install.Installer.MoveIn | src/ai/install.rs:577-580 | Every staged entry is moved in beside what was there, and nothing stays staged |
| Install.Installer.RemoveOtherVersions | src/ai/install.rs:399-424 | Exactly the other versions are tried, each once |
| Install.Installer.Try | src/ai/install.rs:408-422 | One version's turn ends with it off the list, whether it was locked, removed or stuck |
| InstallMachine.LockedVersionIsLeft | src/ai/install.rs:420-420 | A version another process holds locked is left as it is |
| Install.Installer.Sweep | src/ai/install.rs:409-418 | The folder is gone, or it was left untouched, or unmarked with a part of its entries: the marker goes before any entry |
| Install.World.Others | src/ai/install/lock.rs:22-66 | Whatever other processes do, folders this one holds locked do not change |
| SafePath.ValidateEntryName | src/fs/safe_path.rs:35-63 | A name is refused exactly when its prefix is unsafe or a piece is `..` or a device name; otherwise its components are the named pieces |
| SafePath.UnsafeExactly | src/fs/safe_path.rs:65-88 | A prefix is unsafe exactly with a NUL anywhere, a separator in front, or a drive letter |
| SafePath.ReservedExactly | src/fs/safe_path.rs:142-151 | The device names, in any case, with white space and any extension after them, and no others |
| SafePath.ValidateSymlinkTarget | src/fs/safe_path.rs:110-140 | The loop over depth and descent decides the declarative rule |
| SafePath.ContainedShape | src/fs/safe_path.rs:97-107 | Accepted targets are exactly ups, no more than the depth, followed by names |
| Containment.RuleCoversTheSystem | src/fs/safe_path.rs:110-140 | What the rule accepts reading both separators is contained as the system reads it |
| Containment.ResolutionStaysInside | src/fs/safe_path.rs:97-107 | With every link contained where it really stands, no resolution of a contained path leaves the root, links and loops included |
| Containment.AcceptedAreContained | src/fs/safe_path.rs:110-140 | Links the rule accepts where they stand are contained there |
| Containment.EveryOrderIsContained | src/fs/safe_path.rs:97-107 | Whatever entries an archive holds, in whatever order, once created no accepted name leads above the root |
| Containment.RuleIsExact | src/fs/safe_path.rs:97-140 | For every target: the rule accepts it if and only if it is neither empty nor absolute and, read at both separators, is safe beside every set of accepted links |
| Containment.StaysExactly | src/fs/safe_path.rs:97-107 | For every target: as the system reads it, it is safe beside every set of accepted links if and only if it climbs no deeper than it stands and never after a name |
| Containment.RefusedLeaves | src/fs/safe_path.rs:102-107 | For every target that does not stay inside by itself there is a tree of accepted links in which it escapes |
| Containment.ClimbsFirst | src/fs/safe_path.rs:102-107 | A target that climbs before it descends stays inside where it stands or leaves the root whatever the tree holds |
| Containment.CreateKeepsAcceptedExactly | src/fs/extract_root.rs:154-171 | A new link keeps the tree accepted exactly when its target is accepted where it really lands |
| Containment.LinkedParentEscapes | src/fs/extract_root.rs:173-193 | Three entries accepted by their text of which the last, created through a link, leaves the root |
| Containment.RealParentsFit | src/fs/safe_path.rs:104-107 | Links whose parents are real directories always land where they were accepted |
| Extract.Extractor.Visit | src/fs/extract.rs:277-320 | On success the entry is there as what it said it was: a regular file at its path whose stream fits its size, a directory, a link with the entry's target on the list to be checked again, or passed over, and counted as exactly that; every entry that is one too many, has a refused name, breaks a ceiling, outgrows its size, breaks off, or has no place fails, and nothing else does but a file the disk refuses. After any sequence of successful visits the counts of entries, kinds and bytes agree and no ceiling is passed; and every link stays contained where it really stands, exactly unless it is one on which resolution ran out of links and that climbs deeper than it stands |
| Extract.EscapesExactly | src/fs/extract.rs:325-340 | When every link passes the check at the end, no name leads outside the extracted tree if and only if none of those on which resolution ran out of links climbs deeper than where it really stands |
| Extract.KeptStaysInside | src/fs/extract_root.rs:173-193 | A link that resolves or dangles when checked is contained where it really stands, whatever its name said |
| Extract.LeavesOneOutside | src/fs/extract_root.rs:173-193 | Three entries are extracted and the finish succeeds, and a name of the tree leads outside |
| Extract.FarEscapes | src/fs/extract_root.rs:185-185 | That link's own name escapes, while the name it was created by runs out of links just before it |
| Extract.Extractor.VisitDir | src/fs/extract.rs:343-356 | The tree is that of the recursive mkdir |
| Extract.Extractor.VisitFile | src/fs/extract.rs:359-399 | A regular file stands at the path only when its whole stream fits what it declared, which fits its own ceiling and the total; one that outgrows it is removed again |
| Extract.Extractor.VisitSymlink | src/fs/extract.rs:402-432 | A link is kept exactly when its target is accepted by text, its place is free and it then resolves inside, dangles or runs out of links; the tree afterwards is the one with the link in it |
| Extract.TargetExactly | src/fs/extract.rs:416-452 | A target in the header is taken as it is, one in the stream without the line ends and zeros after it |
| Extract.JoinedIsSplit | src/fs/safe_path.rs:35-63 | Plain names joined by slashes are split into themselves |
| Extract.Extractor.Finish | src/fs/extract.rs:325-340 | Succeeds exactly when every created link still resolves inside, dangles or runs out of links; no name then leads outside if and only if none of the last kind climbs deeper than where it stands; on failure the offending link is gone |
| Extract.Extractor.Copy | src/fs/extract.rs:374-376 | What is written is the stream, or one byte more than declared |
| Extract.SettlesExactly | src/fs/extract.rs:111-140 | Reserving and settling charges exactly the bytes written if and only if the reservation did not saturate |
| Extract.Budget.Reserve | src/fs/extract.rs:111-132 | Refuses exactly what breaks a ceiling, and names the ceiling |
| Extract.Reporter.Advance | src/fs/extract.rs:184-191 | Reported counts never go back and never get ahead |
| ExtractRoot.ExtractRoot.CreateDir | src/fs/extract_root.rs:63-77 | Tree and answer are those of the uncached recursive mkdir every time; the cache stays closed under ancestors and true |
| ExtractRoot.StopsAtTheFirst | src/fs/extract_root.rs:70-74 | Stopping at the first known ancestor loses nothing |
| ExtractRoot.MakeAllMakes | src/fs/extract_root.rs:80-106 | The recursive mkdir leaves a directory at the path, through links, and changes nothing else |
| ExtractRoot.MadeExactly | src/fs/extract_root.rs:80-106 | The recursive mkdir succeeds exactly when some front of the path leads to a directory and what is next there is missing, if anything is |
| ExtractRoot.MakeAllIs | src/fs/extract_root.rs:80-106 | And then it makes exactly the missing directories, one in the other |
| ExtractRoot.FileMadeExactly | src/fs/extract_root.rs:111-132 | A file that is there is opened, a free place gets one, a dangling link gets one where it leads, and a directory, a loop, a way outside or to nowhere is refused |
| ExtractRoot.MakeAllKeepsContained | src/fs/extract_root.rs:80-106 | Creating directories leaves every link contained |
| ExtractRoot.LinkIsMade | src/fs/extract_root.rs:154-171 | A link stands, with its target, in the directory its path leads to, and all links stay contained exactly when it climbs no deeper than that |
| ExtractRoot.FileIsMade | src/fs/extract_root.rs:111-132 | A file is where its path leads, through links too, and all links stay contained |
| ExtractRoot.MissingPlace | src/fs/extract_root.rs:111-132 | A dangling path names a place in a directory, and a file created there is where the path then leads |
| ExtractRoot.ExtractRoot.CreateSymlink | src/fs/extract_root.rs:154-171 | The link stands, with its target, in the directory its path leads to; anything in its place already refuses it |
| ExtractRoot.StillADirectory | src/fs/extract_root.rs:27-33 | What once led to a directory still does, whatever is added |
| ExtractRoot.AncestorsAreDirectories | src/fs/extract_root.rs:69-74 | Every ancestor of a path that leads to a directory does too |
| ExtractRoot.ExtractRoot.CreateFile | src/fs/extract_root.rs:111-132 | The entry is a regular file afterwards, its parents made, created through a dangling link if need be, everything else unchanged; what is no file, or leads outside or nowhere, is refused |
| ExtractRoot.ExtractRoot.VerifySymlink | src/fs/extract_root.rs:181-193 | A link is left exactly when it resolves inside, dangles or runs out of links, and otherwise removed |
| Container.ChildrenOfLaid | src/image/container.rs:207-243 | Walking any concatenation of boxes with 32-bit, 64-bit or open sizes gives back exactly those boxes (section 4.2 of ISO/IEC 14496-12) |
| Container.NextBox | src/image/container.rs:207-233 | An accepted box consumes at least 8 bytes; only nothing is the end |
| Container.WalkChildren | src/image/container.rs:236-243 | The loop collects the boxes of the recursive walk, or none |
| Container.HeaderReadBack | src/image/container.rs:207-233 | A header states its own extent in each of its three forms |
| Endian.BeRoundTrip | src/image/container.rs:249-251 | Big-endian encoding is inverted by reading |
| Associations.Associations | src/image/container.rs:126-162 | The lookup loop finds the first entry of the item, and looks at no more entries than the length has room for, whatever the table claims |
| Associations.RoundTrip | src/image/container.rs:126-162 | On an encoded table the lookup returns the item's indices, essential marks masked off, for both id and both index widths |
| Associations.MaskedRoundTrip | src/image/container.rs:148-156 | Masking gives back the indices |
| ColorProfile.PrefixIsEnough | src/image/container.rs:36-94 | Once the walk decides on a prefix, every extension gets the same answer, unless it rested on a `meta` box of no stated size |
| ColorProfile.MetaOnMore | src/image/container.rs:80-89 | The `meta` found in a prefix is the one found in every extension, longer only if its size is open |
| ColorProfile.ChunksOnMore | src/image/container.rs:45-61 | A decided chunk walk is not changed by more bytes |
| ColorProfile.WalkWebP | src/image/container.rs:36-62 | The loop with its first-chunk flag is the recursive walk |
| WebPFile.ProfileReadBack | src/image/container.rs:36-62 | An extended file that says it has a profile has that of its second chunk, whatever its length and whatever follows, and none when that is no profile |
| WebPFile.NotDeclared | src/image/container.rs:47-53 | One that does not say so has none, whatever follows |
| WebPFile.FirstDecides | src/image/container.rs:45-61 | A file that starts with image data has none, and one that starts with a profile has that |
| WebPFile.CutProfileRunsOut | src/image/container.rs:45-57 | As long as the profile has not all arrived nothing is decided |
| WebPFile.NextLaidChunk | src/image/container.rs:64-77 | A chunk is read back whatever its length, padding passed over |
| ColorProfile.WalkIsoBmff | src/image/container.rs:80-94 | The loop is the recursive walk |
| DescribedFile.ProfileReadBack | src/image/container.rs:80-124 | For a file laid out as the standard says, whatever precedes and follows `meta`, the profile is that of the primary item's associated color properties |
| DescribedFile.PrimaryColrReadBack | src/image/container.rs:97-124 | Exactly the primary item's `colr` properties are found, in the order associated |
| DescribedFile.PickOne | src/image/container.rs:112-124 | Indices count from one, and pick `colr` properties only |
| DescribedFile.PickConcat | src/image/container.rs:112-124 | In the order given |
| DescribedFile.CollectConcat | src/image/container.rs:112-124 | The association tables are taken in turn, and one that cannot be read spoils them all |
| DescribedFile.CollectOne | src/image/container.rs:112-124 | Each gives what its indices pick |
| DescribedFile.EmbeddedWins | src/image/container.rs:166-174 | The first embedded profile is described, whatever coded descriptions stand before it |
| DescribedFile.CodedIsNamed | src/image/container.rs:166-178 | Without one the first coded description is named, by its two numbers |
| DescribedFile.NothingIsNamed | src/image/container.rs:166-178 | Without either there is no name |
| DescribedFile.NamesExactly | src/image/container.rs:180-205 | The names of coded descriptions (ITU-T H.273) |
| DescribedFile.CodesSpell | src/image/container.rs:36-178 | The types are spelled as the standards spell them |
| ColorProfile.MetaStandsExactly | src/image/container.rs:80-94 | The `meta` found in a prefix is the one found in every extension if and only if its size is stated |
| ColorProfile.NameStandsExactly | src/image/container.rs:80-124 | A prefix that names a profile names the same on every extension if and only if its `meta` states its size or ends in a box that states none; otherwise one byte more hides the profile |
| ColorProfile.ChildrenOnMore | src/image/container.rs:207-243 | More bytes lengthen the last box when that is open, and have to be boxes themselves when it is not |
| DescribedFile.OpenMetaMisleads | src/image/container.rs:216-218 | A prefix ending inside an open `meta` is taken to declare nothing, though the file declares a profile |
| ProbeFile.ProbeFile | src/image/probe_file.rs:45-84 | Prefix first and the rest only if needed gives the answer of the whole input up to the cap, for a stable codec and no open `meta` in the prefix; it gives up only when a read fails |
| ProbeFile.Reader.ReadRestBounded | src/image/probe_file.rs:89-94 | What is held afterwards is the file up to the cap |
| Fibonacci.ClosedFormIsFibonacci | src/fetch/retry.rs:134-140 | Rounding Binet's formula over exact reals gives the Fibonacci number for every n |
| Fibonacci.Binet | src/fetch/retry.rs:134-140 | Powers of two golden numbers differ by the Fibonacci numbers of their difference |
| Retry.WithFibonacciBackoff | src/fetch/retry.rs:76-104 | At most retries + 1 attempts; the wait before each retry is that attempt's own Retry-After or the Fibonacci number, capped; the sleeps total at most 60 s a retry; the result is the last attempt's |
| Retry.SecondsAreWaited | src/fetch/retry.rs:46-65 | A number in a Retry-After is that many seconds, on a 429 or 503 and on nothing else |
| Retry.DatesAreWaitedFor | src/fetch/retry.rs:59-68 | A date is waited for, and a past one is no wait |
| Retry.CapTakesOver | src/fetch/retry.rs:13-19 | The schedule is exact up to 55 s and the cap from the tenth wait on |
| Retry.WaitsInNumbers | src/fetch/retry.rs:86-100 | One second, two, three, five, eight, never more than sixty; a wait that was asked for, up to that |
| Retry.RetryAfter.Take | src/fetch/retry.rs:37-39 | A hint is used once |
| Links.RoundTrip | src/fetch/response.rs:66-92 | Scanning a rendered header gives back its targets in order, commas included (section 3 of RFC 8288) |
| Links.EveryTargetIsBracketed | src/fetch/response.rs:66-92 | Every yielded target lies strictly between a `<` and the next `>` |
| Links.Scanner.Next | src/fetch/response.rs:69-91 | The iterator yields the specified links one by one and then none |
| Links.FindLink | src/fetch/response.rs:50-57 | Over all header values the first link declaring the relation is found |
| Links.DeclaresExactly | src/fetch/response.rs:97-113 | A list of types declares each of them, in either case, and nothing else |
| Links.BareValueIsRead | src/fetch/response.rs:97-113 | A bare value is read as a quoted one is, under a name in either case, with another link after it or not |
| Links.FindsFirstDeclaring | src/fetch/response.rs:50-57 | On a rendered header whose links all read as meant, the first link whose parameters declare the relation is found |
| Links.HasRelExactly | src/fetch/response.rs:97-113 | Rendered parameters are read to declare exactly what some `rel` value declares up to its first `;`, and what any piece of any value after a `;` declares as a parameter of its own |
| Links.ReadsAsMeantExactly | src/fetch/response.rs:97-113 | A link is found under exactly the relation types it declares if and only if none of those holds a `;` and no other value goes on after a `;` with a relation type it does not declare |
| Links.WithoutSemicolons | src/fetch/response.rs:97-113 | Links whose values hold no `;` read as meant |
| Links.SemicolonMisses | src/fetch/response.rs:97-113 | A relation type that holds a `;` is never found, whatever declares it |
| Links.SemicolonMisleads | src/fetch/response.rs:97-113 | A quoted value of a parameter other than `rel`, going on with `; rel=` after a semicolon, makes its link found under a relation it does not declare |

## Left out

- HTTP itself, TLS, proxies, redirects and client building: an answer is a value, an attempt a function of what was asked.
- Deferred writes of asynchronous files: a write either reached the disk when its call returned or it failed.
- Two downloads to one path at the same time, and files other programs change.
- Durability across power loss: `sync_all` is not told apart from a flush.
- The JSON text of sidecars and markers: a torn or foreign one is a value that does not parse.
- Sizes past 64 bits in the downloader and the walker: they are unbounded, except in the extraction budget, which saturates.
- Download.Transfer.StreamToFile: does not model the time slept between attempts, which `Retry.WithFibonacciBackoff` states on its own.
- Progress fractions, watch channels and timing: whether an interval has elapsed is arbitrary.
- Flight.InFlight.Publish: does not model a panic inside a waker, nor the condition variable, which the machine's `NotifyAll` and `WakeForNothing` steps are.
- Flight.Guard.Drop: does not model two locks as two steps, which `FlightMachine` does with `Drop` and `Release`.
- Encoding of cached values, key building and the computation itself.
- Tiers.MemoryIsInvisible: does not model a wall clock that jumps against the monotonic one, nor disk failures, under which `CompositeStore` states each operation's new state but not agreement.
- Durability cadence, compaction, the store registry, and the weigher's limit of 32 bits in the memory tier.
- InstallMachine.MarkersAlwaysSafe: does not model the staging folder's downloads, the pending marker file or the lock files, which are never part of a folder's entries; a directory is moved and removed entry by entry, which only adds points to stop at.
- InstallMachine.StepKeepsInv: takes from `VerifiedFetch` that what is extracted is the archive whose hash was published; a process's `archive` is that.
- InstallMachine.IntactInstallIsUsed: does not model the further check that a runtime dependency's library is found.
- Planning, listing, events and the installer for loose files (`src/ai/install/files.rs`).
- Links on Windows, file and directory modes, and the anchored resolver: the tree's own resolution stands for it.
- Extract.Extractor.Visit: does not model which error a refused path is reported as, nor the archive formats' own loops.
- ICC text, which is an arbitrary function of the profile's bytes, and the codecs, which are arbitrary functions of the input.
- Native image formats, which are read through a seeking decoder.
- Fibonacci.ClosedFormIsFibonacci: does not model the rounding of 64-bit floating point, only the formula over the reals.
- Links.FindsFirstDeclaring: holds for the links `ReadsAsMeantExactly` characterises; values that hold a quote, and names that hold `=` or `;`, are not modelled.
- ColorProfile.NameStandsExactly: leaves out a `meta` that ends in the very box the properties are read from, with no size stated for either, where the answer rests on that box's own last box.
- Extract.EscapesExactly: takes a tree to start from whose links are contained and whose directories have plain names, such as an empty one; of what was there before, nothing is re-checked.
- Install.Installer.InstallOne: follows a run until it would wait for a locked folder any longer, or take the lock on one in which a dropped install still unpacks, where `InstallDrops` says what may happen; the process that runs it is not dropped itself.
- Extract.Extractor.VisitSymlink: measures a target from the stream in characters, where the code counts bytes.
- InstallDrops.RunIsSafeExactly: takes the archives to be told apart by their hashes and to hold something.
- ONNX sessions, GPU probing, providers, image resampling, GitHub client, temporary files, trash, logging and macros.

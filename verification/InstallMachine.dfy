/** Any number of processes installing versions of one dependency under one root, each of which may stop at any step
    (src/ai/install.rs, src/ai/install/lock.rs, src/ai/install/marker.rs). */
module InstallMachine {
  import opened Wrappers

  type Files = map<string, seq<byte>>

  /** What the server published: its verified hash, its size, and the files it unpacks to. */
  datatype Archive = Archive(hash: string, size: nat, files: Files)

  /** The marker: whose archive, and every file's size. */
  datatype Marker = Marker(hash: string, size: nat, files: map<string, nat>)

  /** A version's folder: its marker, its entries but the installer's own, and the extraction folder in staging. */
  datatype Folder = Folder(marker: Option<Marker>, entries: Files, staged: Files)

  function Sizes(entries: Files): map<string, nat> {
    map name <- entries :: |entries[name]|
  }

  /** The marker records at least one entry, and the folder still has each of them with the size it recorded. */
  predicate IsIntact(f: Folder) {
    && f.marker.Some? && f.marker.value.files != map[]
    && forall name <- f.marker.value.files :: name in f.entries && |f.entries[name]| == f.marker.value.files[name]
  }

  datatype Stage =
    | Waiting
    | Checking
    | Fetching
    | Clearing
    | Extracting(done: set<string>)
    | Replacing
    | Emptying
    | Moving
    | Recording
    | Writing(files: map<string, nat>)
    | Cleaning(todo: set<string>)
    | Sweeping(other: string, unmarked: bool, todo: set<string>)
    | Ended(outcome: Outcome)

  datatype Outcome = Current | Installed | Stopped

  /** A process installing `archive` as `version`. `detached`: its install was dropped while file work was running, which
      released the folder's lock and left the work to run to its end. */
  datatype Process = Process(version: string, archive: Archive, stage: Stage, detached: bool)

  /** `published`: every archive that was ever installed here or is being installed, whose hashes tell them apart. */
  datatype State = State(
    folders: map<string, Folder>, locks: map<string, nat>, processes: seq<Process>, published: set<Archive>)

  datatype Event =
    | Acquire(who: nat)
    | Check(who: nat)
    | Fetched(who: nat)
    | Clear(who: nat)
    | Extract(who: nat, name: string)
    | Extracted(who: nat)
    | DeleteMarker(who: nat)
    | RemoveEntry(who: nat, name: string)
    | Emptied(who: nat)
    | Move(who: nat, name: string)
    | Moved(who: nat)
    | Record(who: nat)
    | Write(who: nat)
    | TryLock(who: nat, other: string)
    | SweepMarker(who: nat)
    | SweepEntry(who: nat, name: string)
    | Swept(who: nat)
    | GiveUp(who: nat)
    | Finish(who: nat)
    | Stop(who: nat)
    | Drop(who: nat)

  const NO_FOLDER: Folder := Folder(None, map[], map[])

  function FolderOf(s: State, version: string): Folder {
    if version in s.folders then s.folders[version] else NO_FOLDER
  }

  /** The locks a process holds. */
  predicate Holds(p: Process, version: string) {
    || (version == p.version && !p.stage.Waiting? && !p.stage.Ended? && !p.detached)
    || (p.stage.Sweeping? && p.stage.other == version)
  }

  /** File work that runs to its end on a blocking thread. */
  predicate IsFileWork(stage: Stage) {
    !stage.Waiting? && !stage.Checking? && !stage.Fetching? && !stage.Ended?
  }

  /** File work that ends with the marker: a dropped install does it to the end without the lock. */
  predicate IsUnpacking(stage: Stage) {
    || stage.Clearing? || stage.Extracting? || stage.Replacing? || stage.Emptying? || stage.Moving? || stage.Recording?
    || stage.Writing?
  }

  /** The folders a process is at work in: those it holds locked, and its own while a dropped install unpacks on. */
  predicate Guards(p: Process, version: string) {
    Holds(p, version) || (p.detached && version == p.version && IsUnpacking(p.stage))
  }

  predicate Enabled(s: State, e: Event) {
    && e.who < |s.processes|
    && var p := s.processes[e.who]; var f := FolderOf(s, p.version);
       match e
       case Acquire(_) => p.stage.Waiting? && p.version !in s.locks
       case Check(_) => p.stage.Checking?
       case Fetched(_) => p.stage.Fetching?
       case Clear(_) => p.stage.Clearing?
       case Extract(_, name) => p.stage.Extracting? && name in p.archive.files && name !in p.stage.done
       case Extracted(_) => p.stage.Extracting? && p.stage.done == p.archive.files.Keys
       case DeleteMarker(_) => p.stage.Replacing?
       case RemoveEntry(_, name) => p.stage.Emptying? && name in f.entries
       case Emptied(_) => p.stage.Emptying? && f.entries == map[]
       case Move(_, name) => p.stage.Moving? && name in f.staged
       case Moved(_) => p.stage.Moving? && f.staged == map[]
       case Record(_) => p.stage.Recording?
       case Write(_) => p.stage.Writing?
       case TryLock(_, other) => p.stage.Cleaning? && other in p.stage.todo
       case SweepMarker(_) => p.stage.Sweeping? && !p.stage.unmarked
       case SweepEntry(_, name) => p.stage.Sweeping? && p.stage.unmarked && name in FolderOf(s, p.stage.other).entries
       case Swept(_) => p.stage.Sweeping? && p.stage.unmarked && FolderOf(s, p.stage.other).entries == map[]
       case GiveUp(_) => p.stage.Sweeping?
       case Finish(_) => p.stage.Cleaning? && p.stage.todo == {}
       case Stop(_) => !p.stage.Ended?
       case Drop(_) => IsFileWork(p.stage) && !p.detached
  }

  function Goto(s: State, who: nat, stage: Stage): (t: State)
    requires who < |s.processes|
    ensures |t.processes| == |s.processes| && forall i :: 0 <= i < |s.processes| && i != who ==> t.processes[i] == s.processes[i]
    ensures t.folders == s.folders && t.locks == s.locks && t.published == s.published
  {
    s.(processes := s.processes[who := s.processes[who].(stage := stage)])
  }

  function Put(s: State, version: string, f: Folder): (t: State)
    ensures t.processes == s.processes && t.locks == s.locks && t.published == s.published
  {
    s.(folders := s.folders[version := f])
  }

  function Unlock(s: State, who: nat, version: string): (t: State)
    ensures t.processes == s.processes && t.folders == s.folders && t.published == s.published
  {
    if version in s.locks && s.locks[version] == who then s.(locks := s.locks - {version}) else s
  }

  function UnlockAll(s: State, who: nat): (t: State)
    ensures t.processes == s.processes && t.folders == s.folders && t.published == s.published
  {
    s.(locks := map v <- s.locks | s.locks[v] != who :: s.locks[v])
  }

  function Apply(s: State, e: Event): State
    requires Enabled(s, e)
  {
    var who := e.who;
    var p := s.processes[who];
    var f := FolderOf(s, p.version);
    match e
    case Acquire(_) => Goto(Put(s.(locks := s.locks[p.version := who]), p.version, f), who, Checking)
    case Check(_) =>
      if IsIntact(f) then Goto(Unlock(s, who, p.version), who, Ended(Current)) else Goto(s, who, Fetching)
    case Fetched(_) => Goto(s, who, Clearing)
    case Clear(_) => Goto(Put(s, p.version, f.(staged := map[])), who, Extracting({}))
    case Extract(_, name) =>
      Goto(Put(s, p.version, f.(staged := f.staged[name := p.archive.files[name]])), who,
           Extracting(p.stage.done + {name}))
    case Extracted(_) => Goto(s, who, Replacing)
    case DeleteMarker(_) => Goto(Put(s, p.version, f.(marker := None)), who, Emptying)
    case RemoveEntry(_, name) => Put(s, p.version, f.(entries := f.entries - {name}))
    case Emptied(_) => Goto(s, who, Moving)
    case Move(_, name) =>
      Put(s, p.version, f.(entries := f.entries[name := f.staged[name]], staged := f.staged - {name}))
    case Moved(_) => Goto(s, who, Recording)
    case Record(_) => Goto(s, who, Writing(Sizes(f.entries)))
    case Write(_) =>
      Goto(Put(s, p.version, f.(marker := Some(Marker(p.archive.hash, p.archive.size, p.stage.files)))), who,
           if p.detached then Ended(Stopped) else Cleaning(s.folders.Keys - {p.version}))
    case TryLock(_, other) =>
      if other in s.locks then Goto(s, who, Cleaning(p.stage.todo - {other}))
      else Goto(s.(locks := s.locks[other := who]), who, Sweeping(other, false, p.stage.todo - {other}))
    case SweepMarker(_) =>
      Goto(Put(s, p.stage.other, FolderOf(s, p.stage.other).(marker := None)), who, p.stage.(unmarked := true))
    case SweepEntry(_, name) =>
      var o := FolderOf(s, p.stage.other);
      Put(s, p.stage.other, o.(entries := o.entries - {name}))
    case Swept(_) =>
      Goto(Unlock(s.(folders := s.folders - {p.stage.other}), who, p.stage.other), who, Cleaning(p.stage.todo))
    case GiveUp(_) => Goto(Unlock(s, who, p.stage.other), who, Cleaning(p.stage.todo))
    case Finish(_) => Goto(Unlock(s, who, p.version), who, Ended(if p.detached then Stopped else Installed))
    case Stop(_) => Goto(UnlockAll(s, who), who, Ended(Stopped))
    case Drop(_) =>
      Unlock(s, who, p.version).(processes := s.processes[who := p.(detached := true)])
  }

  /** The step takes the lock on `version`. */
  predicate Takes(s: State, e: Event, version: string)
    requires e.who < |s.processes|
  {
    version !in s.locks && ((e.Acquire? && version == s.processes[e.who].version) || (e.TryLock? && version == e.other))
  }

  /** The step takes the lock on a folder in which a dropped install still unpacks. */
  predicate Disturbs(s: State, e: Event)
    requires e.who < |s.processes|
  {
    exists i :: 0 <= i < |s.processes| && i != e.who && s.processes[i].detached && IsUnpacking(s.processes[i].stage) &&
                Takes(s, e, s.processes[i].version)
  }

  /** No step of the run takes the lock on a folder in which a dropped install still unpacks. */
  ghost predicate Undisturbed(s: State, events: seq<Event>)
    decreases |events|
  {
    events != [] && Enabled(s, events[0]) ==> !Disturbs(s, events[0]) && Undisturbed(Apply(s, events[0]), events[1..])
  }

  /** `events`, one after the other, lead from `s` to `t`. */
  ghost predicate Runs(s: State, events: seq<Event>, t: State)
    decreases |events|
  {
    if events == [] then s == t else Enabled(s, events[0]) && Runs(Apply(s, events[0]), events[1..], t)
  }

  lemma {:induction false} ThenStep(s: State, events: seq<Event>, m: State, e: Event, t: State)
    requires Runs(s, events, m) && Enabled(m, e) && Apply(m, e) == t
    ensures Runs(s, events + [e], t)
    decreases |events|
  {
    hide Enabled, Apply;
    var more := events + [e];
    if events == [] {
      assert Runs(t, [], t) && more[1..] == [];
    } else {
      ThenStep(Apply(s, events[0]), events[1..], m, e, t);
      assert more[0] == events[0] && more[1..] == events[1..] + [e];
    }
  }

  lemma {:induction false} ThenRun(s: State, events: seq<Event>, m: State, more: seq<Event>, t: State)
    requires Runs(s, events, m) && Runs(m, more, t)
    ensures Runs(s, events + more, t)
    decreases |events|
  {
    hide Enabled, Apply;
    var all := events + more;
    if events == [] {
      assert all == more;
    } else {
      ThenRun(Apply(s, events[0]), events[1..], m, more, t);
      assert all[0] == events[0] && all[1..] == events[1..] + more;
    }
  }

  lemma {:induction false} UndisturbedThenStep(s: State, events: seq<Event>, m: State, e: Event)
    requires Runs(s, events, m) && Undisturbed(s, events) && Enabled(m, e) && !Disturbs(m, e)
    ensures Undisturbed(s, events + [e])
    decreases |events|
  {
    hide Enabled, Apply, Disturbs;
    var more := events + [e];
    if events == [] {
      assert more[0] == e && more[1..] == [];
    } else {
      UndisturbedThenStep(Apply(s, events[0]), events[1..], m, e);
      assert more[0] == events[0] && more[1..] == events[1..] + [e];
    }
  }

  // What a marker stands over.

  /** `f` holds exactly what `a` unpacks to, and its marker says so. */
  predicate StandsOver(f: Folder, a: Archive) {
    f.marker == Some(Marker(a.hash, a.size, Sizes(a.files))) && f.entries == a.files
  }

  /** A marker that is there stands over the complete entry set of one published archive. */
  predicate MarkerSafe(f: Folder, published: set<Archive>) {
    f.marker.Some? ==> exists a <- published :: StandsOver(f, a)
  }

  /** A folder that a marker stands over reads as installed until an entry of it is lost or changes its length, whatever
      else is put beside them; and one without a marker never does. */
  lemma DamageIsSeen(f: Folder, a: Archive, name: string, content: seq<byte>)
    requires StandsOver(f, a) && a.files != map[]
    ensures IsIntact(f)
    ensures name in a.files ==> !IsIntact(f.(entries := f.entries - {name}))
    ensures IsIntact(f.(entries := f.entries[name := content])) <==> (name in a.files ==> |content| == |a.files[name]|)
    ensures !IsIntact(f.(marker := None))
  {
    var some :| some in a.files;
    assert some in Sizes(a.files);
  }

  predicate SameInstall(f: Folder, g: Folder) {
    f.marker == g.marker && f.entries == g.entries
  }

  predicate AllMarkersSafe(s: State) {
    forall v <- s.folders :: MarkerSafe(s.folders[v], s.published)
  }

  ghost predicate LocksOk(s: State) {
    && (forall v <- s.locks :: s.locks[v] < |s.processes| && Holds(s.processes[s.locks[v]], v))
    && (forall i :: 0 <= i < |s.processes| ==>
          forall v :: Holds(s.processes[i], v) ==> v in s.locks && s.locks[v] == i)
  }

  /** What a process knows of the folders it holds locked. */
  predicate StageOk(s: State, i: nat)
    requires i < |s.processes|
  {
    var p := s.processes[i]; var f := FolderOf(s, p.version); var files := p.archive.files;
    && p.archive in s.published
    && (p.detached ==> IsFileWork(p.stage) || p.stage.Ended?)
    && match p.stage
       case Extracting(done) => done <= files.Keys && f.staged == (map name <- done :: files[name])
       case Replacing => f.staged == files
       case Emptying => f.marker == None && f.staged == files
       case Moving => f.marker == None && f.staged.Keys !! f.entries.Keys && f.entries + f.staged == files
       case Recording => f.marker == None && f.entries == files
       case Writing(sizes) => f.marker == None && f.entries == files && sizes == Sizes(files)
       case Cleaning(todo) => p.version !in todo && (p.detached || StandsOver(f, p.archive))
       case Sweeping(other, unmarked, todo) =>
         && other != p.version && p.version !in todo && other !in todo && (p.detached || StandsOver(f, p.archive))
         && (unmarked ==> FolderOf(s, other).marker == None)
       case _ => true
  }

  /** No two processes are at work in one folder. */
  ghost predicate Exclusive(s: State) {
    forall i, j, v :: 0 <= i < |s.processes| && 0 <= j < |s.processes| && i != j && Guards(s.processes[i], v) ==>
                        !Guards(s.processes[j], v)
  }

  ghost predicate Inv(s: State) {
    && AllMarkersSafe(s)
    && LocksOk(s)
    && Exclusive(s)
    && forall i :: 0 <= i < |s.processes| ==> StageOk(s, i)
  }

  /** Only the process at work in a folder changes it: the one that holds its lock, or a dropped install unpacking on. */
  lemma OnlyTheGuardWrites(s: State, e: Event, v: string)
    requires Enabled(s, e) && StageOk(s, e.who) && FolderOf(Apply(s, e), v) != FolderOf(s, v)
    ensures Guards(s.processes[e.who], v)
  {
    hide IsIntact, Sizes, Goto, Unlock, UnlockAll;
  }

  /** A folder changes only under its lock, but for a dropped install's own. */
  lemma OnlyTheHolderWrites(s: State, e: Event, v: string)
    requires Inv(s) && Enabled(s, e) && FolderOf(Apply(s, e), v) != FolderOf(s, v)
    ensures var p := s.processes[e.who];
            || (v in s.locks && s.locks[v] == e.who)
            || (p.detached && v == p.version && IsUnpacking(p.stage))
  {
    OwnStageIsOk(s, e);
    OnlyTheGuardWrites(s, e, v);
    hide AllMarkersSafe, Apply, Enabled, StageOk, FolderOf, Exclusive;
  }

  /** Only `who` moved, and holds what it held, give or take the lock on `v`. */
  ghost predicate Moves(s: State, t: State, who: nat, v: string, takes: bool, releases: bool) {
    && who < |s.processes| && |t.processes| == |s.processes|
    && t.processes == s.processes[who := t.processes[who]]
    && (forall w :: Holds(t.processes[who], w) <==>
                      (Holds(s.processes[who], w) && !(releases && w == v)) || (takes && w == v))
    && (takes ==> v !in s.locks)
    && t.locks == if takes then s.locks[v := who] else if releases then s.locks - {v} else s.locks
  }

  lemma MovesKeepLocks(s: State, t: State, who: nat, v: string, takes: bool, releases: bool)
    requires LocksOk(s) && Moves(s, t, who, v, takes, releases) && !(takes && releases)
    requires releases ==> v in s.locks && s.locks[v] == who
    ensures LocksOk(t)
  {
    hide Holds;
  }

  lemma StopKeepsLocks(s: State, e: Event)
    requires LocksOk(s) && Enabled(s, e) && e.Stop?
    ensures LocksOk(Apply(s, e))
  {
    hide FolderOf;
    assert forall w :: !Holds(Apply(s, e).processes[e.who], w);
  }

  /** Whether a step lets a lock go that its process holds. */
  predicate Releases(s: State, e: Event)
    requires e.who < |s.processes|
  {
    var p := s.processes[e.who];
    || e.Swept? || e.GiveUp? || e.Drop? || (e.Finish? && !p.detached) || (e.Check? && IsIntact(FolderOf(s, p.version)))
  }

  /** The lock a step may take or let go. */
  function LockOf(s: State, e: Event): string
    requires Enabled(s, e)
  {
    if e.TryLock? then e.other
    else if e.Swept? || e.GiveUp? then s.processes[e.who].stage.other
    else s.processes[e.who].version
  }

  lemma TakingMoves(s: State, e: Event)
    requires Enabled(s, e) && (e.Acquire? || e.TryLock?) && StageOk(s, e.who)
    ensures Moves(s, Apply(s, e), e.who, LockOf(s, e), Takes(s, e, LockOf(s, e)), false)
  {
    hide FolderOf, IsIntact, Put, StandsOver;
  }

  lemma ReleasingMoves(s: State, e: Event)
    requires Enabled(s, e) && (e.Swept? || e.GiveUp? || e.Drop? || e.Check? || e.Finish?) && StageOk(s, e.who)
    requires !(e.Check? && !Releases(s, e)) ==>
               (Releases(s, e) <==> LockOf(s, e) in s.locks && s.locks[LockOf(s, e)] == e.who)
    ensures Moves(s, Apply(s, e), e.who, LockOf(s, e), false, Releases(s, e))
  {
    hide FolderOf, IsIntact, Put, StandsOver;
  }

  lemma OtherMoves(s: State, e: Event)
    requires Enabled(s, e) && StageOk(s, e.who)
    requires !(e.Acquire? || e.TryLock? || e.Swept? || e.GiveUp? || e.Drop? || e.Check? || e.Finish? || e.Stop?)
    ensures Moves(s, Apply(s, e), e.who, LockOf(s, e), false, false)
  {
    hide FolderOf, IsIntact, Put, StandsOver, Sizes;
  }

  /** Every step but a stop takes one lock, lets one go, or neither. */
  lemma StepMoves(s: State, e: Event)
    requires Enabled(s, e) && !e.Stop? && StageOk(s, e.who) && LocksOk(s)
    ensures var v := LockOf(s, e);
            && Moves(s, Apply(s, e), e.who, v, Takes(s, e, v), Releases(s, e))
            && !(Takes(s, e, v) && Releases(s, e))
            && (Releases(s, e) ==> v in s.locks && s.locks[v] == e.who)
  {
    var v, p := LockOf(s, e), s.processes[e.who];
    assert Holds(p, v) <==> v in s.locks && s.locks[v] == e.who;
    assert Releases(s, e) ==> Holds(p, v);
    hide FolderOf, IsIntact, Sizes, LocksOk, Moves, StageOk;
    if e.Acquire? || e.TryLock? {
      TakingMoves(s, e);
    } else if e.Swept? || e.GiveUp? || e.Drop? || e.Check? || e.Finish? {
      ReleasingMoves(s, e);
    } else {
      OtherMoves(s, e);
    }
  }

  lemma LocksStayOk(s: State, e: Event)
    requires Inv(s) && Enabled(s, e)
    ensures LocksOk(Apply(s, e))
  {
    hide AllMarkersSafe, Apply, Enabled, IsIntact, Moves, FolderOf, LocksOk, Exclusive, StageOk, Takes, Releases, LockOf;
    OwnStageIsOk(s, e);
    if e.Stop? {
      StopKeepsLocks(s, e);
    } else {
      StepMoves(s, e);
      var v := LockOf(s, e);
      MovesKeepLocks(s, Apply(s, e), e.who, v, Takes(s, e, v), Releases(s, e));
    }
  }

  lemma OwnStageIsOk(s: State, e: Event)
    requires Inv(s) && Enabled(s, e)
    ensures e.who < |s.processes| && StageOk(s, e.who)
  {
    hide AllMarkersSafe, LocksOk, Exclusive, StageOk;
  }

  lemma TakingGuards(s: State, e: Event, v: string)
    requires Enabled(s, e) && StageOk(s, e.who) && (e.Acquire? || e.TryLock?)
    ensures e.who < |Apply(s, e).processes|
    ensures Guards(Apply(s, e).processes[e.who], v) ==> Guards(s.processes[e.who], v) || Takes(s, e, v)
  {
    hide FolderOf, IsIntact, Sizes, Put, StandsOver;
  }

  lemma OthersGuardNoMore(s: State, e: Event, v: string)
    requires Enabled(s, e) && StageOk(s, e.who) && !e.Acquire? && !e.TryLock?
    ensures e.who < |Apply(s, e).processes|
    ensures Guards(Apply(s, e).processes[e.who], v) ==> Guards(s.processes[e.who], v)
  {
    hide FolderOf, IsIntact, Sizes, Unlock, UnlockAll, Put, StandsOver;
  }

  /** A process comes to be at work in a folder only by taking its lock. */
  lemma GuardsComeFromLocks(s: State, e: Event, v: string)
    requires Enabled(s, e) && StageOk(s, e.who)
    ensures e.who < |Apply(s, e).processes|
    ensures Guards(Apply(s, e).processes[e.who], v) ==> Guards(s.processes[e.who], v) || Takes(s, e, v)
  {
    hide Enabled, Apply, Guards, StageOk, Takes;
    if e.Acquire? || e.TryLock? {
      TakingGuards(s, e, v);
    } else {
      OthersGuardNoMore(s, e, v);
    }
  }

  lemma TakenWasFree(s: State, e: Event, j: nat, v: string)
    requires LocksOk(s) && e.who < |s.processes| && j < |s.processes| && j != e.who
    requires !Disturbs(s, e) && Takes(s, e, v)
    ensures !Guards(s.processes[j], v)
  {
  }

  lemma ExclusiveStays(s: State, e: Event)
    requires Inv(s) && Enabled(s, e) && !Disturbs(s, e)
    ensures Exclusive(Apply(s, e))
  {
    OwnStageIsOk(s, e);
    SameProcesses(s, e);
    var t := Apply(s, e);
    hide Apply, Enabled, AllMarkersSafe, StageOk, Guards, Takes, Disturbs;
    forall i, j, v | 0 <= i < |t.processes| && 0 <= j < |t.processes| && i != j && Guards(t.processes[i], v)
      ensures !Guards(t.processes[j], v)
    {
      GuardsComeFromLocks(s, e, v);
      if j != e.who {
        OthersStandStill(s, e, j);
        if i == e.who && Takes(s, e, v) {
          TakenWasFree(s, e, j, v);
        }
      }
      if i != e.who {
        OthersStandStill(s, e, i);
        if j == e.who && Takes(s, e, v) {
          TakenWasFree(s, e, i, v);
        }
      }
    }
  }

  /** `f` is gone, unmarked, or marked as before over the same entries. */
  predicate KeepsOrUnmarks(s: State, t: State, v: string)
    requires v in t.folders
  {
    t.folders[v].marker.None? || (v in s.folders && SameInstall(t.folders[v], s.folders[v]))
  }

  lemma EntriesGoUnmarked(s: State, e: Event, v: string)
    requires Enabled(s, e) && StageOk(s, e.who) && v in Apply(s, e).folders
    requires e.RemoveEntry? || e.Move? || e.SweepEntry? || e.Swept?
    ensures Apply(s, e).published == s.published && KeepsOrUnmarks(s, Apply(s, e), v)
  {
    hide IsIntact, Sizes;
  }

  lemma OthersKeepEntries(s: State, e: Event, v: string)
    requires Enabled(s, e) && v in Apply(s, e).folders
    requires !e.RemoveEntry? && !e.Move? && !e.SweepEntry? && !e.Swept?
    requires e.Write? ==> v != s.processes[e.who].version
    ensures Apply(s, e).published == s.published && KeepsOrUnmarks(s, Apply(s, e), v)
  {
    hide IsIntact, Sizes;
  }

  lemma MarkersStaySafe(s: State, e: Event)
    requires Inv(s) && Enabled(s, e)
    ensures AllMarkersSafe(Apply(s, e))
  {
    hide LocksOk, Exclusive;
    assert StageOk(s, e.who);
    var p, t := s.processes[e.who], Apply(s, e);
    forall v <- t.folders ensures MarkerSafe(t.folders[v], t.published) {
      if e.Write? && v == p.version {
        assert StandsOver(t.folders[v], p.archive);
      } else {
        hide Apply, Enabled, StageOk;
        if e.RemoveEntry? || e.Move? || e.SweepEntry? || e.Swept? {
          EntriesGoUnmarked(s, e, v);
        } else {
          OthersKeepEntries(s, e, v);
        }
        if t.folders[v].marker.Some? {
          var a :| a in s.published && StandsOver(s.folders[v], a);
          assert StandsOver(t.folders[v], a);
        }
      }
    }
  }

  /** What a process knows of the folders it is at work in depends on nothing else. */
  lemma StageRestsOnGuarded(s: State, t: State, i: nat)
    requires i < |s.processes| && i < |t.processes| && t.processes[i] == s.processes[i] && t.published == s.published
    requires forall v :: Guards(s.processes[i], v) ==> FolderOf(t, v) == FolderOf(s, v)
    requires StageOk(s, i)
    ensures StageOk(t, i)
  {
    var p := s.processes[i];
    assert IsUnpacking(p.stage) || ((p.stage.Cleaning? || p.stage.Sweeping?) && !p.detached) ==> Guards(p, p.version);
    assert p.stage.Sweeping? ==> Guards(p, p.stage.other);
    hide FolderOf, StandsOver, Sizes, Guards;
  }

  lemma OthersStagesStayOk(s: State, e: Event, i: nat)
    requires Inv(s) && Enabled(s, e) && i < |s.processes| && i != e.who
    ensures StageOk(Apply(s, e), i)
  {
    OwnStageIsOk(s, e);
    OthersStandStill(s, e, i);
    hide Apply, Enabled, AllMarkersSafe, StageOk, Guards, FolderOf, LocksOk;
    assert StageOk(s, i);
    forall v | Guards(s.processes[i], v) ensures FolderOf(Apply(s, e), v) == FolderOf(s, v) {
      if FolderOf(Apply(s, e), v) != FolderOf(s, v) {
        OnlyTheGuardWrites(s, e, v);
        assert false;
      }
    }
    StageRestsOnGuarded(s, Apply(s, e), i);
  }

  lemma OthersStandStill(s: State, e: Event, i: nat)
    requires Enabled(s, e) && i < |s.processes| && i != e.who
    ensures |Apply(s, e).processes| == |s.processes| && Apply(s, e).processes[i] == s.processes[i]
    ensures Apply(s, e).published == s.published
  {
    hide FolderOf, IsIntact, Sizes, Goto, Put, Unlock, UnlockAll;
  }

  /** Up to the deletion of the marker: the extraction folder fills up with the archive's files. */
  lemma ExtractionStaysOk(s: State, e: Event)
    requires Enabled(s, e) && StageOk(s, e.who) && (e.Clear? || e.Extract? || e.Extracted?)
    ensures StageOk(Apply(s, e), e.who)
  {
    var p := s.processes[e.who];
    if e.Extracted? {
      assert FolderOf(s, p.version).staged == p.archive.files;
    }
  }

  /** From there to the marker: out with the old entries, in with the new, none lost on the way. */
  lemma ReplacementStaysOk(s: State, e: Event)
    requires Enabled(s, e) && StageOk(s, e.who) && (e.DeleteMarker? || e.RemoveEntry? || e.Emptied?)
    ensures StageOk(Apply(s, e), e.who)
  {
    hide IsIntact, Sizes, StandsOver;
    var p, f := s.processes[e.who], FolderOf(s, s.processes[e.who].version);
    if e.Emptied? {
      assert f.entries + f.staged == p.archive.files;
    }
  }

  /** The marker records, and is written over, exactly the archive. */
  lemma RecordingStaysOk(s: State, e: Event)
    requires Enabled(s, e) && StageOk(s, e.who) && (e.Record? || e.Write?)
    ensures StageOk(Apply(s, e), e.who)
  {
    hide IsIntact, Sizes;
  }

  lemma MovingStaysOk(s: State, e: Event)
    requires Enabled(s, e) && StageOk(s, e.who) && (e.Move? || e.Moved?)
    ensures StageOk(Apply(s, e), e.who)
  {
    hide AllMarkersSafe;
    var p, t := s.processes[e.who], Apply(s, e);
    var f, g := FolderOf(s, p.version), FolderOf(t, p.version);
    if e.Moved? {
      assert g.entries == g.entries + g.staged;
    } else {
      assert g.entries + g.staged == f.entries + f.staged;
    }
  }

  lemma SweepingStaysOk(s: State, e: Event)
    requires Enabled(s, e) && StageOk(s, e.who)
    requires e.TryLock? || e.SweepMarker? || e.SweepEntry? || e.Swept? || e.GiveUp?
    ensures StageOk(Apply(s, e), e.who)
  {
    hide IsIntact, Sizes, StandsOver;
  }

  lemma LocksStepsStayOk(s: State, e: Event)
    requires Enabled(s, e) && StageOk(s, e.who)
    requires e.Acquire? || e.Check? || e.Fetched? || e.Finish? || e.Stop? || e.Drop?
    ensures StageOk(Apply(s, e), e.who)
  {
    hide IsIntact, Sizes, StandsOver;
  }

  lemma OwnStageStaysOk(s: State, e: Event)
    requires Inv(s) && Enabled(s, e)
    ensures StageOk(Apply(s, e), e.who)
  {
    OwnStageIsOk(s, e);
    hide *;
    if e.Clear? || e.Extract? || e.Extracted? {
      ExtractionStaysOk(s, e);
    } else if e.DeleteMarker? || e.RemoveEntry? || e.Emptied? {
      ReplacementStaysOk(s, e);
    } else if e.Record? || e.Write? {
      RecordingStaysOk(s, e);
    } else if e.Move? || e.Moved? {
      MovingStaysOk(s, e);
    } else if e.TryLock? || e.SweepMarker? || e.SweepEntry? || e.Swept? || e.GiveUp? {
      SweepingStaysOk(s, e);
    } else {
      LocksStepsStayOk(s, e);
    }
  }

  lemma SameProcesses(s: State, e: Event)
    requires Enabled(s, e)
    ensures e.who < |s.processes| == |Apply(s, e).processes|
  {
    hide FolderOf, IsIntact, Sizes, Holds, Goto, Put, Unlock, UnlockAll;
  }

  lemma InvOf(s: State)
    requires AllMarkersSafe(s) && LocksOk(s) && Exclusive(s) && forall i :: 0 <= i < |s.processes| ==> StageOk(s, i)
    ensures Inv(s)
  {
    hide AllMarkersSafe, LocksOk, Exclusive, StageOk;
  }

  lemma StepKeepsInv(s: State, e: Event)
    requires Inv(s) && Enabled(s, e) && !Disturbs(s, e)
    ensures Inv(Apply(s, e)) && |Apply(s, e).processes| == |s.processes|
  {
    hide *;
    SameProcesses(s, e);
    LocksStayOk(s, e);
    ExclusiveStays(s, e);
    MarkersStaySafe(s, e);
    OwnStageStaysOk(s, e);
    forall i | 0 <= i < |s.processes| && i != e.who ensures StageOk(Apply(s, e), i) {
      OthersStagesStayOk(s, e, i);
    }
    InvOf(Apply(s, e));
  }

  /** Nothing runs yet, and every marker there is stands over a complete install. */
  predicate IsStart(s: State) {
    && AllMarkersSafe(s) && s.locks == map[]
    && forall p <- s.processes :: p.stage.Waiting? && !p.detached && p.archive in s.published
  }

  lemma {:induction false} RunsKeepInv(s: State, events: seq<Event>, t: State)
    requires Inv(s) && Runs(s, events, t) && Undisturbed(s, events)
    ensures Inv(t) && |t.processes| == |s.processes|
    decreases |events|
  {
    hide Inv, Enabled, Apply, Disturbs;
    if events != [] {
      StepKeepsInv(s, events[0]);
      RunsKeepInv(Apply(s, events[0]), events[1..], t);
    }
  }

  lemma StartInv(s: State)
    requires IsStart(s)
    ensures Inv(s)
  {
    forall i | 0 <= i < |s.processes| ensures StageOk(s, i) && forall v :: !Holds(s.processes[i], v) {
      assert s.processes[i] in s.processes;
    }
  }

  /** Marker crash safety: at every point of every interleaving of installs and old-version removals, each of which may
      stop anywhere and be dropped at any time, a marker stands over the complete entry set of one archive, as long as no
      one takes the lock on a folder in which a dropped install still unpacks. */
  lemma MarkersAlwaysSafe(start: State, events: seq<Event>, t: State)
    requires IsStart(start) && Runs(start, events, t) && Undisturbed(start, events)
    ensures AllMarkersSafe(t)
  {
    StartInv(start);
    RunsKeepInv(start, events, t);
  }

  /** No install is dropped while its file work runs. */
  predicate NoDrops(events: seq<Event>) {
    forall e <- events :: !e.Drop?
  }

  predicate NoneDropped(s: State) {
    forall p <- s.processes :: !p.detached
  }

  lemma OwnStepKeepsDetached(s: State, e: Event)
    requires Enabled(s, e) && !e.Drop? && e.who < |Apply(s, e).processes|
    ensures Apply(s, e).processes[e.who].detached == s.processes[e.who].detached
  {
    hide IsIntact, Sizes, FolderOf, Put, Unlock, UnlockAll;
  }

  lemma StepDropsNone(s: State, e: Event)
    requires NoneDropped(s) && Enabled(s, e) && !e.Drop?
    ensures NoneDropped(Apply(s, e)) && !Disturbs(s, e)
  {
    SameProcesses(s, e);
    var t := Apply(s, e);
    assert s.processes[e.who] in s.processes;
    hide Apply, Enabled, Takes;
    OwnStepKeepsDetached(s, e);
    forall p <- t.processes ensures !p.detached {
      var i :| 0 <= i < |t.processes| && t.processes[i] == p;
      if i != e.who {
        OthersStandStill(s, e, i);
        assert s.processes[i] in s.processes;
      }
    }
    forall i | 0 <= i < |s.processes| ensures !s.processes[i].detached {
      assert s.processes[i] in s.processes;
    }
  }

  /** A run in which no install is dropped while its file work runs is one of these. */
  lemma {:induction false} WithoutDropsUndisturbed(s: State, events: seq<Event>)
    requires NoneDropped(s) && NoDrops(events)
    ensures Undisturbed(s, events)
    decreases |events|
  {
    if events != [] && Enabled(s, events[0]) {
      StepDropsNone(s, events[0]);
      hide Apply, Enabled, NoneDropped, Disturbs;
      WithoutDropsUndisturbed(Apply(s, events[0]), events[1..]);
    }
  }

  // An install that fails before the replacement.

  predicate BeforeReplacement(stage: Stage) {
    stage.Checking? || stage.Fetching? || stage.Clearing? || stage.Extracting? || stage.Replacing?
  }

  lemma StepNeverReturns(s: State, e: Event, i: nat)
    requires Enabled(s, e) && i < |s.processes| && !s.processes[i].stage.Waiting?
    ensures var t := Apply(s, e);
            && i < |t.processes| && t.processes[i].version == s.processes[i].version
            && !t.processes[i].stage.Waiting?
            && (BeforeReplacement(t.processes[i].stage) ==> BeforeReplacement(s.processes[i].stage))
  {
    hide FolderOf, IsIntact;
    if i != e.who {
      OthersStandStill(s, e, i);
    }
  }

  /** A stage once left behind does not come back. */
  lemma {:induction false} StagesNeverReturn(s: State, events: seq<Event>, t: State, i: nat)
    requires Runs(s, events, t) && i < |s.processes|
    requires !s.processes[i].stage.Waiting?
    ensures i < |t.processes| && t.processes[i].version == s.processes[i].version
    ensures BeforeReplacement(t.processes[i].stage) ==> BeforeReplacement(s.processes[i].stage)
    decreases |events|
  {
    hide Apply, Enabled;
    if events != [] {
      StepNeverReturns(s, events[0], i);
      StagesNeverReturn(Apply(s, events[0]), events[1..], t, i);
    }
  }

  /** While a process is at work in a folder no step of another changes it. */
  lemma GuardedFolderStands(s: State, e: Event, i: nat, v: string)
    requires Inv(s) && Enabled(s, e) && i < |s.processes| && i != e.who && Guards(s.processes[i], v)
    ensures FolderOf(Apply(s, e), v) == FolderOf(s, v)
  {
    OwnStageIsOk(s, e);
    hide AllMarkersSafe, StageOk, LocksOk, Apply, Enabled, FolderOf, Guards;
    if FolderOf(Apply(s, e), v) != FolderOf(s, v) {
      OnlyTheGuardWrites(s, e, v);
      assert false;
    }
  }

  lemma OwnStepKeepsInstall(s: State, e: Event)
    requires Enabled(s, e) && BeforeReplacement(s.processes[e.who].stage)
    requires e.Stop? || (e.who < |Apply(s, e).processes| && BeforeReplacement(Apply(s, e).processes[e.who].stage))
    ensures var v := s.processes[e.who].version; SameInstall(FolderOf(Apply(s, e), v), FolderOf(s, v))
  {
    hide IsIntact, Sizes, Unlock, UnlockAll;
  }

  lemma BeforeReplacementKeeps(s: State, e: Event, i: nat)
    requires Inv(s) && Enabled(s, e) && i < |s.processes|
    requires BeforeReplacement(s.processes[i].stage)
    requires |Apply(s, e).processes| == |s.processes|
    requires BeforeReplacement(Apply(s, e).processes[i].stage) || e == Stop(i)
    ensures var v := s.processes[i].version; SameInstall(FolderOf(Apply(s, e), v), FolderOf(s, v))
  {
    if e.who == i {
      hide Inv, Apply, Enabled, FolderOf;
      OwnStepKeepsInstall(s, e);
    } else {
      WorksInOwn(s, i);
      hide Inv, Apply, Enabled, FolderOf;
      GuardedFolderStands(s, e, i, s.processes[i].version);
    }
  }

  lemma WorksInOwn(s: State, i: nat)
    requires Inv(s) && i < |s.processes| && BeforeReplacement(s.processes[i].stage)
    ensures Guards(s.processes[i], s.processes[i].version)
  {
    hide AllMarkersSafe, LocksOk, Exclusive;
    assert StageOk(s, i);
  }

  lemma StopKeepsFolders(s: State, i: nat)
    requires i < |s.processes| && !s.processes[i].stage.Ended?
    ensures Enabled(s, Stop(i)) && Apply(s, Stop(i)).folders == s.folders
    ensures |Apply(s, Stop(i)).processes| == |s.processes|
  {
    hide FolderOf, IsIntact, Sizes;
  }

  lemma {:induction false} FolderStands(s: State, events: seq<Event>, t: State, i: nat)
    requires Inv(s) && Runs(s, events, t) && Undisturbed(s, events) && i < |s.processes|
    requires BeforeReplacement(s.processes[i].stage)
    ensures i < |t.processes|
    ensures var v := s.processes[i].version;
            BeforeReplacement(t.processes[i].stage) ==> SameInstall(FolderOf(t, v), FolderOf(s, v))
    decreases |events|
  {
    hide Inv, FolderOf, Apply, Enabled, Disturbs;
    StagesNeverReturn(s, events, t, i);
    if events != [] && BeforeReplacement(t.processes[i].stage) {
      var next := Apply(s, events[0]);
      StepKeepsInv(s, events[0]);
      StepNeverReturns(s, events[0], i);
      StagesNeverReturn(next, events[1..], t, i);
      BeforeReplacementKeeps(s, events[0], i);
      FolderStands(next, events[1..], t, i);
    }
  }

  /** While an install is downloading, verifying and extracting, whatever the other processes do, and if it then stops,
      whatever was installed in the folder stands as it stood. */
  lemma PreviousInstallSurvives(s: State, events: seq<Event>, t: State, i: nat)
    requires Inv(s) && Runs(s, events, t) && Undisturbed(s, events) && i < |s.processes|
    requires BeforeReplacement(s.processes[i].stage)
    ensures i < |t.processes|
    ensures var v := s.processes[i].version;
            BeforeReplacement(t.processes[i].stage) ==>
              && SameInstall(FolderOf(t, v), FolderOf(s, v))
              && Enabled(t, Stop(i)) && SameInstall(FolderOf(Apply(t, Stop(i)), v), FolderOf(s, v))
  {
    hide Inv, Apply, Enabled, Runs, Undisturbed;
    FolderStands(s, events, t, i);
    if BeforeReplacement(t.processes[i].stage) {
      StopKeepsFolders(t, i);
    }
  }

  /** An install that reports success leaves its whole archive in the folder, marked as such, with the lock let go. */
  lemma FinishedIsInstalled(s: State, i: nat)
    requires Inv(s) && Enabled(s, Finish(i)) && !s.processes[i].detached
    ensures var t := Apply(s, Finish(i)); var p := s.processes[i];
            && t.processes[i].stage == Ended(Installed) && StandsOver(FolderOf(t, p.version), p.archive)
            && p.version !in t.locks && (p.archive.files != map[] ==> IsIntact(FolderOf(t, p.version)))
  {
    hide AllMarkersSafe, Exclusive;
    var p := s.processes[i];
    assert StageOk(s, i) && Holds(p, p.version);
    if p.archive.files != map[] {
      var name :| name in p.archive.files;
      assert name in Sizes(p.archive.files);
    }
  }

  // Processes among themselves.

  /** While a process stands still, whatever the others do, so do the folders it is at work in. */
  lemma {:induction false} GuardedFoldersStand(s: State, events: seq<Event>, t: State, i: nat, v: string)
    requires Inv(s) && Runs(s, events, t) && Undisturbed(s, events) && i < |s.processes| && Guards(s.processes[i], v)
    requires forall e <- events :: e.who != i
    ensures i < |t.processes| && t.processes[i] == s.processes[i] && FolderOf(t, v) == FolderOf(s, v)
    decreases |events|
  {
    if events != [] {
      hide Inv, Enabled, Apply, FolderOf, Guards, Disturbs;
      StepKeepsInv(s, events[0]);
      GuardedFolderStands(s, events[0], i, v);
      OthersStandStill(s, events[0], i);
      GuardedFoldersStand(Apply(s, events[0]), events[1..], t, i, v);
    }
  }

  /** Whoever waited for a folder and finds an intact install in it uses that: whatever the others did since the lock was
      taken, the install still stands, nothing in any folder changes, and the lock is let go. */
  lemma IntactInstallIsUsed(s: State, i: nat, events: seq<Event>, t: State)
    requires Inv(s) && Enabled(s, Acquire(i)) && !Disturbs(s, Acquire(i))
    requires Runs(Apply(s, Acquire(i)), events, t) && Undisturbed(Apply(s, Acquire(i)), events)
    requires forall e <- events :: e.who != i
    requires IsIntact(FolderOf(s, s.processes[i].version))
    ensures var v := s.processes[i].version;
            && Enabled(t, Check(i)) && FolderOf(t, v) == FolderOf(s, v)
            && var u := Apply(t, Check(i));
               u.processes[i].stage == Ended(Current) && v !in u.locks && u.folders == t.folders
  {
    var v := s.processes[i].version;
    hide *;
    var held := AcquiredHolds(s, i);
    GuardedFoldersStand(held, events, t, i, v);
    RunsKeepInv(held, events, t);
    HolderHasLock(t, i, v);
    CheckUses(t, i);
  }

  lemma AcquireChecks(s: State, i: nat)
    requires Enabled(s, Acquire(i)) && StageOk(s, i)
    ensures var v := s.processes[i].version; var held := Apply(s, Acquire(i));
            && i < |held.processes| && held.processes[i] == s.processes[i].(stage := Checking)
            && FolderOf(held, v) == FolderOf(s, v)
            && Holds(held.processes[i], v) && Guards(held.processes[i], v)
  {
    hide IsIntact, Sizes;
  }

  lemma AcquiredHolds(s: State, i: nat) returns (held: State)
    requires Inv(s) && Enabled(s, Acquire(i)) && !Disturbs(s, Acquire(i))
    ensures held == Apply(s, Acquire(i)) && Inv(held)
    ensures var v := s.processes[i].version;
            && i < |held.processes| && held.processes[i] == s.processes[i].(stage := Checking)
            && FolderOf(held, v) == FolderOf(s, v)
            && Holds(held.processes[i], v) && Guards(held.processes[i], v)
  {
    hide *;
    held := Apply(s, Acquire(i));
    OwnStageIsOk(s, Acquire(i));
    StepKeepsInv(s, Acquire(i));
    AcquireChecks(s, i);
  }

  lemma CheckUses(t: State, i: nat)
    requires i < |t.processes| && t.processes[i].stage == Checking && IsIntact(FolderOf(t, t.processes[i].version))
    requires t.processes[i].version in t.locks && t.locks[t.processes[i].version] == i
    ensures Enabled(t, Check(i))
    ensures var u := Apply(t, Check(i));
            && i < |u.processes| && u.processes[i].stage == Ended(Current)
            && t.processes[i].version !in u.locks && u.folders == t.folders
  {
    hide IsIntact, FolderOf;
  }

  lemma HolderHasLock(s: State, i: nat, v: string)
    requires Inv(s) && i < |s.processes| && Holds(s.processes[i], v)
    ensures v in s.locks && s.locks[v] == i
  {
    hide AllMarkersSafe, Exclusive, StageOk, Holds;
  }

  /** A process waits for a lock only while it holds none, and a version is never removed under another's lock. */
  lemma VersionsAreNotRemovedUnderALock(s: State, e: Event, i: nat, v: string)
    requires Inv(s) && Enabled(s, e) && i < |s.processes| && i != e.who
    ensures Holds(s.processes[i], v) ==> FolderOf(Apply(s, e), v) == FolderOf(s, v)
    ensures s.processes[i].stage.Waiting? ==> !Holds(s.processes[i], v)
  {
    hide Inv, Apply, Enabled, FolderOf;
    if Holds(s.processes[i], v) {
      GuardedFolderStands(s, e, i, v);
    }
  }

  /** A version another process holds locked is left as it is by who tries to remove it. */
  lemma LockedVersionIsLeft(s: State, i: nat, other: string)
    requires Enabled(s, TryLock(i, other)) && other in s.locks
    ensures var t := Apply(s, TryLock(i, other));
            t.folders == s.folders && t.locks == s.locks && t.processes[i].stage == Cleaning(s.processes[i].stage.todo - {other})
  {
  }

  predicate IsProgress(e: Event) {
    !(e.Stop? || e.Drop? || e.GiveUp?)
  }

  /** The step a process that waits for nothing takes next. */
  lemma NextStep(s: State, i: nat) returns (e: Event)
    requires i < |s.processes| && StageOk(s, i)
    requires !s.processes[i].stage.Ended? && (s.processes[i].stage.Waiting? ==> s.processes[i].version !in s.locks)
    ensures IsProgress(e) && Enabled(s, e) && e.who == i
  {
    var p := s.processes[i];
    var f := FolderOf(s, p.version);
    match p.stage
    case Waiting => e := Acquire(i);
    case Checking => e := Check(i);
    case Fetching => e := Fetched(i);
    case Clearing => e := Clear(i);
    case Extracting(done) =>
      e := Extracted(i);
      if name :| name in p.archive.files && name !in done { e := Extract(i, name); }
    case Replacing => e := DeleteMarker(i);
    case Emptying =>
      e := Emptied(i);
      if name :| name in f.entries { e := RemoveEntry(i, name); }
    case Moving =>
      e := Moved(i);
      if name :| name in f.staged { e := Move(i, name); }
    case Recording => e := Record(i);
    case Writing(_) => e := Write(i);
    case Cleaning(todo) =>
      e := Finish(i);
      if other :| other in todo { e := TryLock(i, other); }
    case Sweeping(other, unmarked, _) =>
      e := if unmarked then Swept(i) else SweepMarker(i);
      if name :| unmarked && name in FolderOf(s, other).entries { e := SweepEntry(i, name); }
  }

  /** No set of processes deadlocks: as long as one is unfinished, one can step without any other stepping first. */
  lemma NeverDeadlocked(s: State) returns (e: Event)
    requires Inv(s) && exists p <- s.processes :: !p.stage.Ended?
    ensures IsProgress(e) && Enabled(s, e)
  {
    hide AllMarkersSafe, Enabled;
    var i: nat :| i < |s.processes| && !s.processes[i].stage.Ended?;
    if s.processes[i].stage.Waiting? && s.processes[i].version in s.locks {
      i := s.locks[s.processes[i].version];
    }
    assert StageOk(s, i);
    e := NextStep(s, i);
  }
}

/** One install as its code runs, among other processes doing as they please (src/ai/install.rs). */
module Install {
  import opened Wrappers
  import opened InstallMachine

  /** The root every process works under, and everything that happened there. */
  class World {
    var state: State
    ghost const start: State
    ghost var log: seq<Event>

    constructor (start: State)
      requires IsStart(start)
      ensures Valid() && state == start && log == []
    {
      state, log := start, [];
      this.start := start;
      new;
      StartInv(start);
    }

    /** What happened is a run of the machine in which no one took the lock on a folder where a dropped install still
        unpacked. */
    ghost predicate Valid()
      reads this
    {
      IsStart(start) && Runs(start, log, state) && Undisturbed(start, log) && Inv(state)
    }

    /** One step of one process. */
    method Do(e: Event)
      requires Valid() && Enabled(state, e) && !Disturbs(state, e)
      modifies this
      ensures Valid() && log == old(log) + [e] && state == Apply(old(state), e)
    {
      hide Inv, Enabled, Apply, IsStart, Disturbs, Undisturbed;
      StepKeepsInv(state, e);
      UndisturbedThenStep(start, log, state, e);
      ThenStep(start, log, state, e, Apply(state, e));
      state, log := Apply(state, e), log + [e];
    }

    /** Whatever the other processes do meanwhile, dropped or not. They touch no folder `who` holds locked. */
    method Others(who: nat)
      requires Valid() && who < |state.processes|
      modifies this
      ensures Valid() && |state.processes| == |old(state.processes)|
      ensures state.processes[who] == old(state.processes[who])
      ensures forall v :: Holds(state.processes[who], v) ==> FolderOf(state, v) == FolderOf(old(state), v)
      ensures old(log) <= log && forall i :: |old(log)| <= i < |log| ==> log[i].who != who
    {
      hide Runs, Inv, Enabled, Apply, IsStart, FolderOf, Holds, Undisturbed;
      var steps: nat :| 0 <= steps;
      for i := 0 to steps
        invariant Valid() && |state.processes| == |old(state.processes)|
        invariant state.processes[who] == old(state.processes[who])
        invariant forall v :: Holds(state.processes[who], v) ==> FolderOf(state, v) == FolderOf(old(state), v)
        invariant old(log) <= log && forall i :: |old(log)| <= i < |log| ==> log[i].who != who
      {
        var e: Event := *;
        if e.who != who && e.who < |state.processes| && Enabled(state, e) && !Disturbs(state, e) {
          OthersStandStill(state, e, who);
          forall v | Holds(state.processes[who], v) ensures FolderOf(Apply(state, e), v) == FolderOf(state, v) {
            VersionsAreNotRemovedUnderALock(state, e, who, v);
          }
          Do(e);
        }
      }
    }
  }

  /** A dropped install still unpacks somewhere. */
  predicate DroppedUnpacks(s: State) {
    exists p <- s.processes :: p.detached && IsUnpacking(p.stage)
  }

  lemma DisturbedByDropped(s: State, e: Event, t: State)
    requires e.who < |s.processes| == |t.processes| && Disturbs(s, e)
    requires forall i :: 0 <= i < |s.processes| && i != e.who ==> t.processes[i] == s.processes[i]
    ensures DroppedUnpacks(t)
  {
    var i :| 0 <= i < |s.processes| && i != e.who && s.processes[i].detached && IsUnpacking(s.processes[i].stage) &&
             Takes(s, e, s.processes[i].version);
    assert t.processes[i] in t.processes;
  }

  /** A process installing one archive as one version, its own future not dropped. */
  class Installer {
    const world: World
    const who: nat
    const version: string
    const archive: Archive
    /** No disk operation of this process fails. */
    const reliable: bool

    constructor (world: World, who: nat, reliable: bool)
      requires who < |world.state.processes|
      ensures this.world == world && this.who == who && this.reliable == reliable
      ensures version == world.state.processes[who].version && archive == world.state.processes[who].archive
    {
      this.world, this.who, this.reliable := world, who, reliable;
      version, archive := world.state.processes[who].version, world.state.processes[who].archive;
    }

    ghost predicate Valid()
      reads this, world
    {
      && world.Valid()
      && who < |world.state.processes|
      && world.state.processes[who].version == version && world.state.processes[who].archive == archive
      && !world.state.processes[who].detached
    }

    function Stage(): Stage
      requires who < |world.state.processes|
      reads this, world
    {
      world.state.processes[who].stage
    }

    function Own(): Folder
      reads this, world
    {
      FolderOf(world.state, version)
    }

    /** The other processes run, and then a disk or lock operation of this one either goes ahead or fails. */
    method Pause() returns (ok: bool)
      requires Valid() && !Stage().Waiting? && !Stage().Ended?
      modifies world
      ensures Valid() && |world.state.processes| == |old(world.state.processes)|
      ensures ok ==> world.state.processes[who] == old(world.state.processes[who]) && Own() == old(Own())
      ensures forall v :: old(Holds(world.state.processes[who], v)) ==>
                            FolderOf(world.state, v) == FolderOf(old(world.state), v)
      ensures !ok ==> Stage() == Ended(Stopped)
      ensures reliable ==> ok
    {
      hide Runs, Undisturbed, AllMarkersSafe, LocksOk, Exclusive, IsStart, FolderOf;
      assert StageOk(world.state, who);
      assert Holds(world.state.processes[who], version);
      world.Others(who);
      ok := *;
      ok := ok || reliable;
      if !ok {
        StopsQuietly();
        world.Do(Stop(who));
      }
    }

    lemma StopsQuietly()
      requires Valid() && !Stage().Ended?
      ensures forall v :: FolderOf(Apply(world.state, Stop(who)), v) == FolderOf(world.state, v)
    {
      StopKeepsFolders(world.state, who);
      hide Inv, Runs, Undisturbed, IsStart, Apply, Enabled;
    }

    /** `e` is this process's next step, and takes it to `stage` and its folder to `own`. */
    ghost predicate Turns(e: Event, stage: Stage, own: Folder)
      requires who < |world.state.processes|
      reads this, world
    {
      && Enabled(world.state, e) && !Disturbs(world.state, e)
      && Apply(world.state, e).processes
         == world.state.processes[who := world.state.processes[who].(stage := stage)]
      && FolderOf(Apply(world.state, e), version) == own
    }

    method Step(e: Event, ghost stage: Stage, ghost own: Folder)
      requires Valid() && Turns(e, stage, own)
      modifies world
      ensures Valid() && Stage() == stage && Own() == own
      ensures world.state == Apply(old(world.state), e)
    {
      hide Inv, Runs, IsStart, Undisturbed, Disturbs, Enabled, Apply, FolderOf;
      world.Do(e);
    }

    lemma ExtractionTurns(e: Event)
      requires Valid()
      ensures Stage().Clearing? && e == Clear(who) ==> Turns(e, Extracting({}), Own().(staged := map[]))
      ensures Stage().Extracting? && e.Extract? && e.who == who && e.name in archive.files && e.name !in Stage().done ==>
                Turns(e, Extracting(Stage().done + {e.name}),
                      Own().(staged := Own().staged[e.name := archive.files[e.name]]))
      ensures Stage() == Extracting(archive.files.Keys) && e == Extracted(who) ==> Turns(e, Replacing, Own())
    {
      hide Inv, Runs, IsStart, Undisturbed;
    }

    lemma ExtractedIsStaged()
      requires Valid() && Stage().Replacing?
      ensures Own().staged == archive.files
    {
      hide AllMarkersSafe, LocksOk, Exclusive;
      assert StageOk(world.state, who);
    }

    static lemma OneMoreDone(all: set<string>, todo: set<string>, name: string)
      requires name in todo && todo <= all
      ensures all - todo + {name} == all - (todo - {name})
    {
    }

    /** Extracts the archive beside the folder's contents, entry by entry, whatever an earlier attempt left there. */
    method Extract() returns (ok: bool)
      requires Valid() && Stage().Clearing?
      modifies world
      ensures Valid()
      ensures if ok then Stage().Replacing? else Stage() == Ended(Stopped)
      ensures reliable ==> ok
      ensures ok ==> Own() == old(Own()).(staged := archive.files)
    {
      hide Inv, Runs, IsStart, Undisturbed, FolderOf, IsIntact, Sizes, Holds, Enabled, Apply, Turns, Disturbs;
      ok := Pause();
      if !ok {
        return;
      }
      ghost var own := Own();
      ExtractionTurns(Clear(who));
      Step(Clear(who), Extracting({}), own.(staged := map[]));
      var todo := archive.files.Keys;
      while todo != {}
        invariant Valid() && todo <= archive.files.Keys && Stage() == Extracting(archive.files.Keys - todo)
        invariant SameInstall(Own(), own)
      {
        var name :| name in todo;
        OneMoreDone(archive.files.Keys, todo, name);
        ok := Pause();
        if !ok {
          return;
        }
        ExtractionTurns(InstallMachine.Event.Extract(who, name));
        Step(InstallMachine.Event.Extract(who, name), Extracting(Stage().done + {name}),
             Own().(staged := Own().staged[name := archive.files[name]]));
        todo := todo - {name};
      }
      assert archive.files.Keys - {} == archive.files.Keys;
      ok := Pause();
      if ok {
        ExtractionTurns(Extracted(who));
        Step(Extracted(who), Replacing, Own());
        ExtractedIsStaged();
      }
    }

    /** Removes every entry and nothing else, the marker gone already. */
    method EmptyDir() returns (ok: bool)
      requires Valid() && Stage().Emptying?
      modifies world
      ensures Valid()
      ensures if ok then Stage().Moving? else Stage() == Ended(Stopped)
      ensures reliable ==> ok
      ensures ok ==> Own() == old(Own()).(entries := map[])
    {
      hide Inv, Runs, IsStart, Undisturbed, FolderOf, IsIntact, Sizes, Enabled, Apply, Turns, Disturbs;
      ok := Pause();
      if !ok {
        return;
      }
      ghost var own := Own();
      var todo := Own().entries.Keys;
      while todo != {}
        invariant Valid() && Stage().Emptying? && Own().entries.Keys == todo
        invariant Own() == own.(entries := Own().entries)
      {
        var name :| name in todo;
        ok := Pause();
        if !ok {
          return;
        }
        EntryTurns(RemoveEntry(who, name));
        Step(RemoveEntry(who, name), Emptying, Own().(entries := Own().entries - {name}));
        todo := todo - {name};
      }
      ok := Pause();
      if ok {
        ReplacementTurns(Emptied(who));
        Step(Emptied(who), Moving, Own());
      }
    }

    /** Renames every extracted entry into the folder: what was in either is in the folder in the end. */
    method MoveIn() returns (ok: bool)
      requires Valid() && Stage().Moving?
      modifies world
      ensures Valid()
      ensures if ok then Stage().Recording? else Stage() == Ended(Stopped)
      ensures reliable ==> ok
      ensures ok ==> Own() == old(Own()).(entries := old(Own()).entries + old(Own()).staged, staged := map[])
    {
      hide Inv, Runs, IsStart, Undisturbed, FolderOf, IsIntact, Sizes, Enabled, Apply, Turns, Disturbs;
      ghost var own := Own();
      var todo := Own().staged.Keys;
      while todo != {}
        invariant Valid() && Stage().Moving? && Own().staged.Keys == todo
        invariant Own().marker == own.marker && Own().entries + Own().staged == own.entries + own.staged
      {
        var name :| name in todo;
        ok := Pause();
        if !ok {
          return;
        }
        ghost var f := Own();
        EntryTurns(Move(who, name));
        Step(Move(who, name), Moving, f.(entries := f.entries[name := f.staged[name]], staged := f.staged - {name}));
        todo := todo - {name};
        assert Own().entries + Own().staged == f.entries + f.staged;
      }
      ok := Pause();
      if ok {
        assert Own().entries + Own().staged == Own().entries;
        ReplacementTurns(Moved(who));
        Step(Moved(who), Recording, Own());
      }
    }

    lemma ReplacementTurns(e: Event)
      requires Valid()
      ensures Stage().Replacing? && e == DeleteMarker(who) ==> Turns(e, Emptying, Own().(marker := None))
      ensures Stage().Emptying? && Own().entries == map[] && e == Emptied(who) ==> Turns(e, Moving, Own())
      ensures Stage().Moving? && Own().staged == map[] && e == Moved(who) ==> Turns(e, Recording, Own())
    {
      hide Inv, Runs, IsStart, Undisturbed;
    }

    /** What an entry's removal or move does to the folder. */
    lemma EntryTurns(e: Event)
      requires Valid() && e.who == who
      requires if e.RemoveEntry? then Stage().Emptying? && e.name in Own().entries
               else e.Move? && Stage().Moving? && e.name in Own().staged
      ensures var f := Own();
              Turns(e, Stage(), if e.RemoveEntry? then f.(entries := f.entries - {e.name})
                                else f.(entries := f.entries[e.name := f.staged[e.name]], staged := f.staged - {e.name}))
    {
      hide Inv, Runs, IsStart, Undisturbed;
    }

    /** The marker deleted first, every entry removed, the extracted ones moved in, and the marker written last: the folder
        then holds the archive, its marker and nothing else. */
    method Unpack() returns (ok: bool)
      requires Valid() && Stage().Clearing?
      modifies world
      ensures Valid()
      ensures if ok then Stage().Cleaning? else Stage() == Ended(Stopped)
      ensures reliable ==> ok
      ensures ok ==>
                Own() == Folder(Some(Marker(archive.hash, archive.size, Sizes(archive.files))), archive.files, map[])
    {
      hide Inv, Runs, IsStart, Undisturbed, FolderOf, IsIntact, Sizes, Holds, Enabled, Apply, Turns, Disturbs;
      ok := Extract();
      if !ok {
        return;
      }
      ok := Pause();
      if !ok {
        return;
      }
      ReplacementTurns(DeleteMarker(who));
      Step(DeleteMarker(who), Emptying, Own().(marker := None));
      ok := EmptyDir();
      if !ok {
        return;
      }
      ok := MoveIn();
      if !ok {
        return;
      }
      assert Own().entries == archive.files;
      ok := Record();
    }

    /** Records what the folder holds and writes the marker whole. */
    method Record() returns (ok: bool)
      requires Valid() && Stage().Recording?
      modifies world
      ensures Valid()
      ensures if ok then Stage().Cleaning? else Stage() == Ended(Stopped)
      ensures reliable ==> ok
      ensures ok ==>
                Own() == old(Own()).(marker := Some(Marker(archive.hash, archive.size, Sizes(old(Own()).entries))))
    {
      hide Inv, Runs, IsStart, Undisturbed, FolderOf, IsIntact, Sizes, Holds, Enabled, Apply, Turns, Disturbs;
      ok := Pause();
      if !ok {
        return;
      }
      RecordTurns();
      var sizes := Sizes(Own().entries);
      Step(InstallMachine.Event.Record(who), Writing(sizes), Own());
      ok := Pause();
      if !ok {
        return;
      }
      WriteTurns();
      Step(Write(who), Cleaning(world.state.folders.Keys - {version}),
           Own().(marker := Some(Marker(archive.hash, archive.size, sizes))));
    }

    lemma RecordTurns()
      requires Valid() && Stage().Recording?
      ensures Turns(InstallMachine.Event.Record(who), Writing(Sizes(Own().entries)), Own())
    {
      hide Inv, Runs, IsStart, Undisturbed, Sizes;
    }

    lemma WriteTurns()
      requires Valid() && Stage().Writing?
      ensures Turns(Write(who), Cleaning(world.state.folders.Keys - {version}),
                    Own().(marker := Some(Marker(archive.hash, archive.size, Stage().files))))
    {
      hide Inv, Runs, IsStart, Undisturbed, Sizes;
    }

    /** What a removal that stops on the way leaves of a folder: all of it, or no marker and no entry it did not hold. */
    static ghost predicate PartlyRemoved(f: Folder, g: Folder) {
      || g == f
      || (&& g.marker == None && g.staged == f.staged && g.entries.Keys <= f.entries.Keys
          && forall name <- g.entries :: g.entries[name] == f.entries[name])
    }

    /** What a step on another version's locked folder does to it. */
    lemma OtherAfter(e: Event)
      requires Valid() && e.who == who && Stage().Sweeping?
      requires if e.SweepMarker? then !Stage().unmarked
               else e.SweepEntry? && Stage().unmarked && e.name in FolderOf(world.state, Stage().other).entries
      ensures Enabled(world.state, e) && !Disturbs(world.state, e)
      ensures var p, q := world.state.processes[who], Apply(world.state, e).processes[who];
              && q == (if e.SweepMarker? then p.(stage := p.stage.(unmarked := true)) else p)
              && |Apply(world.state, e).processes| == |world.state.processes|
              && var f, g := FolderOf(world.state, p.stage.other), FolderOf(Apply(world.state, e), p.stage.other);
                 g == if e.SweepEntry? then f.(entries := f.entries - {e.name}) else f.(marker := None)
    {
      hide Inv, Runs, IsStart, Undisturbed;
    }

    lemma UnmarkedFolder()
      requires Valid() && Stage().Sweeping?
      ensures Stage().unmarked ==> FolderOf(world.state, Stage().other).marker == None
      ensures Holds(world.state.processes[who], Stage().other)
    {
      hide AllMarkersSafe, LocksOk, Exclusive;
      assert StageOk(world.state, who);
    }

    /** Removes a version this process locked, the marker first; one that cannot be removed is left as far as it got. */
    method Sweep() returns (ok: bool, removed: bool)
      requires Valid() && Stage().Sweeping? && !Stage().unmarked
      modifies world
      ensures Valid()
      ensures Stage() == if ok then Cleaning(old(Stage().todo)) else Ended(Stopped)
      ensures reliable ==> ok && removed
      ensures var other := old(Stage().other);
              if removed then ok && other !in world.state.folders
              else PartlyRemoved(old(FolderOf(world.state, Stage().other)), FolderOf(world.state, other))
    {
      hide Inv, Runs, IsStart, Undisturbed, FolderOf, IsIntact, Sizes, Enabled, Apply, Turns, Disturbs;
      removed := false;
      UnmarkedFolder();
      ok := Pause();
      if !ok {
        return;
      }
      var stuck: bool := *;
      stuck := stuck && !reliable;
      if stuck {
        SweepTurns(GiveUp(who));
        Step(GiveUp(who), Cleaning(Stage().todo), FolderOf(Apply(world.state, GiveUp(who)), version));
        return;
      }
      OtherAfter(SweepMarker(who));
      world.Do(SweepMarker(who));
      ok, removed := SweepEntries();
    }

    /** Removes the unmarked version's entries and then its folder. */
    method SweepEntries() returns (ok: bool, removed: bool)
      requires Valid() && Stage().Sweeping? && Stage().unmarked
      modifies world
      ensures Valid()
      ensures Stage() == if ok then Cleaning(old(Stage().todo)) else Ended(Stopped)
      ensures reliable ==> ok && removed
      ensures var other := old(Stage().other);
              if removed then ok && other !in world.state.folders
              else PartlyRemoved(old(FolderOf(world.state, Stage().other)), FolderOf(world.state, other))
    {
      hide Inv, Runs, IsStart, Undisturbed, FolderOf, IsIntact, Sizes, Enabled, Apply, Turns, Disturbs;
      ghost var before := Stage();
      removed := false;
      UnmarkedFolder();
      var todo := FolderOf(world.state, Stage().other).entries.Keys;
      while todo != {}
        invariant Valid() && Stage() == before && Holds(world.state.processes[who], before.other)
        invariant FolderOf(world.state, Stage().other).entries.Keys == todo
        invariant FolderOf(world.state, before.other).marker == None
        invariant PartlyRemoved(old(FolderOf(world.state, Stage().other)), FolderOf(world.state, before.other))
      {
        var name :| name in todo;
        ok := Pause();
        if !ok {
          return;
        }
        var stuck: bool := *;
        stuck := stuck && !reliable;
        if stuck {
          SweepTurns(GiveUp(who));
          Step(GiveUp(who), Cleaning(Stage().todo), FolderOf(Apply(world.state, GiveUp(who)), version));
          return;
        }
        OtherAfter(SweepEntry(who, name));
        world.Do(SweepEntry(who, name));
        todo := todo - {name};
      }
      ok := Pause();
      if ok {
        SweepTurns(Swept(who));
        Step(Swept(who), Cleaning(Stage().todo), FolderOf(Apply(world.state, Swept(who)), version));
        removed := true;
      }
    }

    lemma SweepTurns(e: Event)
      requires Valid() && Stage().Sweeping?
      ensures e == GiveUp(who) ==>
                && Enabled(world.state, e) && Turns(e, Cleaning(Stage().todo), FolderOf(Apply(world.state, e), version))
                && forall v :: FolderOf(Apply(world.state, e), v) == FolderOf(world.state, v)
      ensures Stage().unmarked && FolderOf(world.state, Stage().other).entries == map[] && e == Swept(who) ==>
                && Enabled(world.state, e) && Turns(e, Cleaning(Stage().todo), FolderOf(Apply(world.state, e), version))
                && Stage().other !in Apply(world.state, e).folders
    {
      hide Inv, Runs, IsStart, Undisturbed;
    }

    /** Every other version is tried once: one that is locked is left, and any other loses its marker first and then its
        entries, unless it cannot be removed. This process's own version stays as it is. */
    method RemoveOtherVersions() returns (ok: bool, tried: seq<string>)
      requires Valid() && Stage().Cleaning?
      modifies world
      ensures Valid()
      ensures if ok then Stage() == Cleaning({}) else Stage() == Ended(Stopped)
      ensures reliable ==> ok || DroppedUnpacks(world.state)
      ensures ok ==> (forall other :: other in tried <==> other in old(Stage().todo))
      ensures forall i, j :: 0 <= i < j < |tried| ==> tried[i] != tried[j]
    {
      hide Inv, Runs, IsStart, Undisturbed, FolderOf, IsIntact, Sizes, Holds, Enabled, Apply, Turns, Disturbs;
      tried := [];
      while Stage().todo != {}
        invariant Valid() && Stage().Cleaning?
        invariant forall other :: other in tried || other in Stage().todo <==> other in old(Stage().todo)
        invariant forall other :: !(other in tried && other in Stage().todo)
        invariant forall i, j :: 0 <= i < j < |tried| ==> tried[i] != tried[j]
        decreases Stage().todo
      {
        var other :| other in Stage().todo;
        ok := Try(other);
        tried := tried + [other];
        if !ok {
          return;
        }
      }
      ok := true;
    }

    /** One other version's turn: left if another process holds it locked, and removed if not, as far as that goes. */
    method Try(other: string) returns (ok: bool)
      requires Valid() && Stage().Cleaning? && other in Stage().todo
      modifies world
      ensures Valid()
      ensures Stage() == if ok then Cleaning(old(Stage().todo) - {other}) else Ended(Stopped)
      ensures reliable ==> ok || DroppedUnpacks(world.state)
    {
      hide Inv, Runs, IsStart, Undisturbed, FolderOf, IsIntact, Sizes, Holds, Enabled, Apply, Turns, Disturbs;
      ok := Pause();
      if !ok {
        return;
      }
      var e := TryLock(who, other);
      TriesAfter(other);
      if Disturbs(world.state, e) {
        StopsHere();
        DisturbedByDropped(world.state, e, Apply(world.state, Stop(who)));
        world.Do(Stop(who));
        return false;
      }
      world.Do(e);
      if Stage().Sweeping? {
        var removed;
        ok, removed := Sweep();
      }
    }

    lemma TriesAfter(other: string)
      requires Valid() && Stage().Cleaning? && other in Stage().todo
      ensures Enabled(world.state, TryLock(who, other))
      ensures var t := Apply(world.state, TryLock(who, other)); var rest := Stage().todo - {other};
              && |t.processes| == |world.state.processes|
              && t.processes[who] == world.state.processes[who].(stage :=
                   if other in world.state.locks then Cleaning(rest) else Sweeping(other, false, rest))
    {
      hide Inv, Runs, IsStart, Undisturbed;
    }

    lemma StopsHere()
      requires Valid() && !Stage().Ended?
      ensures Enabled(world.state, Stop(who)) && !Disturbs(world.state, Stop(who))
      ensures var t := Apply(world.state, Stop(who));
              && t.processes == world.state.processes[who := world.state.processes[who].(stage := Ended(Stopped))]
              && forall v :: v in world.state.locks && world.state.locks[v] != who ==> v in t.locks
    {
      hide Inv, Runs, IsStart, Undisturbed;
    }

    /** What finding an intact install does. */
    lemma CheckedCurrent()
      requires Valid() && Stage().Checking? && IsIntact(Own())
      ensures var t := Apply(world.state, Check(who));
              && |t.processes| == |world.state.processes|
              && t.processes[who] == world.state.processes[who].(stage := Ended(Current))
              && FolderOf(t, version) == Own() && version !in t.locks
    {
      hide AllMarkersSafe, IsIntact, Runs;
      assert StageOk(world.state, who) && Holds(world.state.processes[who], version);
    }

    /** Takes the folder's lock once it is free, and no dropped install unpacks in the folder. */
    method Lock() returns (ok: bool)
      requires Valid() && Stage().Waiting?
      modifies world
      ensures Valid()
      ensures if ok then Stage().Checking? else Stage() == Ended(Stopped)
      ensures !ok ==> version in world.state.locks || DroppedUnpacks(world.state)
    {
      hide Runs, IsStart, Undisturbed, FolderOf, IsIntact, Sizes;
      world.Others(who);
      ok := version !in world.state.locks && !Disturbs(world.state, Acquire(who));
      if ok {
        world.Do(Acquire(who));
      } else {
        WaiterHoldsNothing();
        StopsHere();
        if version !in world.state.locks {
          DisturbedByDropped(world.state, Acquire(who), Apply(world.state, Stop(who)));
        }
        hide Inv, Apply, Enabled, Disturbs, Holds;
        world.Do(Stop(who));
      }
    }

    lemma WaiterHoldsNothing()
      requires Valid() && Stage().Waiting?
      ensures forall v <- world.state.locks :: world.state.locks[v] != who
    {
      hide AllMarkersSafe, Exclusive, Runs, Undisturbed;
      forall v <- world.state.locks ensures world.state.locks[v] != who {
        assert Holds(world.state.processes[world.state.locks[v]], v);
      }
    }

    /** Downloads the archive, verified, and puts it in place of whatever the folder holds. */
    method Replace() returns (ok: bool)
      requires Valid() && Stage().Fetching?
      modifies world
      ensures Valid()
      ensures if ok then Stage().Cleaning? else Stage() == Ended(Stopped)
      ensures reliable ==> ok
    {
      hide Inv, Runs, IsStart, Undisturbed, FolderOf, IsIntact, Sizes, Holds;
      ok := Pause();
      if ok {
        world.Do(Fetched(who));
        ok := Unpack();
      }
    }

    /** Installs the archive unless another process did while this one waited for the lock. However it ends, and wherever,
        all that happened is a run of the machine, so every marker is safe; and what success reports is there. */
    method InstallOne() returns (r: Outcome)
      requires Valid() && Stage().Waiting?
      modifies world
      ensures Valid()
      ensures Stage() == Ended(r)
      ensures reliable && r.Stopped? ==> version in world.state.locks || DroppedUnpacks(world.state)
      ensures r.Installed? ==> StandsOver(Own(), archive)
      ensures r.Current? ==> IsIntact(Own())
      ensures !r.Stopped? ==> version !in world.state.locks
    {
      hide Inv, Runs, IsStart, Undisturbed, FolderOf, IsIntact, Sizes, Holds, StandsOver, Apply;
      var ok := Lock();
      if ok {
        ok := Pause();
      }
      if !ok {
        return Stopped;
      }
      if IsIntact(Own()) {
        CheckedCurrent();
        world.Do(Check(who));
        return Current;
      }
      CheckedMissing();
      world.Do(Check(who));
      ok := InstallMissing();
      r := if ok then Installed else Stopped;
    }

    /** Installs into a folder that is locked and holds no intact install. */
    method InstallMissing() returns (ok: bool)
      requires Valid() && Stage().Fetching?
      modifies world
      ensures Valid()
      ensures Stage() == Ended(if ok then Installed else Stopped)
      ensures reliable ==> ok || DroppedUnpacks(world.state)
      ensures ok ==> StandsOver(Own(), archive) && version !in world.state.locks
    {
      hide Inv, Runs, IsStart, Undisturbed, FolderOf, IsIntact, Sizes, Holds, StandsOver, Apply, Enabled, Goto;
      ok := Replace();
      if ok {
        var tried;
        ok, tried := RemoveOtherVersions();
      }
      if ok {
        ok := Pause();
      }
      if ok {
        FinishIsEnabled();
        FinishedIsInstalled(world.state, who);
        FinishKeepsProcesses();
        world.Do(Finish(who));
      }
    }

    lemma FinishIsEnabled()
      requires Valid() && Stage() == Cleaning({})
      ensures Enabled(world.state, Finish(who))
    {
    }

    lemma CheckedMissing()
      requires Valid() && Stage().Checking? && !IsIntact(Own())
      ensures Apply(world.state, Check(who)) == Goto(world.state, who, Fetching)
    {
    }

    lemma FinishKeepsProcesses()
      requires Valid() && Stage() == Cleaning({})
      ensures |Apply(world.state, Finish(who)).processes| == |world.state.processes|
      ensures Apply(world.state, Finish(who)).processes[who]
              == world.state.processes[who].(stage := Ended(Installed))
    {
    }
  }
}

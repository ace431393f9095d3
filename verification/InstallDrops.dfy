/** What a dropped install's file work may come to: exactly when it may end in a marker over part of an archive
    (src/ai/install.rs:360-395). */
module InstallDrops {
  import opened Wrappers
  import opened InstallMachine

  /** Hashes tell archives apart, and an archive holds something. */
  predicate WellPublished(published: set<Archive>) {
    && (forall a <- published :: a.files != map[])
    && (forall a <- published, b <- published :: a.hash == b.hash ==> a == b)
  }

  // One process running alone.

  predicate TakesNoLock(e: Event) {
    !e.Acquire? && !e.TryLock?
  }

  lemma {:induction false} UndisturbedWithoutTaking(s: State, events: seq<Event>)
    requires forall e <- events :: TakesNoLock(e)
    ensures Undisturbed(s, events)
    decreases |events|
  {
    if events != [] && Enabled(s, events[0]) {
      assert TakesNoLock(events[0]);
      assert !Disturbs(s, events[0]);
      hide Enabled, Apply, Disturbs;
      UndisturbedWithoutTaking(Apply(s, events[0]), events[1..]);
    }
  }

  /** Only process `i` moved on, within its own install. */
  ghost predicate Alone(s: State, t: State, i: nat) {
    && i < |s.processes| == |t.processes|
    && (forall j :: 0 <= j < |s.processes| && j != i ==> t.processes[j] == s.processes[j])
    && t.processes[i] == s.processes[i].(stage := t.processes[i].stage)
    && t.locks == s.locks && t.published == s.published
  }

  /** Every other version's folder is as it was. */
  ghost predicate OthersStand(s: State, t: State, i: nat)
    requires i < |s.processes|
  {
    forall v <- s.folders :: v != s.processes[i].version ==> v in t.folders && t.folders[v] == s.folders[v]
  }

  lemma AloneAgain(s: State, m: State, t: State, i: nat)
    requires Alone(s, m, i) && Alone(m, t, i)
    ensures Alone(s, t, i)
  {
  }

  function Rank(stage: Stage): nat {
    if stage.Clearing? then 6 else if stage.Extracting? then 5 else if stage.Replacing? then 4
    else if stage.Emptying? then 3 else if stage.Moving? then 2 else if stage.Recording? then 1 else 0
  }

  /** How much of its stage a process has left. */
  function Left(s: State, i: nat): nat
    requires i < |s.processes|
  {
    var p := s.processes[i];
    if p.stage.Extracting? then |p.archive.files.Keys - p.stage.done|
    else if p.stage.Emptying? then |FolderOf(s, p.version).entries|
    else if p.stage.Moving? then |FolderOf(s, p.version).staged|
    else 0
  }

  /** `e` takes an unpacking process on, alone, and nearer to its end. */
  ghost predicate Advances(s: State, e: Event, i: nat)
    requires i < |s.processes|
  {
    && Enabled(s, e) && e.who == i && TakesNoLock(e) && Alone(s, Apply(s, e), i) && OthersStand(s, Apply(s, e), i)
    && var t := Apply(s, e); var before, after := s.processes[i].stage, t.processes[i].stage;
       && IsUnpacking(after) && !after.Writing? && Rank(after) + 1 >= Rank(before)
       && (Rank(after) < Rank(before) || (Rank(after) == Rank(before) && Left(t, i) < Left(s, i)))
       && (Rank(before) >= 4 ==>
             FolderOf(t, s.processes[i].version).entries == FolderOf(s, s.processes[i].version).entries)
  }

  lemma GoesAlone(s: State, e: Event)
    requires Enabled(s, e)
    requires e.Clear? || e.Extract? || e.Extracted? || e.DeleteMarker? || e.RemoveEntry? || e.Emptied? || e.Move? || e.Moved?
    ensures Alone(s, Apply(s, e), e.who) && OthersStand(s, Apply(s, e), e.who)
  {
    hide IsIntact, Sizes, FolderOf;
  }

  lemma ClearAdvances(s: State, i: nat)
    requires i < |s.processes| && s.processes[i].stage.Clearing?
    ensures Advances(s, Clear(i), i)
  {
    GoesAlone(s, Clear(i));
    hide Alone, OthersStand, Left;
  }

  lemma ExtractAdvances(s: State, i: nat, name: string)
    requires i < |s.processes| && s.processes[i].stage.Extracting?
    requires name in s.processes[i].archive.files && name !in s.processes[i].stage.done
    ensures Advances(s, Extract(i, name), i)
  {
    var e := Extract(i, name);
    GoesAlone(s, e);
    hide Alone, OthersStand;
    var files, done := s.processes[i].archive.files.Keys, s.processes[i].stage.done;
    assert files - done == (files - (done + {name})) + {name};
  }

  lemma ExtractedAdvances(s: State, i: nat)
    requires i < |s.processes| && s.processes[i].stage == Extracting(s.processes[i].archive.files.Keys)
    ensures Advances(s, Extracted(i), i)
  {
    GoesAlone(s, Extracted(i));
    hide Alone, OthersStand, Left;
  }

  lemma DeleteAdvances(s: State, i: nat)
    requires i < |s.processes| && s.processes[i].stage.Replacing?
    ensures Advances(s, DeleteMarker(i), i)
  {
    GoesAlone(s, DeleteMarker(i));
    hide Alone, OthersStand, Left;
  }

  lemma OneFewer(files: Files, name: string)
    requires name in files
    ensures |files - {name}| < |files|
  {
    assert files.Keys == (files - {name}).Keys + {name};
  }

  lemma RemoveAdvances(s: State, i: nat, name: string)
    requires i < |s.processes| && s.processes[i].stage.Emptying?
    requires name in FolderOf(s, s.processes[i].version).entries
    ensures Advances(s, RemoveEntry(i, name), i)
  {
    GoesAlone(s, RemoveEntry(i, name));
    hide Alone, OthersStand;
    OneFewer(FolderOf(s, s.processes[i].version).entries, name);
  }

  lemma MoveAdvances(s: State, i: nat, name: string)
    requires i < |s.processes| && s.processes[i].stage.Moving?
    requires name in FolderOf(s, s.processes[i].version).staged
    ensures Advances(s, Move(i, name), i)
  {
    GoesAlone(s, Move(i, name));
    hide Alone, OthersStand;
    OneFewer(FolderOf(s, s.processes[i].version).staged, name);
  }

  lemma DoneAdvances(s: State, i: nat)
    requires i < |s.processes|
    ensures s.processes[i].stage.Emptying? && FolderOf(s, s.processes[i].version).entries == map[] ==>
              Advances(s, Emptied(i), i)
    ensures s.processes[i].stage.Moving? && FolderOf(s, s.processes[i].version).staged == map[] ==>
              Advances(s, Moved(i), i)
  {
    if s.processes[i].stage.Emptying? && FolderOf(s, s.processes[i].version).entries == map[] {
      GoesAlone(s, Emptied(i));
    } else if s.processes[i].stage.Moving? && FolderOf(s, s.processes[i].version).staged == map[] {
      GoesAlone(s, Moved(i));
    }
    hide Alone, OthersStand, Left;
  }

  lemma ExtractingAdvances(s: State, i: nat) returns (e: Event)
    requires i < |s.processes| && StageOk(s, i) && 4 <= Rank(s.processes[i].stage)
    ensures Advances(s, e, i) && StageOk(Apply(s, e), i)
  {
    var p := s.processes[i];
    var files := p.archive.files.Keys;
    if p.stage.Clearing? {
      e := Clear(i);
      ClearAdvances(s, i);
    } else if p.stage.Replacing? {
      e := DeleteMarker(i);
      DeleteAdvances(s, i);
    } else if name :| name in files && name !in p.stage.done {
      e := Extract(i, name);
      ExtractAdvances(s, i, name);
    } else {
      e := Extracted(i);
      assert p.stage.done <= files && files <= p.stage.done;
      ExtractedAdvances(s, i);
    }
    assert Enabled(s, e) && e.who == i;
    hide *;
    if e.DeleteMarker? {
      ReplacementStaysOk(s, e);
    } else {
      ExtractionStaysOk(s, e);
    }
  }

  lemma ReplacingAdvances(s: State, i: nat) returns (e: Event)
    requires i < |s.processes| && StageOk(s, i)
    requires s.processes[i].stage.Emptying? || s.processes[i].stage.Moving?
    ensures Advances(s, e, i) && StageOk(Apply(s, e), i)
  {
    var p, f := s.processes[i], FolderOf(s, s.processes[i].version);
    DoneAdvances(s, i);
    hide StageOk;
    if p.stage.Emptying? {
      e := Emptied(i);
      if name :| name in f.entries {
        e := RemoveEntry(i, name);
        RemoveAdvances(s, i, name);
      }
    } else {
      e := Moved(i);
      if name :| name in f.staged {
        e := Move(i, name);
        MoveAdvances(s, i, name);
      }
    }
    assert Enabled(s, e) && e.who == i;
    hide *;
    if e.Emptied? || e.RemoveEntry? {
      ReplacementStaysOk(s, e);
    } else {
      MovingStaysOk(s, e);
    }
  }

  /** Left alone, an unpacking process empties the folder it found, or goes on to record the whole archive in it. */
  lemma {:induction false} UnpacksAlone(s: State, i: nat, onlyToEmptying: bool) returns (events: seq<Event>, t: State)
    requires i < |s.processes| && StageOk(s, i) && IsUnpacking(s.processes[i].stage) && !s.processes[i].stage.Writing?
    requires onlyToEmptying ==> Rank(s.processes[i].stage) >= 3
    ensures Runs(s, events, t) && (forall e <- events :: TakesNoLock(e)) && Alone(s, t, i) && StageOk(t, i)
    ensures OthersStand(s, t, i)
    ensures t.processes[i].stage == if onlyToEmptying then Emptying else Recording
    ensures onlyToEmptying ==>
              FolderOf(t, s.processes[i].version).entries == FolderOf(s, s.processes[i].version).entries
    decreases Rank(s.processes[i].stage), Left(s, i)
  {
    hide Enabled, Apply, StageOk, Left, FolderOf;
    if s.processes[i].stage == (if onlyToEmptying then Emptying else Recording) {
      events, t := [], s;
    } else {
      var e;
      if Rank(s.processes[i].stage) >= 4 {
        e := ExtractingAdvances(s, i);
      } else {
        e := ReplacingAdvances(s, i);
      }
      var rest;
      rest, t := UnpacksAlone(Apply(s, e), i, onlyToEmptying);
      events := [e] + rest;
      assert events[1..] == rest;
      AloneAgain(s, Apply(s, e), t, i);
    }
  }

  // The harm: the lock taken while a dropped install unpacks.

  /** A dropped install is about to record, or has recorded, a folder that held its whole archive but for `name`. */
  ghost predicate AboutToMark(s: State, i: nat, name: string) {
    && i < |s.processes| && s.processes[i].detached && s.processes[i].archive in s.published
    && var p := s.processes[i];
       && name in p.archive.files && FolderOf(s, p.version).entries == p.archive.files - {name}
       && (p.stage.Recording? || p.stage == Writing(Sizes(p.archive.files)))
  }

  /** The marker it then writes stands over no archive; and unless it was recorded before, it reads as intact. */
  lemma MarksHalf(s: State, i: nat, name: string) returns (events: seq<Event>, t: State)
    requires AboutToMark(s, i, name) && WellPublished(s.published)
    ensures Runs(s, events, t) && (forall e <- events :: TakesNoLock(e)) && !AllMarkersSafe(t)
    ensures var v := s.processes[i].version;
            && v in t.folders
            && (s.processes[i].stage.Recording? && |s.processes[i].archive.files| > 1 ==> IsIntact(t.folders[v]))
  {
    var m := s;
    events := [];
    if s.processes[i].stage.Recording? {
      m := Apply(s, Record(i));
      RecordsWhat(s, i);
      events := [Record(i)];
      assert events[1..] == [];
    }
    t := WritesWhat(m, i);
    HalfIsUnsafe(s, i, name, t);
    assert Runs(s, events, m);
    hide *;
    ThenStep(s, events, m, Write(i), t);
    events := events + [Write(i)];
  }

  lemma RecordsWhat(s: State, i: nat)
    requires i < |s.processes| && s.processes[i].stage.Recording?
    ensures Enabled(s, Record(i))
    ensures var t := Apply(s, Record(i)); var f := FolderOf(s, s.processes[i].version);
            && t.processes == s.processes[i := s.processes[i].(stage := Writing(Sizes(f.entries)))]
            && t.folders == s.folders && t.published == s.published
  {
    hide IsIntact, Sizes, FolderOf;
  }

  lemma WritesWhat(s: State, i: nat) returns (t: State)
    requires i < |s.processes| && s.processes[i].stage.Writing?
    ensures Enabled(s, Write(i)) && t == Apply(s, Write(i)) && t.published == s.published
    ensures var p := s.processes[i]; var f := FolderOf(s, p.version);
            && p.version in t.folders
            && t.folders[p.version] == f.(marker := Some(Marker(p.archive.hash, p.archive.size, p.stage.files)))
  {
    t := Apply(s, Write(i));
    hide IsIntact, Sizes, FolderOf;
  }

  lemma HalfIsUnsafe(s: State, i: nat, name: string, t: State)
    requires AboutToMark(s, i, name) && WellPublished(s.published) && t.published == s.published
    requires var p := s.processes[i]; var f := FolderOf(s, p.version);
             && p.version in t.folders
             && t.folders[p.version]
                == f.(marker := Some(Marker(p.archive.hash, p.archive.size,
                                            if p.stage.Recording? then Sizes(f.entries) else p.stage.files)))
    ensures !AllMarkersSafe(t)
    ensures s.processes[i].stage.Recording? && |s.processes[i].archive.files| > 1 ==>
              IsIntact(t.folders[s.processes[i].version])
  {
    var p := s.processes[i];
    var g, files := t.folders[p.version], p.archive.files;
    assert name !in g.entries && name in files;
    forall a <- t.published ensures !StandsOver(g, a) {
      if a.hash == p.archive.hash {
        assert a == p.archive;
      }
    }
    if p.stage.Recording? && |files| > 1 {
      assert |files.Keys| == |files|;
      var rest := files.Keys - {name};
      assert files.Keys == rest + {name};
      assert |rest| > 0;
      var other :| other in rest;
      assert other in g.entries;
      assert other in g.marker.value.files;
    }
  }

  /** Whoever holds the folder empties it: with the whole archive in it, one entry goes. */
  lemma RemovesEntry(s: State, j: nat, name: string) returns (t: State)
    requires j < |s.processes| && s.processes[j].stage.Emptying?
    requires name in FolderOf(s, s.processes[j].version).entries
    ensures Enabled(s, RemoveEntry(j, name)) && t == Apply(s, RemoveEntry(j, name)) && Alone(s, t, j)
    ensures var v := s.processes[j].version; FolderOf(t, v).entries == FolderOf(s, v).entries - {name}
  {
    t := Apply(s, RemoveEntry(j, name));
    GoesAlone(s, RemoveEntry(j, name));
    hide Alone;
  }

  /** A process that took the lock finds no marker and goes on to replace what is there. */
  lemma ChecksAndFetches(s: State, j: nat) returns (t: State)
    requires j < |s.processes| && s.processes[j].stage.Checking? && StageOk(s, j)
    requires FolderOf(s, s.processes[j].version).marker == None
    ensures Runs(s, [Check(j)] + [Fetched(j)], t) && Alone(s, t, j) && t.folders == s.folders
    ensures t.processes[j].stage == Clearing && StageOk(t, j)
  {
    var m := Apply(s, Check(j));
    assert m == Goto(s, j, Fetching);
    t := Apply(m, Fetched(j));
    assert Runs(s, [], s) && [] + [Check(j)] == [Check(j)];
    hide Runs, Sizes, StandsOver;
    ThenStep(s, [], s, Check(j), m);
    ThenStep(s, [Check(j)], m, Fetched(j), t);
  }

  lemma HolderRemovesOne(s: State, j: nat, name: string) returns (events: seq<Event>, t: State)
    requires j < |s.processes| && s.processes[j].stage.Checking? && StageOk(s, j)
    requires FolderOf(s, s.processes[j].version).marker == None && name in FolderOf(s, s.processes[j].version).entries
    ensures Runs(s, events, t) && (forall e <- events :: TakesNoLock(e)) && Alone(s, t, j)
    ensures var v := s.processes[j].version; FolderOf(t, v).entries == FolderOf(s, v).entries - {name}
  {
    var first, v := [Check(j)] + [Fetched(j)], s.processes[j].version;
    var m := ChecksAndFetches(s, j);
    assert FolderOf(m, v) == FolderOf(s, v);
    assert IsUnpacking(m.processes[j].stage) && Rank(m.processes[j].stage) >= 3;
    assert forall e <- first :: TakesNoLock(e);
    hide *;
    var second, n := UnpacksAlone(m, j, true);
    AloneAgain(s, m, n, j);
    ThenRun(s, first, m, second, n);
    t := RemovesEntry(n, j, name);
    AloneAgain(s, n, t, j);
    ThenStep(s, first + second, n, RemoveEntry(j, name), t);
    events := first + second + [RemoveEntry(j, name)];
    RemovalTakesNone(j, name);
  }

  lemma RemovalTakesNone(j: nat, name: string)
    ensures TakesNoLock(RemoveEntry(j, name)) && TakesNoLock(SweepEntry(j, name)) && TakesNoLock(SweepMarker(j))
  {
  }

  /** And so does a process of another version that removes this one. */
  lemma SweeperRemovesOne(s: State, j: nat, name: string) returns (events: seq<Event>, t: State)
    requires j < |s.processes| && s.processes[j].stage.Sweeping? && !s.processes[j].stage.unmarked
    requires name in FolderOf(s, s.processes[j].stage.other).entries
    ensures Runs(s, events, t) && (forall e <- events :: TakesNoLock(e)) && Alone(s, t, j)
    ensures var v := s.processes[j].stage.other; FolderOf(t, v).entries == FolderOf(s, v).entries - {name}
  {
    var m := SweepsMarker(s, j);
    t := SweepsEntry(m, j, name);
    assert Runs(s, [], s) && [] + [SweepMarker(j)] == [SweepMarker(j)];
    hide *;
    RemovalTakesNone(j, name);
    ThenStep(s, [], s, SweepMarker(j), m);
    ThenStep(s, [SweepMarker(j)], m, SweepEntry(j, name), t);
    AloneAgain(s, m, t, j);
    events := [SweepMarker(j)] + [SweepEntry(j, name)];
  }

  lemma SweepsMarker(s: State, j: nat) returns (t: State)
    requires j < |s.processes| && s.processes[j].stage.Sweeping? && !s.processes[j].stage.unmarked
    ensures Enabled(s, SweepMarker(j)) && t == Apply(s, SweepMarker(j)) && Alone(s, t, j)
    ensures t.processes[j].stage == s.processes[j].stage.(unmarked := true)
    ensures var v := s.processes[j].stage.other; FolderOf(t, v).entries == FolderOf(s, v).entries
  {
    t := Apply(s, SweepMarker(j));
    hide IsIntact, Sizes;
  }

  lemma SweepsEntry(s: State, j: nat, name: string) returns (t: State)
    requires j < |s.processes| && s.processes[j].stage.Sweeping? && s.processes[j].stage.unmarked
    requires name in FolderOf(s, s.processes[j].stage.other).entries
    ensures Enabled(s, SweepEntry(j, name)) && t == Apply(s, SweepEntry(j, name)) && Alone(s, t, j)
    ensures var v := s.processes[j].stage.other; FolderOf(t, v).entries == FolderOf(s, v).entries - {name}
  {
    t := Apply(s, SweepEntry(j, name));
    hide IsIntact, Sizes;
  }

  /** Whoever takes the lock on a folder in which a dropped install still unpacks may bring a marker to stand over part of
      an archive, from whatever state and at whatever stage of the unpacking; up to the moment the marker's contents are
      recorded, even one that reads as an intact install. */
  lemma DisturbanceIsUnsafe(s: State, e: Event, i: nat) returns (events: seq<Event>, t: State)
    requires Inv(s) && Enabled(s, e) && WellPublished(s.published)
    requires i < |s.processes| && i != e.who && s.processes[i].detached && IsUnpacking(s.processes[i].stage)
    requires Takes(s, e, s.processes[i].version)
    ensures Runs(Apply(s, e), events, t) && Undisturbed(Apply(s, e), events) && !AllMarkersSafe(t)
    ensures var p := s.processes[i];
            && p.version in t.folders
            && (!p.stage.Writing? && |p.archive.files| > 1 ==> IsIntact(t.folders[p.version]))
  {
    var taken := Apply(s, e);
    DisturberIsThere(s, e, i);
    hide Apply, Enabled, Inv, Runs, StageOk, Undisturbed, FolderOf, AllMarkersSafe, IsIntact, Sizes;
    var first, m := RecordsWhole(taken, i);
    var name :| name in m.processes[i].archive.files;
    var second, n := DisturberRemovesOne(taken, m, i, e.who, name);
    ThenRun(taken, first, m, second, n);
    StillAboutToMark(taken, m, n, i, e.who, name);
    var third;
    third, t := MarksHalf(n, i, name);
    ThenRun(taken, first + second, n, third, t);
    events := first + second + third;
    UndisturbedWithoutTaking(taken, events);
  }

  /** The one that took the lock, and the one that unpacks on. */
  ghost predicate Beside(s: State, i: nat, j: nat) {
    && i < |s.processes| && j < |s.processes| && i != j
    && s.processes[i].detached && IsUnpacking(s.processes[i].stage) && StageOk(s, i) && StageOk(s, j)
    && var v := s.processes[i].version;
       && s.processes[i].archive in s.published
       && ((s.processes[j].stage.Checking? && s.processes[j].version == v)
           || (s.processes[j].stage.Sweeping? && !s.processes[j].stage.unmarked && s.processes[j].stage.other == v))
  }

  lemma DisturberIsThere(s: State, e: Event, i: nat)
    requires Inv(s) && Enabled(s, e) && i < |s.processes| && i != e.who
    requires s.processes[i].detached && IsUnpacking(s.processes[i].stage) && Takes(s, e, s.processes[i].version)
    ensures Beside(Apply(s, e), i, e.who) && Apply(s, e).processes[i] == s.processes[i]
    ensures Apply(s, e).published == s.published
  {
    OwnStageStaysOk(s, e);
    OthersStagesStayOk(s, e, i);
    OthersStandStill(s, e, i);
    SameProcesses(s, e);
    assert StageOk(s, i);
    hide AllMarkersSafe, LocksOk, Exclusive, FolderOf, IsIntact, Sizes, StandsOver;
  }

  /** The dropped install unpacks up to the marker, whatever stage it was at. */
  lemma RecordsWhole(s: State, i: nat) returns (events: seq<Event>, t: State)
    requires i < |s.processes| && IsUnpacking(s.processes[i].stage) && StageOk(s, i)
    ensures Runs(s, events, t) && (forall e <- events :: TakesNoLock(e)) && Alone(s, t, i) && StageOk(t, i)
    ensures t.processes[i].stage == if s.processes[i].stage.Writing? then s.processes[i].stage else Recording
  {
    hide StageOk;
    if s.processes[i].stage.Writing? {
      events, t := [], s;
    } else {
      events, t := UnpacksAlone(s, i, false);
    }
  }

  lemma WholeFolder(s: State, i: nat)
    requires i < |s.processes| && StageOk(s, i) && (s.processes[i].stage.Recording? || s.processes[i].stage.Writing?)
    ensures var p := s.processes[i];
            && FolderOf(s, p.version).entries == p.archive.files && FolderOf(s, p.version).marker == None
            && (p.stage.Writing? ==> p.stage.files == Sizes(p.archive.files))
  {
    hide Sizes, StandsOver;
  }

  lemma DisturberRemovesOne(s: State, m: State, i: nat, j: nat, name: string) returns (events: seq<Event>, t: State)
    requires Beside(s, i, j) && Alone(s, m, i) && StageOk(m, i) && name in m.processes[i].archive.files
    requires m.processes[i].stage.Recording? || m.processes[i].stage.Writing?
    ensures Runs(m, events, t) && (forall e <- events :: TakesNoLock(e)) && Alone(m, t, j)
    ensures var v := m.processes[i].version; FolderOf(t, v).entries == FolderOf(m, v).entries - {name}
  {
    WholeFolder(m, i);
    CheckingRestsOnNothing(s, m, j);
    hide StageOk, FolderOf, Runs;
    if m.processes[j].stage.Checking? {
      events, t := HolderRemovesOne(m, j, name);
    } else {
      events, t := SweeperRemovesOne(m, j, name);
    }
  }

  lemma CheckingRestsOnNothing(s: State, m: State, j: nat)
    requires j < |s.processes| && j < |m.processes| && m.processes[j] == s.processes[j] && m.published == s.published
    requires StageOk(s, j)
    ensures m.processes[j].stage.Checking? ==> StageOk(m, j)
  {
  }

  lemma StillAboutToMark(s: State, m: State, n: State, i: nat, j: nat, name: string)
    requires Beside(s, i, j) && Alone(s, m, i) && Alone(m, n, j) && StageOk(m, i)
    requires m.processes[i].stage.Recording? || m.processes[i].stage.Writing?
    requires name in m.processes[i].archive.files
    requires var v := m.processes[i].version; FolderOf(n, v).entries == FolderOf(m, v).entries - {name}
    ensures AboutToMark(n, i, name) && n.published == s.published && n.processes[i] == m.processes[i]
  {
    WholeFolder(m, i);
    hide StageOk, FolderOf, Sizes;
  }

  // Exactly when.

  /** From here on, whatever happens, markers stay safe, as long as no one takes the lock on a folder in which a dropped
      install still unpacks. */
  ghost predicate GoesOnSafely(s: State) {
    forall events, t :: Runs(s, events, t) && Undisturbed(s, events) ==> AllMarkersSafe(t)
  }

  lemma InvGoesOnSafely(s: State)
    requires Inv(s)
    ensures GoesOnSafely(s)
  {
    hide *;
    forall events, t | Runs(s, events, t) && Undisturbed(s, events) ensures AllMarkersSafe(t) {
      RunsKeepInv(s, events, t);
      InvMarksSafely(t);
    }
    SafelyOn(s);
  }

  lemma InvMarksSafely(s: State)
    requires Inv(s)
    ensures AllMarkersSafe(s)
  {
  }

  lemma SafelyOn(s: State)
    requires forall events, t :: Runs(s, events, t) && Undisturbed(s, events) ==> AllMarkersSafe(t)
    ensures GoesOnSafely(s)
  {
    hide Runs, Undisturbed, AllMarkersSafe;
  }

  lemma PublishedStays(s: State, e: Event)
    requires Enabled(s, e)
    ensures Apply(s, e).published == s.published
  {
    hide FolderOf, IsIntact, Sizes, Goto, Put, Unlock, UnlockAll;
  }

  /** One step can lead to a marker over part of an archive, with nothing more going wrong, exactly when it takes the lock
      on a folder in which a dropped install still unpacks. */
  lemma StepIsSafeExactly(s: State, e: Event)
    requires Inv(s) && Enabled(s, e) && WellPublished(s.published)
    ensures GoesOnSafely(Apply(s, e)) <==> !Disturbs(s, e)
  {
    SameProcesses(s, e);
    hide Inv, Apply, Enabled, Runs, Undisturbed, AllMarkersSafe, Takes, IsIntact;
    if Disturbs(s, e) {
      var i :| 0 <= i < |s.processes| && i != e.who && s.processes[i].detached && IsUnpacking(s.processes[i].stage) &&
               Takes(s, e, s.processes[i].version);
      var events, t := DisturbanceIsUnsafe(s, e, i);
      assert !GoesOnSafely(Apply(s, e));
    } else {
      StepKeepsInv(s, e);
      InvGoesOnSafely(Apply(s, e));
    }
  }

  /** At no point of the run is a marker over part of an archive in the making. */
  ghost predicate SafeThroughout(s: State, events: seq<Event>)
    decreases |events|
  {
    && GoesOnSafely(s)
    && (events != [] && Enabled(s, events[0]) ==> SafeThroughout(Apply(s, events[0]), events[1..]))
  }

  /** Exactly the undisturbed runs are safe: as long as no one takes the lock on a folder in which a dropped install still
      unpacks, every marker stands over a whole archive; and from the first time someone does, one may not. */
  lemma {:induction false} RunIsSafeExactly(s: State, events: seq<Event>, t: State)
    requires Inv(s) && Runs(s, events, t) && WellPublished(s.published)
    ensures SafeThroughout(s, events) <==> Undisturbed(s, events)
    decreases |events|
  {
    hide Inv, Apply, Enabled, GoesOnSafely, Disturbs, WellPublished;
    InvGoesOnSafely(s);
    if events != [] {
      SameProcesses(s, events[0]);
      StepIsSafeExactly(s, events[0]);
      if !Disturbs(s, events[0]) {
        StepKeepsInv(s, events[0]);
        PublishedStays(s, events[0]);
        RunIsSafeExactly(Apply(s, events[0]), events[1..], t);
      } else {
        UnsafeAtOnce(Apply(s, events[0]), events[1..]);
      }
    }
  }

  lemma UnsafeAtOnce(s: State, events: seq<Event>)
    requires !GoesOnSafely(s)
    ensures !SafeThroughout(s, events)
  {
  }

  // Two ways it comes about.

  /** An install that starts from a folder without an intact install, up to the beginning of its file work. */
  lemma StartsUnpacking(s: State, i: nat) returns (events: seq<Event>, t: State)
    requires Inv(s) && i < |s.processes| && s.processes[i].stage.Waiting? && s.processes[i].version !in s.locks
    requires !IsIntact(FolderOf(s, s.processes[i].version)) && !Disturbs(s, Acquire(i))
    ensures Runs(s, events, t) && Undisturbed(s, events) && Inv(t)
    ensures |t.processes| == |s.processes| && t.processes == s.processes[i := s.processes[i].(stage := Clearing)]
    ensures t.published == s.published && t.locks == s.locks[s.processes[i].version := i]
    ensures t.folders == s.folders[s.processes[i].version := FolderOf(s, s.processes[i].version)]
  {
    var a, b := Apply(s, Acquire(i)), Goto(Apply(s, Acquire(i)), i, Fetching);
    t := Goto(b, i, Clearing);
    StartsWhat(s, i, a, b, t);
    assert Runs(s, [], s) && [] + [Acquire(i)] == [Acquire(i)];
    hide *;
    StepKeepsInv(s, Acquire(i));
    ThenStep(s, [], s, Acquire(i), a);
    var first, second := [Acquire(i)], [Acquire(i)] + [Check(i)];
    ChecksDisturbNone(a, b, i);
    UndisturbedOne(s, Acquire(i));
    StepKeepsInv(a, Check(i));
    ThenStep(s, first, a, Check(i), b);
    UndisturbedThenStep(s, first, a, Check(i));
    StepKeepsInv(b, Fetched(i));
    ThenStep(s, second, b, Fetched(i), t);
    UndisturbedThenStep(s, second, b, Fetched(i));
    events := second + [Fetched(i)];
  }

  lemma StartsWhat(s: State, i: nat, a: State, b: State, t: State)
    requires i < |s.processes| && s.processes[i].stage.Waiting? && s.processes[i].version !in s.locks
    requires !IsIntact(FolderOf(s, s.processes[i].version))
    requires a == Apply(s, Acquire(i)) && i < |a.processes| && b == Goto(a, i, Fetching) && t == Goto(b, i, Clearing)
    ensures Enabled(s, Acquire(i)) && Enabled(a, Check(i)) && Apply(a, Check(i)) == b
    ensures Enabled(b, Fetched(i)) && Apply(b, Fetched(i)) == t
    ensures |t.processes| == |s.processes| && t.processes == s.processes[i := s.processes[i].(stage := Clearing)]
    ensures t.published == s.published && t.locks == s.locks[s.processes[i].version := i]
    ensures t.folders == s.folders[s.processes[i].version := FolderOf(s, s.processes[i].version)]
  {
    hide IsIntact;
  }

  lemma ChecksDisturbNone(a: State, b: State, i: nat)
    requires i < |a.processes| && i < |b.processes|
    ensures !Disturbs(a, Check(i)) && !Disturbs(b, Fetched(i))
  {
  }

  lemma UndisturbedOne(s: State, e: Event)
    requires Enabled(s, e) && !Disturbs(s, e)
    ensures Undisturbed(s, [e])
  {
    assert [e][1..] == [];
  }

  lemma DropsThen(s: State, i: nat) returns (t: State)
    requires Inv(s) && i < |s.processes| && s.processes[i].stage.Clearing? && !s.processes[i].detached
    ensures Enabled(s, Drop(i)) && !Disturbs(s, Drop(i)) && t == Apply(s, Drop(i)) && Inv(t)
    ensures |t.processes| == |s.processes| && t.processes == s.processes[i := s.processes[i].(detached := true)]
    ensures t.published == s.published && s.processes[i].version !in t.locks && t.folders == s.folders
  {
    t := Apply(s, Drop(i));
    StepKeepsInv(s, Drop(i));
    HolderHasLock(s, i, s.processes[i].version);
    hide Inv, IsIntact, FolderOf;
  }

  /** An install that is dropped as soon as its file work begins, and works on with the lock let go. */
  lemma DropsUnpacking(s: State, i: nat) returns (events: seq<Event>, t: State)
    requires Inv(s) && i < |s.processes| && s.processes[i].stage.Waiting? && s.processes[i].version !in s.locks
    requires !IsIntact(FolderOf(s, s.processes[i].version)) && !Disturbs(s, Acquire(i))
    ensures Runs(s, events, t) && Inv(t) && t.published == s.published
    ensures |t.processes| == |s.processes|
    ensures t.processes == s.processes[i := s.processes[i].(stage := Clearing, detached := true)]
    ensures t.processes[i].version !in t.locks
  {
    WaitingIsAttached(s, i);
    hide *;
    var first, m := StartsUnpacking(s, i);
    t := DropsThen(m, i);
    ThenStep(s, first, m, Drop(i), t);
    events := first + [Drop(i)];
  }

  lemma WaitingIsAttached(s: State, i: nat)
    requires Inv(s) && i < |s.processes| && s.processes[i].stage.Waiting?
    ensures !s.processes[i].detached
  {
    assert StageOk(s, i);
  }

  /** From there whoever takes the lock may bring a marker over part of the archive. */
  lemma ThenDisturbed(start: State, first: seq<Event>, s: State, e: Event, i: nat) returns (events: seq<Event>, t: State)
    requires Runs(start, first, s) && Inv(s) && WellPublished(s.published) && Enabled(s, e)
    requires i < |s.processes| && i != e.who && s.processes[i].detached && s.processes[i].stage.Clearing?
    requires Takes(s, e, s.processes[i].version) && |s.processes[i].archive.files| > 1
    ensures Runs(start, events, t) && !AllMarkersSafe(t)
    ensures var v := s.processes[i].version; v in t.folders && IsIntact(t.folders[v])
  {
    assert IsUnpacking(s.processes[i].stage);
    hide *;
    var more;
    more, t := DisturbanceIsUnsafe(s, e, i);
    ThenStep(start, first, s, e, Apply(s, e));
    ThenRun(start, first + [e], Apply(s, e), more, t);
    events := first + [e] + more;
  }

  lemma StartDisturbsNone(s: State, i: nat)
    requires IsStart(s) && i < |s.processes|
    ensures Inv(s) && !Disturbs(s, Acquire(i)) && s.processes[i].stage.Waiting? && s.processes[i].version !in s.locks
  {
    StartInv(s);
    forall j | 0 <= j < |s.processes| ensures !s.processes[j].detached && s.processes[j].stage.Waiting? {
      assert s.processes[j] in s.processes;
    }
  }

  /** An install dropped while it unpacks, and another of the same version that then takes the lock. */
  lemma DroppedInstallMarksAnother(start: State, i: nat, j: nat) returns (events: seq<Event>, t: State)
    requires IsStart(start) && WellPublished(start.published) && i < |start.processes| && j < |start.processes| && i != j
    requires start.processes[i].version == start.processes[j].version
    requires !IsIntact(FolderOf(start, start.processes[i].version)) && |start.processes[i].archive.files| > 1
    ensures Runs(start, events, t) && !AllMarkersSafe(t)
    ensures var v := start.processes[i].version; v in t.folders && IsIntact(t.folders[v])
  {
    StartDisturbsNone(start, i);
    StartDisturbsNone(start, j);
    hide IsStart, Inv, Runs, FolderOf, IsIntact, WellPublished, AllMarkersSafe, Apply, Disturbs;
    var first, s := DropsUnpacking(start, i);
    events, t := ThenDisturbed(start, first, s, Acquire(j), i);
  }

  /** A whole install, up to the record of what it holds. */
  lemma RecordsAlone(s: State, j: nat) returns (events: seq<Event>, t: State)
    requires Inv(s) && j < |s.processes| && s.processes[j].stage.Waiting? && s.processes[j].version !in s.locks
    requires !IsIntact(FolderOf(s, s.processes[j].version)) && !Disturbs(s, Acquire(j))
    ensures Runs(s, events, t) && Inv(t) && Alone(s, t.(locks := s.locks), j) && OthersStand(s, t, j)
    ensures t.locks == s.locks[s.processes[j].version := j] && t.processes[j].stage.Recording?
  {
    hide *;
    var first, a := StartsUnpacking(s, j);
    StageIsOk(a, j);
    UnpacksFromClearing(a, j);
    var second, b := UnpacksAlone(a, j, false);
    UndisturbedWithoutTaking(a, second);
    RunsKeepInv(a, second, b);
    ThenRun(s, first, a, second, b);
    events, t := first + second, b;
    StartedAlone(s, a, b, j);
  }

  lemma UnpacksFromClearing(s: State, i: nat)
    requires i < |s.processes| && s.processes[i].stage.Clearing?
    ensures IsUnpacking(s.processes[i].stage)
  {
  }

  lemma StartedAlone(s: State, a: State, b: State, j: nat)
    requires j < |s.processes| == |a.processes| && a.processes == s.processes[j := s.processes[j].(stage := Clearing)]
    requires a.published == s.published && a.locks == s.locks[s.processes[j].version := j]
    requires a.folders == s.folders[s.processes[j].version := FolderOf(s, s.processes[j].version)]
    requires Alone(a, b, j) && OthersStand(a, b, j)
    ensures Alone(s, b.(locks := s.locks), j) && OthersStand(s, b, j)
    ensures b.locks == s.locks[s.processes[j].version := j]
  {
    hide FolderOf;
  }

  /** The marker is written, and the removal of the other versions begins. */
  lemma MarksAlone(s: State, j: nat) returns (events: seq<Event>, t: State)
    requires Inv(s) && j < |s.processes| && s.processes[j].stage.Recording? && !s.processes[j].detached
    ensures Runs(s, events, t) && Inv(t) && Alone(s, t, j) && OthersStand(s, t, j)
    ensures t.processes[j].stage == Cleaning(s.folders.Keys - {s.processes[j].version})
  {
    hide *;
    var m := RecordsOn(s, j);
    t := WritesOn(m, j);
    TakesNone(j);
    NoTakingDisturbsNone(s, Record(j));
    NoTakingDisturbsNone(m, Write(j));
    StepKeepsInv(s, Record(j));
    StepKeepsInv(m, Write(j));
    NoRun(s);
    ThenStep(s, [], s, Record(j), m);
    ThenStep(s, [] + [Record(j)], m, Write(j), t);
    events := [] + [Record(j)] + [Write(j)];
    BothStand(s, m, t, j);
  }

  lemma NoRun(s: State)
    ensures Runs(s, [], s)
  {
  }

  lemma TakesNone(j: nat)
    ensures TakesNoLock(Record(j)) && TakesNoLock(Write(j))
  {
  }

  lemma BothStand(s: State, m: State, t: State, j: nat)
    requires Alone(s, m, j) && Alone(m, t, j) && OthersStand(s, m, j) && OthersStand(m, t, j)
    ensures Alone(s, t, j) && OthersStand(s, t, j)
  {
  }

  /** A whole install, up to the removal of the other versions. */
  lemma InstallsAlone(s: State, j: nat) returns (events: seq<Event>, t: State)
    requires Inv(s) && j < |s.processes| && s.processes[j].stage.Waiting? && s.processes[j].version !in s.locks
    requires !IsIntact(FolderOf(s, s.processes[j].version)) && !Disturbs(s, Acquire(j))
    ensures Runs(s, events, t) && Inv(t) && Alone(s, t.(locks := s.locks), j) && OthersStand(s, t, j)
    ensures t.locks == s.locks[s.processes[j].version := j]
    ensures t.processes[j].stage.Cleaning? &&
            forall v <- s.folders :: v != s.processes[j].version ==> v in t.processes[j].stage.todo
  {
    hide *;
    WaitingIsAttached(s, j);
    var first, m := RecordsAlone(s, j);
    assert Alone(s, m.(locks := s.locks), j);
    StillAttached(s, m, j);
    var second, n := MarksAlone(m, j);
    ThenRun(s, first, m, second, n);
    events, t := first + second, n;
    InstalledAlone(s, m, t, j);
  }

  lemma StillAttached(s: State, m: State, j: nat)
    requires Alone(s, m.(locks := s.locks), j) && !s.processes[j].detached
    ensures j < |m.processes| && !m.processes[j].detached
  {
  }

  lemma InstalledAlone(s: State, m: State, t: State, j: nat)
    requires Alone(s, m.(locks := s.locks), j) && OthersStand(s, m, j) && m.locks == s.locks[s.processes[j].version := j]
    requires Alone(m, t, j) && OthersStand(m, t, j)
    requires t.processes[j].stage == Cleaning(m.folders.Keys - {m.processes[j].version})
    ensures Alone(s, t.(locks := s.locks), j) && OthersStand(s, t, j)
    ensures t.locks == s.locks[s.processes[j].version := j]
    ensures forall v <- s.folders :: v != s.processes[j].version ==> v in t.processes[j].stage.todo
  {
  }

  lemma RecordsOn(s: State, i: nat) returns (t: State)
    requires i < |s.processes| && s.processes[i].stage.Recording? && !s.processes[i].detached
    ensures Enabled(s, Record(i)) && t == Apply(s, Record(i)) && Alone(s, t, i) && OthersStand(s, t, i)
    ensures i < |t.processes| && t.processes[i].stage.Writing? && !t.processes[i].detached
    ensures t.processes[i].version == s.processes[i].version && t.folders == s.folders
  {
    t := Apply(s, Record(i));
    hide IsIntact, Sizes, FolderOf;
  }

  lemma StageIsOk(s: State, i: nat)
    requires Inv(s) && i < |s.processes|
    ensures StageOk(s, i)
  {
    hide AllMarkersSafe, LocksOk, Exclusive, StageOk;
  }

  lemma NoTakingDisturbsNone(s: State, e: Event)
    requires e.who < |s.processes| && TakesNoLock(e)
    ensures !Disturbs(s, e)
  {
  }

  lemma WritesOn(s: State, i: nat) returns (t: State)
    requires i < |s.processes| && s.processes[i].stage.Writing? && !s.processes[i].detached
    ensures Enabled(s, Write(i)) && t == Apply(s, Write(i)) && Alone(s, t, i) && OthersStand(s, t, i)
    ensures t.processes[i].stage == Cleaning(s.folders.Keys - {s.processes[i].version})
  {
    t := Apply(s, Write(i));
    hide IsIntact, Sizes, FolderOf;
  }

  /** An install dropped while it unpacks, and one of another version that then removes this one as old. */
  lemma DroppedInstallIsSwept(start: State, i: nat, j: nat) returns (events: seq<Event>, t: State)
    requires IsStart(start) && WellPublished(start.published) && i < |start.processes| && j < |start.processes| && i != j
    requires start.processes[i].version != start.processes[j].version && start.processes[i].version in start.folders
    requires !IsIntact(FolderOf(start, start.processes[i].version)) && |start.processes[i].archive.files| > 1
    requires !IsIntact(FolderOf(start, start.processes[j].version))
    ensures Runs(start, events, t) && !AllMarkersSafe(t)
    ensures var v := start.processes[i].version; v in t.folders && IsIntact(t.folders[v])
  {
    hide *;
    var v := start.processes[i].version;
    StartDisturbsNone(start, j);
    StartIsFree(start);
    var first, a := InstallsAlone(start, j);
    OtherFolderIsFree(start, a, i, j);
    var second, s := DropsUnpacking(a, i);
    ThenRun(start, first, a, second, s);
    TriesTheDropped(start, a, s, i, j);
    events, t := ThenDisturbed(start, first + second, s, TryLock(j, v), i);
  }

  lemma OtherFolderIsFree(start: State, a: State, i: nat, j: nat)
    requires IsStart(start) && i < |start.processes| && j < |start.processes| && i != j
    requires start.processes[i].version != start.processes[j].version && start.processes[i].version in start.folders
    requires Alone(start, a.(locks := start.locks), j) && OthersStand(start, a, j)
    requires a.locks == start.locks[start.processes[j].version := j]
    ensures i < |a.processes| && a.processes[i] == start.processes[i] && a.processes[i].stage.Waiting?
    ensures var v := start.processes[i].version; v !in a.locks && FolderOf(a, v) == FolderOf(start, v)
    ensures !Disturbs(a, Acquire(i)) && a.published == start.published
  {
    StartIsFree(start);
    assert start.processes[i] in start.processes;
    hide IsStart;
  }

  lemma TriesTheDropped(start: State, a: State, s: State, i: nat, j: nat)
    requires i < |start.processes| && j < |start.processes| && i != j && start.processes[i].version in start.folders
    requires start.processes[i].version != start.processes[j].version
    requires Alone(start, a.(locks := start.locks), j) && a.processes[j].stage.Cleaning?
    requires forall v <- start.folders :: v != start.processes[j].version ==> v in a.processes[j].stage.todo
    requires s.processes == a.processes[i := a.processes[i].(stage := Clearing, detached := true)]
    requires s.processes[i].version !in s.locks
    ensures var e := TryLock(j, start.processes[i].version);
            && Enabled(s, e) && i < |s.processes| && Takes(s, e, s.processes[i].version)
            && s.processes[i].version == start.processes[i].version && s.processes[i].archive == start.processes[i].archive
  {
    hide FolderOf, IsIntact;
  }

  lemma StartIsFree(s: State)
    requires IsStart(s)
    ensures s.locks == map[] && forall k :: 0 <= k < |s.processes| ==> !s.processes[k].detached
  {
    forall k | 0 <= k < |s.processes| ensures !s.processes[k].detached {
      assert s.processes[k] in s.processes;
    }
  }
}

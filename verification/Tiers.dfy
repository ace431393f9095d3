/** What a memory tier in front of a disk tier answers, and the one map both stand for
    (src/memo/composite_store.rs, src/memo/memory_store.rs, src/memo/disk_store.rs). */
module Tiers {
  import opened Wrappers

  /** A stored value and the clock's reading at which it dies; none for one that never does. */
  datatype Held = Held(value: seq<byte>, deadline: Option<nat>)

  /** What a hit returns: the value, and the positive time it has left. */
  datatype Entry = Entry(value: seq<byte>, remaining: Option<nat>)

  /** `capacity` is the memory tier's byte budget, `promote` the longest that a disk hit may be answered from memory,
      `grain` the clock readings in one of the units a disk deadline is cut down to, and `horizon` the last reading the
      clock can give. */
  datatype Config = Config(capacity: nat, promote: nat, grain: nat, horizon: nat)

  datatype Store = Store(memory: map<string, Held>, disk: map<string, Held>, now: nat)

  predicate Live(h: Held, now: nat) {
    h.deadline.Some? ==> now < h.deadline.value
  }

  function Look(tier: map<string, Held>, key: string, now: nat): Option<Entry> {
    if key in tier && Live(tier[key], now)
    then Some(Entry(tier[key].value,
                    if tier[key].deadline.None? then None else Some(tier[key].deadline.value - now)))
    else None
  }

  function LiveKeys(tier: map<string, Held>, now: nat): set<string> {
    set key <- tier | Live(tier[key], now)
  }

  /** A deadline past what the clock can read is none. */
  function DeadlineAt(c: Config, now: nat, ttl: nat): Option<nat> {
    if now + ttl > c.horizon then None else Some(now + ttl)
  }

  /** The deadline the disk's record keeps, in whole units. */
  function CutDown(c: Config, deadline: Option<nat>): Option<nat>
    requires c.grain > 0
  {
    if deadline.None? then None else Some(deadline.value / c.grain * c.grain)
  }

  predicate MemoryAdmits(c: Config, value: seq<byte>, ttl: nat) {
    ttl > 0 && |value| <= c.capacity
  }

  function MemorySet(c: Config, s: Store, key: string, value: seq<byte>, ttl: nat): Store {
    if MemoryAdmits(c, value, ttl)
    then s.(memory := s.memory[key := Held(value, DeadlineAt(c, s.now, ttl))])
    else s
  }

  function PromotedTtl(c: Config, remaining: Option<nat>): nat {
    if remaining.Some? && remaining.value < c.promote then remaining.value else c.promote
  }

  function Get(c: Config, s: Store, key: string): (Store, Option<Entry>) {
    var front := Look(s.memory, key, s.now);
    var back := Look(s.disk, key, s.now);
    if front.Some? then (s, front)
    else if back.None? || c.promote == 0 then (s, back)
    else (MemorySet(c, s, key, back.value.value, PromotedTtl(c, back.value.remaining)), back)
  }

  function Set(c: Config, s: Store, key: string, value: seq<byte>, ttl: nat, diskFails: bool): (Store, bool)
    requires c.grain > 0
  {
    var written := ttl > 0 && !diskFails;
    var d := if written
             then s.(disk := s.disk[key := Held(value, CutDown(c, DeadlineAt(c, s.now, ttl)))])
             else s;
    (MemorySet(c, d, key, value, ttl), written || MemoryAdmits(c, value, ttl))
  }

  function Remove(s: Store, key: string): (Store, bool) {
    (s.(memory := s.memory - {key}, disk := s.disk - {key}),
     Look(s.disk, key, s.now).Some? || Look(s.memory, key, s.now).Some?)
  }

  /** Keeps, on disk, the live entries in `kept` and, in memory, what disk kept and what was dead anyway. */
  function Retain(s: Store, kept: set<string>): (Store, int) {
    (s.(memory := map key <- s.memory | key in kept || !Live(s.memory[key], s.now) :: s.memory[key],
        disk := map key <- s.disk | key in kept && Live(s.disk[key], s.now) :: s.disk[key]),
     |LiveKeys(s.disk, s.now)| - |kept|)
  }

  function Cleanup(s: Store): Store {
    s.(disk := map key <- s.disk | Live(s.disk[key], s.now) :: s.disk[key])
  }

  /** An operation without disk failures, or something the outside does: time passes, memory evicts. */
  datatype Op =
    | DoGet(key: string)
    | DoSet(key: string, value: seq<byte>, ttl: nat)
    | DoRemove(key: string)
    | DoRetain(kept: set<string>)
    | DoCleanup
    | Tick(ticks: nat)
    | Evict(key: string)

  datatype Answer =
    Found(value: Option<seq<byte>>) | Admitted(yes: bool) | Removed(was: bool) | Refused(count: int) | Done

  function ValueOf(e: Option<Entry>): Answer {
    Found(if e.Some? then Some(e.value.value) else None)
  }

  function Step(c: Config, s: Store, op: Op): (Store, Answer)
    requires c.grain > 0
  {
    match op
    case DoGet(key) => var r := Get(c, s, key); (r.0, ValueOf(r.1))
    case DoSet(key, value, ttl) => var r := Set(c, s, key, value, ttl, false); (r.0, Admitted(r.1))
    case DoRemove(key) => var r := Remove(s, key); (r.0, Removed(r.1))
    case DoRetain(kept) => var r := Retain(s, kept); (r.0, Refused(r.1))
    case DoCleanup => (Cleanup(s), Done)
    case Tick(ticks) => (s.(now := s.now + ticks), Done)
    case Evict(key) => (s.(memory := s.memory - {key}), Done)
  }

  /** The map that both tiers stand for: one entry a key, with the exact deadline it was written with. */
  type Contents = map<string, Held>

  function Reference(c: Config, whole: Contents, now: nat, op: Op): (Contents, Answer) {
    match op
    case DoGet(key) => (whole, ValueOf(Look(whole, key, now)))
    case DoSet(key, value, ttl) =>
      (if ttl == 0 then whole else whole[key := Held(value, DeadlineAt(c, now, ttl))], Admitted(ttl > 0))
    case DoRemove(key) => (whole - {key}, Removed(Look(whole, key, now).Some?))
    case DoRetain(kept) =>
      (map key <- whole | key in kept :: whole[key], Refused(|LiveKeys(whole, now)| - |kept|))
    case _ => (whole, Done)
  }

  /** What is left of a map's entries when their deadlines are cut down. */
  function OnDisk(c: Config, whole: Contents): map<string, Held>
    requires c.grain > 0
  {
    map key <- whole :: Held(whole[key].value, CutDown(c, whole[key].deadline))
  }

  predicate NoLater(d: Option<nat>, e: Option<nat>) {
    e.Some? ==> d.Some? && d.value <= e.value
  }

  predicate MemoryAgrees(c: Config, s: Store, whole: Contents) {
    forall key <- s.memory ::
      && |s.memory[key].value| <= c.capacity
      && (Live(s.memory[key], s.now) ==>
            && key in whole
            && s.memory[key].value == whole[key].value
            && NoLater(s.memory[key].deadline, whole[key].deadline))
  }

  /** Memory's live entries are the map's, expiring no later, and disk answers as the map with its deadlines cut down. */
  ghost predicate Coherent(c: Config, s: Store, whole: Contents)
    requires c.grain > 0
  {
    && MemoryAgrees(c, s, whole)
    && (forall key <- whole :: whole[key].deadline.Some? ==> whole[key].deadline.value <= c.horizon)
    && forall key :: Look(s.disk, key, s.now) == Look(OnDisk(c, whole), key, s.now)
  }

  /** A write memory declines for its size while it holds a live older copy, which it keeps and goes on serving. */
  predicate LeavesStaleCopy(c: Config, s: Store, op: Op) {
    op.DoSet? && op.ttl > 0 && |op.value| > c.capacity && Look(s.memory, op.key, s.now).Some?
  }

  predicate KeepsOnlyLive(s: Store, op: Op) {
    op.DoRetain? ==> op.kept <= LiveKeys(s.disk, s.now)
  }

  lemma CutDownIsNoLater(c: Config, deadline: Option<nat>)
    requires c.grain > 0
    ensures NoLater(CutDown(c, deadline), deadline)
    ensures deadline.Some? ==> deadline.value < CutDown(c, deadline).value + c.grain
    ensures c.grain == 1 ==> CutDown(c, deadline) == deadline
  {
    if deadline.Some? {
      var q := deadline.value / c.grain;
      assert deadline.value == q * c.grain + deadline.value % c.grain;
    }
  }

  lemma GetKeepsCoherent(c: Config, s: Store, whole: Contents, key: string)
    requires c.grain > 0 && Coherent(c, s, whole)
    ensures Coherent(c, Get(c, s, key).0, whole)
  {
    var t := Get(c, s, key).0;
    assert Look(s.disk, key, s.now) == Look(OnDisk(c, whole), key, s.now);
    if key in whole {
      CutDownIsNoLater(c, whole[key].deadline);
    }
  }

  lemma SetKeepsCoherent(c: Config, s: Store, whole: Contents, key: string, value: seq<byte>, ttl: nat)
    requires c.grain > 0 && Coherent(c, s, whole)
    requires !LeavesStaleCopy(c, s, DoSet(key, value, ttl))
    ensures Coherent(c, Set(c, s, key, value, ttl, false).0, Reference(c, whole, s.now, DoSet(key, value, ttl)).0)
  {
    var t := Set(c, s, key, value, ttl, false).0;
    var next := Reference(c, whole, s.now, DoSet(key, value, ttl)).0;
    forall other ensures Look(t.disk, other, t.now) == Look(OnDisk(c, next), other, t.now) {
      assert Look(s.disk, other, s.now) == Look(OnDisk(c, whole), other, s.now);
    }
  }

  lemma RetainKeepsCoherent(c: Config, s: Store, whole: Contents, kept: set<string>)
    requires c.grain > 0 && Coherent(c, s, whole) && kept <= LiveKeys(s.disk, s.now)
    ensures Coherent(c, Retain(s, kept).0, Reference(c, whole, s.now, DoRetain(kept)).0)
  {
    var t, next := Retain(s, kept).0, Reference(c, whole, s.now, DoRetain(kept)).0;
    forall key ensures Look(t.disk, key, t.now) == Look(OnDisk(c, next), key, t.now) {
      assert Look(s.disk, key, s.now) == Look(OnDisk(c, whole), key, s.now);
    }
  }

  lemma OthersKeepCoherent(c: Config, s: Store, whole: Contents, op: Op)
    requires c.grain > 0 && Coherent(c, s, whole) && (op.DoRemove? || op.DoCleanup? || op.Tick? || op.Evict?)
    ensures Coherent(c, Step(c, s, op).0, Reference(c, whole, s.now, op).0)
  {
    var t, next := Step(c, s, op).0, Reference(c, whole, s.now, op).0;
    forall key ensures Look(t.disk, key, t.now) == Look(OnDisk(c, next), key, t.now) {
      assert Look(s.disk, key, s.now) == Look(OnDisk(c, whole), key, s.now);
    }
  }

  /** From a coherent pair of tiers, an operation leaves one exactly when it does not leave a stale copy in memory. */
  lemma CoherentExactly(c: Config, s: Store, whole: Contents, op: Op)
    requires c.grain > 0 && Coherent(c, s, whole) && KeepsOnlyLive(s, op)
    ensures Coherent(c, Step(c, s, op).0, Reference(c, whole, s.now, op).0) <==> !LeavesStaleCopy(c, s, op)
  {
    if LeavesStaleCopy(c, s, op) {
      var t := Step(c, s, op).0;
      assert t.memory[op.key].value != op.value;
      assert !MemoryAgrees(c, t, Reference(c, whole, s.now, op).0);
    } else {
      hide Coherent;
      match op
      case DoGet(key) => GetKeepsCoherent(c, s, whole, key);
      case DoSet(key, value, ttl) => SetKeepsCoherent(c, s, whole, key, value, ttl);
      case DoRetain(kept) => RetainKeepsCoherent(c, s, whole, kept);
      case DoRemove(_) => OthersKeepCoherent(c, s, whole, op);
      case DoCleanup => OthersKeepCoherent(c, s, whole, op);
      case Tick(_) => OthersKeepCoherent(c, s, whole, op);
      case Evict(_) => OthersKeepCoherent(c, s, whole, op);
    }
  }

  /** What a read returns is what was last written, no longer than it was meant to live; and it misses only what had less
      than one unit of the disk's clock left. */
  lemma ReadsWithinAGrain(c: Config, s: Store, whole: Contents, key: string)
    requires c.grain > 0 && Coherent(c, s, whole)
    ensures var r := Get(c, s, key).1; var exact := Look(whole, key, s.now);
            && (r.Some? ==> exact.Some? && r.value.value == exact.value.value &&
                            NoLater(r.value.remaining, exact.value.remaining) && r.value.remaining != Some(0))
            && (r.None? ==> Look(whole, key, s.now + c.grain - 1).None?)
  {
    assert Look(s.disk, key, s.now) == Look(OnDisk(c, whole), key, s.now);
    if key in whole {
      CutDownIsNoLater(c, whole[key].deadline);
    }
  }

  // Whole runs, whatever the disk's unit.

  /** An operation answers as the map does, give or take less than one unit: a hit is the last value written with no more
      than its own time left; what a read or a removal misses had less than a unit left; and a retain refuses at most
      the entries that are live, and at least those with a unit left, but for the kept ones. */
  predicate Agrees(c: Config, s: Store, whole: Contents, op: Op)
    requires c.grain > 0
  {
    match op
    case DoGet(key) =>
      var r := Get(c, s, key).1; var exact := Look(whole, key, s.now);
      if r.Some?
      then exact.Some? && r.value.value == exact.value.value && r.value.remaining != Some(0)
           && NoLater(r.value.remaining, exact.value.remaining)
      else Look(whole, key, s.now + c.grain - 1).None?
    case DoRemove(key) =>
      if Remove(s, key).1 then Look(whole, key, s.now).Some? else Look(whole, key, s.now + c.grain - 1).None?
    case DoRetain(kept) =>
      |LiveKeys(whole, s.now + c.grain - 1)| <= Retain(s, kept).1 + |kept| <= |LiveKeys(whole, s.now)|
    case DoSet(_, _, ttl) => Step(c, s, op).1 == Admitted(ttl > 0)
    case _ => true
  }

  /** So does every operation of a run. */
  predicate AgreeThroughout(c: Config, s: Store, whole: Contents, ops: seq<Op>)
    requires c.grain > 0
    decreases |ops|
  {
    ops != [] ==>
      && Agrees(c, s, whole, ops[0])
      && AgreeThroughout(c, Step(c, s, ops[0]).0, Reference(c, whole, s.now, ops[0]).0, ops[1..])
  }

  /** No operation of the run leaves a stale copy, and what `Retain` keeps is what was asked about. */
  predicate NeverStale(c: Config, s: Store, ops: seq<Op>)
    requires c.grain > 0
    decreases |ops|
  {
    ops != [] ==>
      && !LeavesStaleCopy(c, s, ops[0]) && KeepsOnlyLive(s, ops[0])
      && NeverStale(c, Step(c, s, ops[0]).0, ops[1..])
  }

  lemma CountsWithinAGrain(c: Config, s: Store, whole: Contents)
    requires c.grain > 0 && Coherent(c, s, whole)
    ensures LiveKeys(whole, s.now + c.grain - 1) <= LiveKeys(s.disk, s.now) <= LiveKeys(whole, s.now)
  {
    forall key ensures (key in LiveKeys(s.disk, s.now) ==> key in LiveKeys(whole, s.now)) &&
                       (key in LiveKeys(whole, s.now + c.grain - 1) ==> key in LiveKeys(s.disk, s.now)) {
      assert Look(s.disk, key, s.now) == Look(OnDisk(c, whole), key, s.now);
      if key in whole {
        CutDownIsNoLater(c, whole[key].deadline);
      }
    }
  }

  lemma {:induction false} FewerKeys(some: set<string>, all: set<string>)
    requires some <= all
    ensures |some| <= |all|
  {
    if some != {} {
      var key :| key in some;
      FewerKeys(some - {key}, all - {key});
    }
  }

  /** Coherent tiers answer every operation within a grain. */
  lemma AnswersWithinAGrain(c: Config, s: Store, whole: Contents, op: Op)
    requires c.grain > 0 && Coherent(c, s, whole)
    ensures Agrees(c, s, whole, op)
  {
    match op
    case DoGet(key) => ReadsWithinAGrain(c, s, whole, key);
    case DoRemove(key) => ReadsWithinAGrain(c, s, whole, key);
    case DoRetain(kept) =>
      CountsWithinAGrain(c, s, whole);
      FewerKeys(LiveKeys(s.disk, s.now), LiveKeys(whole, s.now));
      FewerKeys(LiveKeys(whole, s.now + c.grain - 1), LiveKeys(s.disk, s.now));
    case _ =>
  }

  /** Whatever the disk's unit, over whole runs with any evictions, promotions and passing of time, every operation answers
      as the one map does within a unit. */
  lemma {:induction false} RunsWithinAGrain(c: Config, s: Store, whole: Contents, ops: seq<Op>)
    requires c.grain > 0 && Coherent(c, s, whole) && NeverStale(c, s, ops)
    ensures AgreeThroughout(c, s, whole, ops)
    decreases |ops|
  {
    hide Coherent, LeavesStaleCopy, KeepsOnlyLive, Step, Reference, Agrees;
    if ops != [] {
      AnswersWithinAGrain(c, s, whole, ops[0]);
      CoherentExactly(c, s, whole, ops[0]);
      RunsWithinAGrain(c, Step(c, s, ops[0]).0, Reference(c, whole, s.now, ops[0]).0, ops[1..]);
    }
  }

  // Exactly, when no deadline is cut down.

  /** No live entry has a deadline the disk cuts down. */
  predicate KeptExactly(c: Config, whole: Contents, now: nat)
    requires c.grain > 0
  {
    forall key <- whole :: Live(whole[key], now) ==> CutDown(c, whole[key].deadline) == whole[key].deadline
  }

  /** The write gives the entry a deadline that is no whole number of the disk's units. */
  predicate Cuts(c: Config, now: nat, op: Op)
    requires c.grain > 0
  {
    op.DoSet? && op.ttl > 0 && CutDown(c, DeadlineAt(c, now, op.ttl)) != DeadlineAt(c, now, op.ttl)
  }

  predicate NeverCuts(c: Config, now: nat, ops: seq<Op>)
    requires c.grain > 0
    decreases |ops|
  {
    ops != [] ==> !Cuts(c, now, ops[0]) && NeverCuts(c, After(now, ops[0]), ops[1..])
  }

  /** Deadlines stay whole as long as whole ones are written. */
  lemma StaysExact(c: Config, whole: Contents, now: nat, op: Op)
    requires c.grain > 0 && KeptExactly(c, whole, now) && !Cuts(c, now, op)
    ensures KeptExactly(c, Reference(c, whole, now, op).0, After(now, op))
  {
    hide CutDown;
  }

  /** A disk that keeps every reading of the clock cuts nothing. */
  lemma {:induction false} FineGrainNeverCuts(c: Config, whole: Contents, now: nat, ops: seq<Op>)
    requires c.grain == 1
    ensures KeptExactly(c, whole, now) && NeverCuts(c, now, ops)
    decreases |ops|
  {
    if ops != [] {
      FineGrainNeverCuts(c, whole, After(now, ops[0]), ops[1..]);
    }
  }

  lemma SameLiveKeys(c: Config, s: Store, whole: Contents)
    requires c.grain > 0 && Coherent(c, s, whole) && KeptExactly(c, whole, s.now)
    ensures LiveKeys(s.disk, s.now) == LiveKeys(whole, s.now)
    ensures forall key :: Look(s.disk, key, s.now) == Look(whole, key, s.now)
  {
    forall key ensures Look(s.disk, key, s.now) == Look(whole, key, s.now) &&
                       (key in LiveKeys(s.disk, s.now) <==> key in LiveKeys(whole, s.now)) {
      assert Look(s.disk, key, s.now) == Look(OnDisk(c, whole), key, s.now);
      if key in whole {
        CutDownIsNoLater(c, whole[key].deadline);
      }
    }
  }

  /** When the disk keeps the deadlines exactly, every operation answers as the one map does, and a read as the disk
      alone. */
  lemma AnswersAgree(c: Config, s: Store, whole: Contents, op: Op)
    requires c.grain > 0 && Coherent(c, s, whole) && KeptExactly(c, whole, s.now)
    ensures Step(c, s, op).1 == Reference(c, whole, s.now, op).1
    ensures op.DoGet? ==> Step(c, s, op).1 == ValueOf(Look(s.disk, op.key, s.now))
  {
    SameLiveKeys(c, s, whole);
    if op.DoGet? {
      ReadsWithinAGrain(c, s, whole, op.key);
      assert Look(s.disk, op.key, s.now) == Look(whole, op.key, s.now);
    } else if op.DoRemove? {
      assert Look(s.disk, op.key, s.now) == Look(whole, op.key, s.now);
    }
  }

  function Answers(c: Config, s: Store, ops: seq<Op>): seq<Answer>
    requires c.grain > 0
    decreases |ops|
  {
    if ops == [] then [] else
      var r := Step(c, s, ops[0]);
      [r.1] + Answers(c, r.0, ops[1..])
  }

  function After(now: nat, op: Op): nat {
    if op.Tick? then now + op.ticks else now
  }

  function ReferenceAnswers(c: Config, whole: Contents, now: nat, ops: seq<Op>): seq<Answer>
    decreases |ops|
  {
    if ops == [] then [] else
      var r := Reference(c, whole, now, ops[0]);
      [r.1] + ReferenceAnswers(c, r.0, After(now, ops[0]), ops[1..])
  }

  /** The memory tier is invisible over whole runs: with any evictions, promotions and passing of time, and whatever the
      disk's unit, as long as the deadlines written are whole units every operation answers as the one map does. */
  lemma {:induction false} MemoryIsInvisible(c: Config, s: Store, whole: Contents, ops: seq<Op>)
    requires c.grain > 0 && Coherent(c, s, whole) && NeverStale(c, s, ops)
    requires KeptExactly(c, whole, s.now) && NeverCuts(c, s.now, ops)
    ensures Answers(c, s, ops) == ReferenceAnswers(c, whole, s.now, ops)
    decreases |ops|
  {
    hide Coherent, LeavesStaleCopy, KeepsOnlyLive, KeptExactly, Cuts;
    if ops != [] {
      AnswersAgree(c, s, whole, ops[0]);
      CoherentExactly(c, s, whole, ops[0]);
      StepKeepsTime(c, s, ops[0]);
      StaysExact(c, whole, s.now, ops[0]);
      hide Step, Reference, After;
      MemoryIsInvisible(c, Step(c, s, ops[0]).0, Reference(c, whole, s.now, ops[0]).0, ops[1..]);
    }
  }

  lemma StepKeepsTime(c: Config, s: Store, op: Op)
    requires c.grain > 0
    ensures Step(c, s, op).0.now == After(s.now, op)
  {
  }

  /** Every continuation after `op` is answered as by the one map. */
  ghost predicate InvisibleAfter(c: Config, s: Store, whole: Contents, op: Op)
    requires c.grain > 0
  {
    var t, next := Step(c, s, op).0, Reference(c, whole, s.now, op).0;
    forall ops :: NeverStale(c, t, ops) && NeverCuts(c, t.now, ops) ==>
                    Answers(c, t, ops) == ReferenceAnswers(c, next, t.now, ops)
  }

  /** After an operation the memory tier stays invisible exactly when the operation left no stale copy, which is that
      memory holds a live copy of a key whose new value is too large for it, and no live entry has a deadline the disk
      cuts down. */
  lemma InvisibleExactly(c: Config, s: Store, whole: Contents, op: Op)
    requires c.grain > 0 && Coherent(c, s, whole) && KeepsOnlyLive(s, op)
    ensures InvisibleAfter(c, s, whole, op) <==>
              !LeavesStaleCopy(c, s, op) && KeptExactly(c, Reference(c, whole, s.now, op).0, After(s.now, op))
  {
    var t, next := Step(c, s, op).0, Reference(c, whole, s.now, op).0;
    StepKeepsTime(c, s, op);
    if LeavesStaleCopy(c, s, op) {
      StaleShows(c, s, whole, op);
    } else {
      CoherentExactly(c, s, whole, op);
      hide Coherent, Step, Reference;
      if KeptExactly(c, next, t.now) {
        forall ops | NeverStale(c, t, ops) && NeverCuts(c, t.now, ops)
          ensures Answers(c, t, ops) == ReferenceAnswers(c, next, t.now, ops)
        {
          MemoryIsInvisible(c, t, next, ops);
        }
      } else {
        var key :| key in next && Live(next[key], t.now) && CutDown(c, next[key].deadline) != next[key].deadline;
        var ops := CutShows(c, t, next, key);
      }
    }
  }

  lemma StaleShows(c: Config, s: Store, whole: Contents, op: Op)
    requires c.grain > 0 && Coherent(c, s, whole) && LeavesStaleCopy(c, s, op)
    ensures !InvisibleAfter(c, s, whole, op)
  {
    var t, next := Step(c, s, op).0, Reference(c, whole, s.now, op).0;
    var read := [DoGet(op.key)];
    assert read[1..] == [];
    assert NeverStale(c, t, read) && NeverCuts(c, t.now, read);
    StaleRead(c, s, whole, op, t, next);
  }

  /** Evicted from memory and read after its deadline on disk but before the one it was written with, an entry is missed
      that the map still has. */
  lemma CutShows(c: Config, t: Store, whole: Contents, key: string) returns (ops: seq<Op>)
    requires c.grain > 0 && Coherent(c, t, whole)
    requires key in whole && Live(whole[key], t.now) && CutDown(c, whole[key].deadline) != whole[key].deadline
    ensures NeverStale(c, t, ops) && NeverCuts(c, t.now, ops)
    ensures Answers(c, t, ops) != ReferenceAnswers(c, whole, t.now, ops)
  {
    CutDownIsNoLater(c, whole[key].deadline);
    var cut := CutDown(c, whole[key].deadline).value;
    var wait: nat := if cut > t.now then cut - t.now else 0;
    var first, second, third := Evict(key), Tick(wait), DoGet(key);
    ops := [first, second, third];
    var a := Step(c, t, first).0;
    var b := Step(c, a, second).0;
    OthersKeepCoherent(c, t, whole, first);
    OthersKeepCoherent(c, a, whole, second);
    assert Look(b.disk, key, b.now) == Look(OnDisk(c, whole), key, b.now);
    assert Step(c, b, third).1 == Found(None) && Reference(c, whole, b.now, third).1 == Found(Some(whole[key].value));
    assert Reference(c, whole, t.now, first).0 == whole && Reference(c, whole, a.now, second).0 == whole;
    assert After(t.now, first) == a.now && After(a.now, second) == b.now;
    assert !Cuts(c, t.now, first) && !Cuts(c, a.now, second) && !Cuts(c, b.now, third);
    assert NeverStaleAt(c, t, first) && NeverStaleAt(c, a, second) && NeverStaleAt(c, b, third);
    hide Coherent, Step, Reference, After, Cuts, LeavesStaleCopy, KeepsOnlyLive;
    ThreeAnswers(c, t, whole, first, second, third);
  }

  predicate NeverStaleAt(c: Config, s: Store, op: Op) {
    !LeavesStaleCopy(c, s, op) && KeepsOnlyLive(s, op)
  }

  lemma ThreeAnswers(c: Config, t: Store, whole: Contents, first: Op, second: Op, third: Op)
    requires c.grain > 0
    requires Reference(c, whole, t.now, first).0 == whole
    requires Reference(c, whole, After(t.now, first), second).0 == whole
    ensures var a := Step(c, t, first).0; var b := Step(c, a, second).0; var ops := [first, second, third];
            && (NeverStale(c, t, ops) <==>
                  NeverStaleAt(c, t, first) && NeverStaleAt(c, a, second) && NeverStaleAt(c, b, third))
            && |Answers(c, t, ops)| == 3 && Answers(c, t, ops)[2] == Step(c, b, third).1
            && var later := After(After(t.now, first), second);
               && |ReferenceAnswers(c, whole, t.now, ops)| == 3
               && ReferenceAnswers(c, whole, t.now, ops)[2] == Reference(c, whole, later, third).1
               && (NeverCuts(c, t.now, ops) <==>
                     !Cuts(c, t.now, first) && !Cuts(c, After(t.now, first), second) && !Cuts(c, later, third))
  {
    hide *;
    var a := Step(c, t, first).0;
    var b := Step(c, a, second).0;
    var last := [third] + [];
    var later := After(After(t.now, first), second);
    FirstAnswer(c, b, third, []);
    FirstAnswer(c, a, second, last);
    FirstAnswer(c, t, first, [second] + last);
    FirstReference(c, whole, later, third, []);
    FirstReference(c, whole, After(t.now, first), second, last);
    FirstReference(c, whole, t.now, first, [second] + last);
    NoAnswers(c, Step(c, b, third).0, Reference(c, whole, later, third).0, After(later, third));
    assert [first, second, third] == [first] + ([second] + last);
  }

  lemma NoAnswers(c: Config, s: Store, whole: Contents, now: nat)
    requires c.grain > 0
    ensures Answers(c, s, []) == [] && ReferenceAnswers(c, whole, now, []) == []
    ensures NeverStale(c, s, []) && NeverCuts(c, now, [])
  {
  }

  lemma FirstAnswer(c: Config, s: Store, op: Op, rest: seq<Op>)
    requires c.grain > 0
    ensures Answers(c, s, [op] + rest) == [Step(c, s, op).1] + Answers(c, Step(c, s, op).0, rest)
    ensures NeverStale(c, s, [op] + rest) <==> NeverStaleAt(c, s, op) && NeverStale(c, Step(c, s, op).0, rest)
  {
    hide Step, LeavesStaleCopy, KeepsOnlyLive;
    assert ([op] + rest)[1..] == rest;
  }

  lemma FirstReference(c: Config, whole: Contents, now: nat, op: Op, rest: seq<Op>)
    requires c.grain > 0
    ensures var r := Reference(c, whole, now, op);
            ReferenceAnswers(c, whole, now, [op] + rest) == [r.1] + ReferenceAnswers(c, r.0, After(now, op), rest)
    ensures NeverCuts(c, now, [op] + rest) <==> !Cuts(c, now, op) && NeverCuts(c, After(now, op), rest)
  {
    hide Reference, After, Cuts;
    assert ([op] + rest)[1..] == rest;
  }

  /** The next read of a key with a stale copy returns the older value, and not the one just written. */
  lemma StaleRead(c: Config, s: Store, whole: Contents, op: Op, t: Store, next: Contents)
    requires c.grain > 0 && Coherent(c, s, whole) && LeavesStaleCopy(c, s, op)
    requires t == Step(c, s, op).0 && next == Reference(c, whole, s.now, op).0
    ensures Answers(c, t, [DoGet(op.key)]) == [Found(Some(s.memory[op.key].value))]
    ensures s.memory[op.key].value != op.value
    ensures ReferenceAnswers(c, next, t.now, [DoGet(op.key)]) == [Found(Some(op.value))]
  {
    var read := [DoGet(op.key)];
    assert read[0] == DoGet(op.key) && read[1..] == [];
    assert Answers(c, Step(c, t, read[0]).0, read[1..]) == [];
  }

  // In numbers: how long a value is kept.

  /** How much time passes in a run. */
  function Elapsed(ops: seq<Op>): nat {
    if ops == [] then 0 else (if ops[0].Tick? then ops[0].ticks else 0) + Elapsed(ops[1..])
  }

  /** The operation neither writes the key nor takes it away. */
  predicate LeavesAlone(op: Op, key: string) {
    match op
    case DoSet(k, _, _) => k != key
    case DoRemove(k) => k != key
    case DoRetain(kept) => key in kept
    case _ => true
  }

  function StoreAfter(c: Config, s: Store, ops: seq<Op>): Store
    requires c.grain > 0
    decreases |ops|
  {
    if ops == [] then s else StoreAfter(c, Step(c, s, ops[0]).0, ops[1..])
  }

  lemma KeepsEntry(c: Config, whole: Contents, now: nat, op: Op, key: string)
    requires LeavesAlone(op, key)
    ensures var next := Reference(c, whole, now, op).0;
            (key in next <==> key in whole) && (key in whole ==> next[key] == whole[key])
  {
  }

  lemma {:induction false} RunCarries(c: Config, s: Store, whole: Contents, ops: seq<Op>, key: string)
    returns (later: Contents)
    requires c.grain > 0 && Coherent(c, s, whole) && NeverStale(c, s, ops)
    requires forall op <- ops :: LeavesAlone(op, key)
    ensures Coherent(c, StoreAfter(c, s, ops), later)
    ensures (key in later <==> key in whole) && (key in whole ==> later[key] == whole[key])
    ensures StoreAfter(c, s, ops).now == s.now + Elapsed(ops)
    decreases |ops|
  {
    hide Coherent, LeavesStaleCopy, KeepsOnlyLive, Reference, LeavesAlone;
    if ops == [] {
      later := whole;
    } else {
      CoherentExactly(c, s, whole, ops[0]);
      KeepsEntry(c, whole, s.now, ops[0], key);
      StepKeepsTime(c, s, ops[0]);
      hide Step;
      later := RunCarries(c, Step(c, s, ops[0]).0, Reference(c, whole, s.now, ops[0]).0, ops[1..], key);
    }
  }

  lemma ReadAfterSet(c: Config, s: Store, whole: Contents, write: Op, ops: seq<Op>) returns (later: Contents)
    requires c.grain > 0 && Coherent(c, s, whole) && write.DoSet? && write.ttl > 0 && !LeavesStaleCopy(c, s, write)
    requires NeverStale(c, Step(c, s, write).0, ops) && forall op <- ops :: LeavesAlone(op, write.key)
    ensures var t := StoreAfter(c, Step(c, s, write).0, ops);
            && Coherent(c, t, later) && t.now == s.now + Elapsed(ops)
            && write.key in later && later[write.key].value == write.value
            && (s.now + write.ttl <= c.horizon ==> later[write.key].deadline == Some(s.now + write.ttl))
            && (s.now + write.ttl > c.horizon ==> later[write.key].deadline == None)
  {
    var t, next := Step(c, s, write).0, Reference(c, whole, s.now, write).0;
    CoherentExactly(c, s, whole, write);
    assert t.now == s.now && next == whole[write.key := Held(write.value, DeadlineAt(c, s.now, write.ttl))];
    hide Coherent, NeverStale, LeavesAlone, Step, Reference;
    later := RunCarries(c, t, next, ops, write.key);
  }

  /** A value is kept for as long as it was asked to be, give or take less than one unit of the disk's clock, and no longer,
      whatever happens to memory and to other keys meanwhile; a hit never promises more time than is left. */
  lemma KeptAsLongAsAsked(c: Config, s: Store, whole: Contents, write: Op, ops: seq<Op>)
    requires c.grain > 0 && Coherent(c, s, whole) && write.DoSet? && write.ttl > 0 && !LeavesStaleCopy(c, s, write)
    requires NeverStale(c, Step(c, s, write).0, ops) && forall op <- ops :: LeavesAlone(op, write.key)
    requires s.now + write.ttl <= c.horizon
    ensures var r := Get(c, StoreAfter(c, Step(c, s, write).0, ops), write.key).1;
            && (Elapsed(ops) + c.grain <= write.ttl ==>
                  && r.Some? && r.value.value == write.value && r.value.remaining.Some?
                  && 0 < r.value.remaining.value <= write.ttl - Elapsed(ops))
            && (Elapsed(ops) >= write.ttl ==> r.None?)
  {
    var later := ReadAfterSet(c, s, whole, write, ops);
    hide Coherent, NeverStale, LeavesAlone, Step, StoreAfter, Elapsed, Get, LeavesStaleCopy;
    ReadsWithinAGrain(c, StoreAfter(c, Step(c, s, write).0, ops), later, write.key);
  }

  /** And for ever when its time is past what the clock can read. */
  lemma KeptForever(c: Config, s: Store, whole: Contents, write: Op, ops: seq<Op>)
    requires c.grain > 0 && Coherent(c, s, whole) && write.DoSet? && write.ttl > 0 && !LeavesStaleCopy(c, s, write)
    requires NeverStale(c, Step(c, s, write).0, ops) && forall op <- ops :: LeavesAlone(op, write.key)
    requires s.now + write.ttl > c.horizon
    ensures var r := Get(c, StoreAfter(c, Step(c, s, write).0, ops), write.key).1;
            r.Some? && r.value.value == write.value
  {
    var later := ReadAfterSet(c, s, whole, write, ops);
    hide Coherent, NeverStale, LeavesAlone, Step, StoreAfter, Elapsed, Get, LeavesStaleCopy;
    ReadsWithinAGrain(c, StoreAfter(c, Step(c, s, write).0, ops), later, write.key);
  }

  /** Once removed, or refused by a retain, a key stays gone until it is written again. */
  lemma GoneOnceRemoved(c: Config, s: Store, whole: Contents, op: Op, key: string, ops: seq<Op>)
    requires c.grain > 0 && Coherent(c, s, whole) && KeepsOnlyLive(s, op)
    requires op == DoRemove(key) || (op.DoRetain? && key !in op.kept)
    requires NeverStale(c, Step(c, s, op).0, ops) && forall o <- ops :: LeavesAlone(o, key)
    ensures Get(c, StoreAfter(c, Step(c, s, op).0, ops), key).1.None?
  {
    var t, next := Step(c, s, op).0, Reference(c, whole, s.now, op).0;
    CoherentExactly(c, s, whole, op);
    assert key !in next;
    hide Coherent, NeverStale, LeavesAlone, Step, Reference;
    var later := RunCarries(c, t, next, ops, key);
    ReadsWithinAGrain(c, StoreAfter(c, t, ops), later, key);
  }

  /** Cleaning up, as a retain does, leaves no dead entry on disk, and costs no live one that is not refused. */
  lemma NoDeadEntries(s: Store, kept: set<string>, key: string)
    ensures key in Cleanup(s).disk <==> Look(s.disk, key, s.now).Some?
    ensures key in Retain(s, kept).0.disk <==> Look(s.disk, key, s.now).Some? && key in kept
    ensures Look(Cleanup(s).disk, key, s.now) == Look(s.disk, key, s.now)
    ensures key in kept ==> Look(Retain(s, kept).0.disk, key, s.now) == Look(s.disk, key, s.now)
  {
  }

  /** What a write leaves in memory: the value, for as long as it was asked for, when there is any time and it fits the
      budget; and nothing new otherwise. */
  lemma MemoryHoldsWhatFits(c: Config, s: Store, key: string, value: seq<byte>, ttl: nat, diskFails: bool, wait: nat)
    requires c.grain > 0 && s.now + ttl <= c.horizon
    ensures var t := Set(c, s, key, value, ttl, diskFails).0;
            if ttl == 0 || |value| > c.capacity then t.memory == s.memory
            else Look(t.memory, key, s.now + wait) == if wait < ttl then Some(Entry(value, Some(ttl - wait))) else None
  {
  }

  /** A hit on disk is then answered from memory: for the promotion time at most, and never longer than the entry has. */
  lemma PromotedForItsTime(c: Config, s: Store, key: string, wait: nat)
    requires Look(s.memory, key, s.now).None? && Look(s.disk, key, s.now).Some? && s.now + c.promote <= c.horizon
    ensures var e := Look(s.disk, key, s.now).value; var t := Get(c, s, key).0;
            if |e.value| > c.capacity || c.promote == 0 then t == s
            else
              && t.disk == s.disk && t.memory - {key} == s.memory - {key}
              && var front := Look(t.memory, key, s.now + wait);
                 if wait < c.promote && (e.remaining.Some? ==> wait < e.remaining.value)
                 then front.Some? && front.value.value == e.value && front.value.remaining.Some? &&
                      front.value.remaining.value <= c.promote - wait &&
                      (e.remaining.Some? ==> front.value.remaining.value <= e.remaining.value - wait)
                 else front.None?
  {
  }
}

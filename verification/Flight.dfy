/** The in-flight table as a state machine (src/memo/flight.rs): each lock region is one atomic step, taken by any of
    unboundedly many activities, one activity for each computation or wait. */
module FlightMachine {
  import opened Wrappers

  datatype Outcome = Ready(value: seq<byte>) | Compute(error: int) | Encode(error: int) | Abandoned

  /** A waker wakes one task, and only the one made for its latest poll has to. */
  datatype Waker = Waker(task: nat, turn: nat)

  /** One computation. `leader` and `offered` are bookkeeping the source does not keep: which activity installed the call,
      and whether its guard ever published. */
  datatype Call = Call(outcome: Option<Outcome>, wakers: seq<Waker>, leader: nat, offered: bool)

  datatype Activity =
    | Fresh(key: string, isAsync: bool)
    // A leader: computing under its guard, publishing (the slot is set, the lock is released), or dropping its guard.
    | Leading(key: string, call: nat, published: bool)
    | Notifying(key: string, call: nat, rest: seq<Waker>, dropping: bool)
    | Waking(key: string, call: nat, rest: seq<Waker>, dropping: bool)
    | Removed(call: nat, published: bool)
    // A follower: about to look, or in the condvar; about to be polled, or parked on a waker.
    | Checking(call: nat)
    | Blocked(call: nat)
    | Polling(call: nat)
    | Parked(call: nat, waker: Waker)
    | Done(call: nat, outcome: Outcome)
    | Gone

  datatype State = State(table: map<string, nat>, calls: seq<Call>, activities: seq<Activity>)

  datatype Event =
    | Spawn(key: string, isAsync: bool)
    | Enter(who: nat)
    | Publish(who: nat, offer: Outcome)
    | Drop(who: nat)
    | Release(who: nat)
    | NotifyAll(who: nat)
    | WakeOne(who: nat)
    | EndPublish(who: nat)
    | Look(who: nat)
    | Poll(who: nat, turn: nat)
    | WakeForNothing(who: nat)
    | Cancel(who: nat)

  // Lock regions, on one call or on the table.

  /** `Call::publish` under its lock: later calls are ignored, the first takes the parked wakers. */
  function PublishSlot(c: Call, o: Outcome): (r: (Call, Option<seq<Waker>>)) {
    if c.outcome.Some? then (c, None) else (c.(outcome := Some(o), wakers := []), Some(c.wakers))
  }

  /** `Call::poll` under its lock: the outcome, or the waker parked once. */
  function PollSlot(c: Call, w: Waker): (Call, Option<Outcome>) {
    if c.outcome.Some? then (c, c.outcome)
    else if w in c.wakers then (c, None)
    else (c.(wakers := c.wakers + [w]), None)
  }

  // Steps.

  function Become(s: State, who: nat, a: Activity): State
    requires who < |s.activities|
  {
    s.(activities := s.activities[who := a])
  }

  /** What one publication does, whoever asks: a leader's guard, or the same guard being dropped. */
  function Offer(s: State, who: nat, key: string, call: nat, o: Outcome, dropping: bool, after: Activity): State
    requires who < |s.activities| && call < |s.calls|
  {
    var (c, taken) := PublishSlot(s.calls[call], o);
    var marked := if dropping then c else c.(offered := true);
    Become(s.(calls := s.calls[call := marked]), who,
           if taken.Some? then Notifying(key, call, taken.value, dropping) else after)
  }

  function Woken(a: Activity, call: nat): Activity {
    if a == Blocked(call) then Checking(call) else a
  }

  function Scheduled(a: Activity, w: Waker): Activity {
    if a.Parked? && a.waker == w then Polling(a.call) else a
  }

  predicate Enabled(s: State, e: Event) {
    if e.Spawn? then true else
    && e.who < |s.activities|
    && match (e, s.activities[e.who])
       case (Enter(_), Fresh(_, _)) => true
       case (Publish(_, o), Leading(_, c, _)) => !o.Abandoned? && c < |s.calls|
       case (Drop(_), Leading(_, _, _)) => true
       case (Release(_), Removed(c, _)) => c < |s.calls|
       case (NotifyAll(_), Notifying(_, _, _, _)) => true
       case (WakeOne(_), Waking(_, _, rest, _)) => rest != []
       case (EndPublish(_), Waking(_, _, rest, _)) => rest == []
       case (Look(_), Checking(c)) => c < |s.calls|
       case (Poll(_, _), Polling(c)) => c < |s.calls|
       case (WakeForNothing(_), Blocked(_)) => true
       case (WakeForNothing(_), Parked(_, _)) => true
       case (Cancel(_), Polling(_)) => true
       case (Cancel(_), Parked(_, _)) => true
       case _ => false
  }

  function Apply(s: State, e: Event): State
    requires Enabled(s, e)
  {
    if e.Spawn? then s.(activities := s.activities + [Fresh(e.key, e.isAsync)]) else
    var who := e.who;
    match (e, s.activities[who])
    case (Enter(_), Fresh(key, isAsync)) =>
      if key in s.table then
        Become(s, who, if isAsync then Polling(s.table[key]) else Checking(s.table[key]))
      else
        var call := |s.calls|;
        Become(s.(table := s.table[key := call], calls := s.calls + [Call(None, [], who, false)]), who,
               Leading(key, call, false))
    case (Publish(_, o), Leading(key, call, _)) =>
      Offer(s, who, key, call, o, false, Leading(key, call, true))
    case (Drop(_), Leading(key, call, published)) =>
      Become(s.(table := s.table - {key}), who, Removed(call, published))
    case (Release(_), Removed(call, published)) =>
      if published then Become(s, who, Gone) else Offer(s, who, "", call, Abandoned, true, Gone)
    case (NotifyAll(_), Notifying(key, call, rest, dropping)) =>
      Become(s.(activities := seq(|s.activities|, i requires 0 <= i < |s.activities| => Woken(s.activities[i], call))), who,
             Waking(key, call, rest, dropping))
    case (WakeOne(_), Waking(key, call, rest, dropping)) =>
      Become(s.(activities := seq(|s.activities|, i requires 0 <= i < |s.activities| => Scheduled(s.activities[i], rest[0]))), who,
             Waking(key, call, rest[1..], dropping))
    case (EndPublish(_), Waking(key, call, rest, dropping)) =>
      Become(s, who, if dropping then Gone else Leading(key, call, true))
    case (Look(_), Checking(call)) =>
      Become(s, who, if s.calls[call].outcome.Some? then Done(call, s.calls[call].outcome.value) else Blocked(call))
    case (Poll(_, turn), Polling(call)) =>
      var (c, outcome) := PollSlot(s.calls[call], Waker(who, turn));
      Become(s.(calls := s.calls[call := c]), who,
             if outcome.Some? then Done(call, outcome.value) else Parked(call, Waker(who, turn)))
    case (WakeForNothing(_), Blocked(call)) => Become(s, who, Checking(call))
    case (WakeForNothing(_), Parked(call, _)) => Become(s, who, Polling(call))
    case (Cancel(_), _) => Become(s, who, Gone)
  }

  const EMPTY: State := State(map[], [], [])

  /** `events`, one after the other, lead from `s` to `t`. */
  ghost predicate Runs(s: State, events: seq<Event>, t: State)
    decreases |events|
  {
    if events == [] then s == t else Enabled(s, events[0]) && Runs(Apply(s, events[0]), events[1..], t)
  }

  // What every reachable state keeps.

  /** The guard an activity holds on the table, if it holds one. */
  predicate HoldsGuard(a: Activity) {
    a.Leading? || ((a.Notifying? || a.Waking?) && !a.dropping)
  }

  /** A guard that has yet to publish, or to be dropped without having. */
  predicate WillPublish(a: Activity, call: nat) {
    (a.Leading? && a.call == call && !a.published) || a == Removed(call, false)
  }

  /** A publisher that has set the slot and has not yet woken everyone it took. */
  predicate MidPublish(a: Activity, call: nat) {
    (a.Notifying? || a.Waking?) && a.call == call
  }

  predicate CallOk(s: State, c: nat)
    requires c < |s.calls|
  {
    var call := s.calls[c];
    && call.leader < |s.activities|
    && (call.outcome.None? ==> WillPublish(s.activities[call.leader], c) && !call.offered)
    && (call.outcome.Some? ==> call.wakers == [] && (call.offered <==> !call.outcome.value.Abandoned?))
  }

  predicate LeaderOk(s: State, who: nat, call: nat)
    requires who < |s.activities|
  {
    call < |s.calls| && s.calls[call].leader == who
  }

  predicate ActivityOk(s: State, who: nat)
    requires who < |s.activities|
  {
    match s.activities[who]
    case Fresh(_, _) => true
    case Leading(key, call, published) =>
      && LeaderOk(s, who, call) && key in s.table && s.table[key] == call
      && (published <==> s.calls[call].outcome.Some?) && (published ==> s.calls[call].offered)
    case Notifying(key, call, _, dropping) =>
      && LeaderOk(s, who, call) && s.calls[call].outcome.Some?
      && (!dropping ==> key in s.table && s.table[key] == call && s.calls[call].offered)
    case Waking(key, call, _, dropping) =>
      && LeaderOk(s, who, call) && s.calls[call].outcome.Some?
      && (!dropping ==> key in s.table && s.table[key] == call && s.calls[call].offered)
    case Removed(call, published) =>
      LeaderOk(s, who, call) && (published <==> s.calls[call].outcome.Some?)
    case Checking(call) => call < |s.calls|
    case Blocked(call) => call < |s.calls| && NotForgotten(s, call)
    case Polling(call) => call < |s.calls|
    case Parked(call, waker) => waker.task == who && call < |s.calls| && NotLost(s, call, waker)
    case Done(call, outcome) => call < |s.calls| && s.calls[call].outcome == Some(outcome)
    case Gone => true
  }

  /** A blocked follower waits for an outcome that is still to come, or for the `notify_all` of the publisher that just
      set it. */
  predicate NotForgotten(s: State, call: nat)
    requires call < |s.calls|
  {
    var c := s.calls[call];
    c.outcome.Some? ==> c.leader < |s.activities| && MidPublish(s.activities[c.leader], call) && s.activities[c.leader].Notifying?
  }

  /** A parked follower's waker is listed with a call still to be published, or in the hands of the publisher that took
      the list. */
  predicate NotLost(s: State, call: nat, waker: Waker)
    requires call < |s.calls|
  {
    var c := s.calls[call];
    if c.outcome.None? then waker in c.wakers
    else c.leader < |s.activities| && MidPublish(s.activities[c.leader], call) && waker in s.activities[c.leader].rest
  }

  /** The table holds, for each key, exactly the call of the one live guard on that key. */
  predicate TableOk(s: State) {
    forall key <- s.table ::
      && s.table[key] < |s.calls|
      && s.calls[s.table[key]].leader < |s.activities|
      && var a := s.activities[s.calls[s.table[key]].leader];
         HoldsGuard(a) && a.key == key && a.call == s.table[key]
  }

  predicate Inv(s: State) {
    && TableOk(s)
    && (forall c :: 0 <= c < |s.calls| ==> CallOk(s, c))
    && (forall i :: 0 <= i < |s.activities| ==> ActivityOk(s, i))
  }

  lemma SpawnKeepsInv(s: State, e: Event)
    requires Inv(s) && e.Spawn? && Enabled(s, e)
    ensures Inv(Apply(s, e))
  {
    var t := Apply(s, e);
    forall c | 0 <= c < |t.calls| ensures CallOk(t, c) {
      assert c < |s.calls| ==> CallOk(s, c);
    }
    forall i | 0 <= i < |t.activities| ensures ActivityOk(t, i) {
      assert i < |s.activities| ==> ActivityOk(s, i);
    }
  }

  /** A newcomer becomes a follower of a call that is there. */
  lemma BecomeKeepsInv(s: State, who: nat, a: Activity)
    requires Inv(s) && who < |s.activities| && (a.Checking? || a.Polling?) && a.call < |s.calls|
    requires s.activities[who].Fresh?
    ensures Inv(Become(s, who, a))
  {
    var t := Become(s, who, a);
    forall c | 0 <= c < |t.calls| ensures CallOk(t, c) {
      assert CallOk(s, c);
    }
    forall i | 0 <= i < |t.activities| ensures ActivityOk(t, i) {
      assert ActivityOk(s, i);
    }
  }

  lemma LeadKeepsInv(s: State, who: nat, key: string, t: State)
    requires Inv(s) && who < |s.activities| && s.activities[who].Fresh? && key !in s.table
    requires t == Become(s.(table := s.table[key := |s.calls|], calls := s.calls + [Call(None, [], who, false)]), who,
                         Leading(key, |s.calls|, false))
    ensures Inv(t)
  {
    forall c | 0 <= c < |t.calls| ensures CallOk(t, c) {
      assert c < |s.calls| ==> CallOk(s, c);
    }
    forall i | 0 <= i < |t.activities| ensures ActivityOk(t, i) {
      assert ActivityOk(s, i);
    }
  }

  lemma EnterKeepsInv(s: State, e: Event)
    requires Inv(s) && e.Enter? && Enabled(s, e)
    ensures Inv(Apply(s, e))
  {
    var key, isAsync := s.activities[e.who].key, s.activities[e.who].isAsync;
    if key in s.table {
      var call := s.table[key];
      var a := if isAsync then Polling(call) else Checking(call);
      assert call < |s.calls| && Apply(s, e) == Become(s, e.who, a);
      hide *;
      BecomeKeepsInv(s, e.who, a);
    } else {
      var t := Apply(s, e);
      assert t == Become(s.(table := s.table[key := |s.calls|], calls := s.calls + [Call(None, [], e.who, false)]), e.who,
                         Leading(key, |s.calls|, false));
      hide *;
      LeadKeepsInv(s, e.who, key, t);
    }
  }

  /** Whoever asks for a registered key follows its call, blocking or polling as it was asked to; anyone else leads a fresh
      one, registered under the key. */
  lemma EntersAsAsked(s: State, who: nat, key: string, isAsync: bool)
    requires who < |s.activities| && s.activities[who] == Fresh(key, isAsync)
    ensures Enabled(s, Enter(who))
    ensures var t := Apply(s, Enter(who));
            && |t.activities| == |s.activities|
            && if key in s.table then
                 && t.table == s.table && t.calls == s.calls
                 && (isAsync ==> t.activities[who] == Polling(s.table[key]))
                 && (!isAsync ==> t.activities[who] == Checking(s.table[key]))
               else
                 && t.table == s.table[key := |s.calls|] && t.calls == s.calls + [Call(None, [], who, false)]
                 && t.activities[who] == Leading(key, |s.calls|, false)
  {
  }

  /** The leader of an unpublished call sets its slot and takes its wakers. */
  lemma SetKeepsInv(s: State, who: nat, call: nat, o: Outcome, a: Activity, offered: bool)
    requires Inv(s) && who < |s.activities| && call < |s.calls| && s.calls[call].outcome.None?
    requires WillPublish(s.activities[who], call) && offered == !o.Abandoned?
    requires a.Notifying? && a.call == call && a.rest == s.calls[call].wakers
    requires if s.activities[who].Leading? then !a.dropping && offered && a.key == s.activities[who].key else a.dropping
    ensures var c := Call(Some(o), [], s.calls[call].leader, offered);
            Inv(Become(s.(calls := s.calls[call := c]), who, a))
  {
    var t := Become(s.(calls := s.calls[call := Call(Some(o), [], s.calls[call].leader, offered)]), who, a);
    assert ActivityOk(s, who);
    forall c | 0 <= c < |t.calls| ensures CallOk(t, c) {
      assert CallOk(s, c);
    }
    forall i | 0 <= i < |t.activities| ensures ActivityOk(t, i) {
      assert ActivityOk(s, i);
    }
  }

  lemma PublishKeepsInv(s: State, e: Event)
    requires Inv(s) && e.Publish? && Enabled(s, e)
    ensures Inv(Apply(s, e))
  {
    var a := s.activities[e.who];
    assert ActivityOk(s, e.who) && CallOk(s, a.call);
    var c := s.calls[a.call];
    if c.outcome.Some? {
      assert Apply(s, e) == s by {
        assert s.calls[a.call := c] == s.calls && s.activities[e.who := a] == s.activities;
      }
    } else {
      var next := Notifying(a.key, a.call, c.wakers, false);
      assert Apply(s, e) == Become(s.(calls := s.calls[a.call := Call(Some(e.offer), [], c.leader, true)]), e.who, next);
      assert WillPublish(a, a.call);
      hide *;
      SetKeepsInv(s, e.who, a.call, e.offer, next, true);
    }
  }

  lemma DropKeepsInv(s: State, e: Event)
    requires Inv(s) && e.Drop? && Enabled(s, e)
    ensures Inv(Apply(s, e))
  {
    assert ActivityOk(s, e.who);
    assert CallOk(s, s.activities[e.who].call);
    var t := Apply(s, e);
    forall c | 0 <= c < |t.calls| ensures CallOk(t, c) {
      assert c < |s.calls| ==> CallOk(s, c);
    }
    forall i | 0 <= i < |t.activities| ensures ActivityOk(t, i) {
      assert i < |s.activities| ==> ActivityOk(s, i);
    }
  }

  lemma LeaveKeepsInv(s: State, who: nat)
    requires Inv(s) && who < |s.activities| && s.activities[who].Removed? && s.activities[who].published
    ensures Inv(Become(s, who, Gone))
  {
    var t := Become(s, who, Gone);
    assert ActivityOk(s, who);
    forall c | 0 <= c < |t.calls| ensures CallOk(t, c) {
      assert CallOk(s, c);
    }
    forall i | 0 <= i < |t.activities| ensures ActivityOk(t, i) {
      assert ActivityOk(s, i);
    }
  }

  lemma ReleaseKeepsInv(s: State, e: Event)
    requires Inv(s) && e.Release? && Enabled(s, e)
    ensures Inv(Apply(s, e))
  {
    var a := s.activities[e.who];
    assert ActivityOk(s, e.who) && CallOk(s, a.call);
    var c := s.calls[a.call];
    if a.published {
      assert Apply(s, e) == Become(s, e.who, Gone);
      hide *;
      LeaveKeepsInv(s, e.who);
    } else {
      var next := Notifying("", a.call, c.wakers, true);
      assert WillPublish(a, a.call) && !c.offered;
      assert Apply(s, e) == Become(s.(calls := s.calls[a.call := Call(Some(Abandoned), [], c.leader, false)]), e.who, next);
      hide *;
      SetKeepsInv(s, e.who, a.call, Abandoned, next, false);
    }
  }

  lemma NotifyAllKeepsInv(s: State, e: Event)
    requires Inv(s) && e.NotifyAll? && Enabled(s, e)
    ensures Inv(Apply(s, e))
  {
    var t := Apply(s, e);
    forall c | 0 <= c < |t.calls| ensures CallOk(t, c) {
      assert c < |s.calls| ==> CallOk(s, c);
    }
    forall i | 0 <= i < |t.activities| ensures ActivityOk(t, i) {
      assert i < |s.activities| ==> ActivityOk(s, i);
    }
  }

  lemma WakeOneKeepsInv(s: State, e: Event)
    requires Inv(s) && e.WakeOne? && Enabled(s, e)
    ensures Inv(Apply(s, e))
  {
    var t := Apply(s, e);
    forall c | 0 <= c < |t.calls| ensures CallOk(t, c) {
      assert c < |s.calls| ==> CallOk(s, c);
    }
    forall i | 0 <= i < |t.activities| ensures ActivityOk(t, i) {
      assert i < |s.activities| ==> ActivityOk(s, i);
    }
  }

  lemma EndPublishKeepsInv(s: State, e: Event)
    requires Inv(s) && e.EndPublish? && Enabled(s, e)
    ensures Inv(Apply(s, e))
  {
    var t := Apply(s, e);
    forall c | 0 <= c < |t.calls| ensures CallOk(t, c) {
      assert c < |s.calls| ==> CallOk(s, c);
    }
    forall i | 0 <= i < |t.activities| ensures ActivityOk(t, i) {
      assert i < |s.activities| ==> ActivityOk(s, i);
    }
  }

  lemma LookKeepsInv(s: State, e: Event)
    requires Inv(s) && e.Look? && Enabled(s, e)
    ensures Inv(Apply(s, e))
  {
    var t := Apply(s, e);
    forall c | 0 <= c < |t.calls| ensures CallOk(t, c) {
      assert c < |s.calls| ==> CallOk(s, c);
    }
    forall i | 0 <= i < |t.activities| ensures ActivityOk(t, i) {
      assert i < |s.activities| ==> ActivityOk(s, i);
    }
  }

  lemma PollKeepsInv(s: State, e: Event)
    requires Inv(s) && e.Poll? && Enabled(s, e)
    ensures Inv(Apply(s, e))
  {
    var t := Apply(s, e);
    forall c | 0 <= c < |t.calls| ensures CallOk(t, c) {
      assert c < |s.calls| ==> CallOk(s, c);
    }
    forall i | 0 <= i < |t.activities| ensures ActivityOk(t, i) {
      assert i < |s.activities| ==> ActivityOk(s, i);
    }
  }

  lemma WakeForNothingKeepsInv(s: State, e: Event)
    requires Inv(s) && e.WakeForNothing? && Enabled(s, e)
    ensures Inv(Apply(s, e))
  {
    var t := Apply(s, e);
    forall c | 0 <= c < |t.calls| ensures CallOk(t, c) {
      assert c < |s.calls| ==> CallOk(s, c);
    }
    forall i | 0 <= i < |t.activities| ensures ActivityOk(t, i) {
      assert i < |s.activities| ==> ActivityOk(s, i);
    }
  }

  lemma CancelKeepsInv(s: State, e: Event)
    requires Inv(s) && e.Cancel? && Enabled(s, e)
    ensures Inv(Apply(s, e))
  {
    var t := Apply(s, e);
    forall c | 0 <= c < |t.calls| ensures CallOk(t, c) {
      assert c < |s.calls| ==> CallOk(s, c);
    }
    forall i | 0 <= i < |t.activities| ensures ActivityOk(t, i) {
      assert i < |s.activities| ==> ActivityOk(s, i);
    }
  }

  lemma StepKeepsInv(s: State, e: Event)
    requires Inv(s) && Enabled(s, e)
    ensures Inv(Apply(s, e))
  {
    match e
    case Spawn(_, _) => SpawnKeepsInv(s, e);
    case Enter(_) => EnterKeepsInv(s, e);
    case Publish(_, _) => PublishKeepsInv(s, e);
    case Drop(_) => DropKeepsInv(s, e);
    case Release(_) => ReleaseKeepsInv(s, e);
    case NotifyAll(_) => NotifyAllKeepsInv(s, e);
    case WakeOne(_) => WakeOneKeepsInv(s, e);
    case EndPublish(_) => EndPublishKeepsInv(s, e);
    case Look(_) => LookKeepsInv(s, e);
    case Poll(_, _) => PollKeepsInv(s, e);
    case WakeForNothing(_) => WakeForNothingKeepsInv(s, e);
    case Cancel(_) => CancelKeepsInv(s, e);
  }

  lemma {:induction false} RunsKeepInv(s: State, events: seq<Event>, t: State)
    requires Inv(s) && Runs(s, events, t)
    ensures Inv(t)
    decreases |events|
  {
    if events != [] {
      StepKeepsInv(s, events[0]);
      RunsKeepInv(Apply(s, events[0]), events[1..], t);
    }
  }

  lemma ReachableInv(history: seq<Event>, s: State)
    requires Runs(EMPTY, history, s)
    ensures Inv(s)
  {
    RunsKeepInv(EMPTY, history, s);
  }

  // One registered call per key.

  /** In every reachable state a key is registered exactly while one guard on it is live; there is never a second one, the
      registered call is that guard's own, and dropping the guard takes out that call and no other. */
  lemma OneGuardPerKey(history: seq<Event>, s: State, i: nat, j: nat)
    requires Runs(EMPTY, history, s)
    requires i < |s.activities| && HoldsGuard(s.activities[i])
    requires j < |s.activities| && HoldsGuard(s.activities[j]) && s.activities[j].key == s.activities[i].key
    ensures i == j && s.activities[i].key in s.table && s.table[s.activities[i].key] == s.activities[i].call
    ensures Enabled(s, Drop(i)) ==> forall key <- s.table ::
                key in Apply(s, Drop(i)).table <==> s.table[key] != s.activities[i].call
  {
    ReachableInv(history, s);
    assert ActivityOk(s, i) && ActivityOk(s, j);
    forall key <- s.table ensures s.table[key] == s.activities[i].call <==> key == s.activities[i].key {
      assert CallOk(s, s.table[key]);
    }
  }

  /** And a registered key always has its guard. */
  lemma RegisteredHasGuard(history: seq<Event>, s: State, key: string)
    requires Runs(EMPTY, history, s) && key in s.table
    ensures s.table[key] < |s.calls|
    ensures var i := s.calls[s.table[key]].leader;
            i < |s.activities| && HoldsGuard(s.activities[i]) && s.activities[i].key == key
  {
    ReachableInv(history, s);
  }

  // One outcome per call.

  /** An outcome, once written, never changes, whatever happens next. */
  lemma {:induction false} OutcomeIsFinal(s: State, events: seq<Event>, t: State, c: nat)
    requires Runs(s, events, t) && c < |s.calls| && s.calls[c].outcome.Some?
    ensures c < |t.calls| && t.calls[c].outcome == s.calls[c].outcome
    decreases |events|
  {
    if events != [] {
      OutcomeIsFinal(Apply(s, events[0]), events[1..], t, c);
    }
  }

  /** Everyone who waited on a call got the very outcome it holds, and that is `Abandoned` only when the guard was dropped
      without ever having published. */
  lemma WaitersAgree(history: seq<Event>, s: State, i: nat, j: nat)
    requires Runs(EMPTY, history, s) && i < |s.activities| && j < |s.activities|
    requires s.activities[i].Done? && s.activities[j].Done? && s.activities[i].call == s.activities[j].call
    ensures s.activities[i].outcome == s.activities[j].outcome
    ensures var c := s.activities[i].call;
            c < |s.calls| && (s.activities[i].outcome.Abandoned? <==> !s.calls[c].offered)
  {
    ReachableInv(history, s);
    assert ActivityOk(s, i) && ActivityOk(s, j);
    assert CallOk(s, s.activities[i].call);
  }

  // The outcome is the offer.

  /** What an activity first published, if it ever did. */
  function FirstOffer(history: seq<Event>, who: nat): Option<Outcome> {
    if history == [] then None
    else if history[0].Publish? && history[0].who == who then Some(history[0].offer)
    else FirstOffer(history[1..], who)
  }

  lemma {:induction false} FirstOfferThen(history: seq<Event>, e: Event, who: nat)
    ensures FirstOffer(history + [e], who)
            == if FirstOffer(history, who).Some? then FirstOffer(history, who)
               else if e.Publish? && e.who == who then Some(e.offer) else None
  {
    if history == [] {
      assert [e][1..] == [] && history + [e] == [e];
    } else {
      assert (history + [e])[1..] == history[1..] + [e];
      FirstOfferThen(history[1..], e, who);
    }
  }

  /** A call holds what its leader first published, or `Abandoned` when it did not publish; nobody else publishes. */
  ghost predicate HoldsOffers(s: State, history: seq<Event>) {
    && (forall c :: 0 <= c < |s.calls| ==>
          && s.calls[c].leader < |s.activities| && !s.activities[s.calls[c].leader].Fresh?
          && var offer := FirstOffer(history, s.calls[c].leader);
             if offer.Some? then s.calls[c].outcome == offer else s.calls[c].outcome in {None, Some(Abandoned)})
    && (forall c, d :: 0 <= c < d < |s.calls| ==> s.calls[c].leader != s.calls[d].leader)
    && (forall who: nat :: who >= |s.activities| || s.activities[who].Fresh? ==> FirstOffer(history, who).None?)
  }

  /** One call, or none, is published by a step, as what its leader offers or as `Abandoned`. */
  lemma StepPublishes(s: State, e: Event)
    requires Inv(s) && Enabled(s, e) && !e.Enter? && !e.Spawn?
    ensures var t := Apply(s, e);
            && |t.calls| == |s.calls|
            && forall c :: 0 <= c < |s.calls| ==>
                 && t.calls[c].leader == s.calls[c].leader
                 && (s.calls[c].outcome.Some? ==> t.calls[c].outcome == s.calls[c].outcome)
                 && (s.calls[c].outcome.None? ==>
                       t.calls[c].outcome == if e.Publish? && e.who == s.calls[c].leader && e.who < |s.activities| &&
                                                s.activities[e.who].Leading? && s.activities[e.who].call == c
                                             then Some(e.offer)
                                             else if e == Release(s.calls[c].leader) && e.who < |s.activities| &&
                                                     s.activities[e.who] == Removed(c, false)
                                             then Some(Abandoned) else None)
  {
    assert ActivityOk(s, e.who);
    hide TableOk, NotLost, NotForgotten;
  }

  lemma StepKeepsFresh(s: State, e: Event)
    requires Enabled(s, e)
    ensures |s.activities| <= |Apply(s, e).activities|
    ensures forall i :: 0 <= i < |s.activities| && !s.activities[i].Fresh? ==> !Apply(s, e).activities[i].Fresh?
    ensures forall i :: |s.activities| <= i < |Apply(s, e).activities| ==> e.Spawn? && Apply(s, e).activities[i].Fresh?
    ensures forall i :: 0 <= i < |s.activities| && Apply(s, e).activities[i].Fresh? ==> s.activities[i].Fresh?
  {
    hide PublishSlot, PollSlot;
  }

  lemma EnterAdds(s: State, e: Event)
    requires Inv(s) && Enabled(s, e) && (e.Enter? || e.Spawn?)
    ensures var t := Apply(s, e);
            || t.calls == s.calls
            || (t.calls == s.calls + [Call(None, [], e.who, false)] && s.activities[e.who].Fresh? && !t.activities[e.who].Fresh?)
  {
  }

  /** `later` is what activities first published, once `e` has followed on `history`. */
  ghost predicate Extends(history: seq<Event>, e: Event, later: seq<Event>) {
    forall who: nat ::
      FirstOffer(later, who)
      == if FirstOffer(history, who).Some? then FirstOffer(history, who)
         else if e.Publish? && e.who == who then Some(e.offer) else None
  }

  lemma EnteringKeepsOffers(s: State, history: seq<Event>, e: Event, later: seq<Event>)
    requires Inv(s) && HoldsOffers(s, history) && Enabled(s, e) && Extends(history, e, later)
    requires e.Enter? || e.Spawn?
    ensures HoldsOffers(Apply(s, e), later)
  {
    StepKeepsFresh(s, e);
    EnterAdds(s, e);
    hide Apply, FirstOffer, Enabled, Inv;
  }

  lemma OthersKeepOffers(s: State, history: seq<Event>, e: Event, later: seq<Event>)
    requires Inv(s) && HoldsOffers(s, history) && Enabled(s, e) && Extends(history, e, later)
    requires !e.Enter? && !e.Spawn?
    ensures HoldsOffers(Apply(s, e), later)
  {
    StepKeepsFresh(s, e);
    if e.Publish? {
      assert ActivityOk(s, e.who) && CallOk(s, s.activities[e.who].call);
    }
    hide Apply, FirstOffer, Enabled, Inv;
    StepPublishes(s, e);
  }

  lemma OfferStays(s: State, history: seq<Event>, e: Event)
    requires Inv(s) && HoldsOffers(s, history) && Enabled(s, e)
    ensures HoldsOffers(Apply(s, e), history + [e])
  {
    forall who: nat
      ensures FirstOffer(history + [e], who)
              == if FirstOffer(history, who).Some? then FirstOffer(history, who)
                 else if e.Publish? && e.who == who then Some(e.offer) else None
    {
      FirstOfferThen(history, e, who);
    }
    assert Extends(history, e, history + [e]);
    hide *;
    if e.Enter? || e.Spawn? {
      EnteringKeepsOffers(s, history, e, history + [e]);
    } else {
      OthersKeepOffers(s, history, e, history + [e]);
    }
  }

  lemma {:induction false} OffersStay(s: State, before: seq<Event>, events: seq<Event>, t: State)
    requires Inv(s) && HoldsOffers(s, before) && Runs(s, events, t)
    ensures HoldsOffers(t, before + events)
    decreases |events|
  {
    hide Inv, HoldsOffers, Enabled, Apply;
    if events == [] {
      assert before + events == before;
    } else {
      StepKeepsInv(s, events[0]);
      OfferStays(s, before, events[0]);
      OffersStay(Apply(s, events[0]), before + [events[0]], events[1..], t);
      assert before + [events[0]] + events[1..] == before + events;
    }
  }

  /** Over any run, whatever is in a call's slot, and so whatever anyone waiting on it got, is what its leader first
      published, or `Abandoned` exactly when it never published; and once it has published, the slot holds that. */
  lemma OutcomeIsTheOffer(history: seq<Event>, s: State, c: nat)
    requires Runs(EMPTY, history, s) && c < |s.calls|
    ensures var offer := FirstOffer(history, s.calls[c].leader);
            && (offer.Some? ==> s.calls[c].outcome == offer)
            && (offer.None? ==> s.calls[c].outcome in {None, Some(Abandoned)})
            && (forall i :: 0 <= i < |s.activities| && s.activities[i].Done? && s.activities[i].call == c ==>
                  s.activities[i].outcome == if offer.Some? then offer.value else Abandoned)
  {
    ReachableInv(history, s);
    NothingOffered();
    hide Inv, Runs;
    OffersStay(EMPTY, [], history, s);
    assert [] + history == history;
    forall i | 0 <= i < |s.activities| && s.activities[i].Done? && s.activities[i].call == c
      ensures s.calls[c].outcome == Some(s.activities[i].outcome)
    {
      DoneHasOutcome(s, i);
    }
  }

  lemma NothingOffered()
    ensures Inv(EMPTY) && HoldsOffers(EMPTY, [])
  {
  }

  lemma DoneHasOutcome(s: State, i: nat)
    requires Inv(s) && i < |s.activities| && s.activities[i].Done?
    ensures s.activities[i].call < |s.calls| && s.calls[s.activities[i].call].outcome == Some(s.activities[i].outcome)
  {
    assert ActivityOk(s, i);
  }

  // No lost wake-up.

  /** Wherever the interleaving stands, someone still owes a waiting follower its wake-up: either its call is unpublished,
      its guard is yet to publish, and the follower's waker is on the list; or the publisher that set the outcome is
      mid-step, with the `notify_all` or that very waker still ahead of it. */
  lemma NoLostWakeUp(history: seq<Event>, s: State, i: nat)
    requires Runs(EMPTY, history, s) && i < |s.activities|
    requires s.activities[i].Parked? || s.activities[i].Blocked?
    ensures var a := s.activities[i];
            && a.call < |s.calls|
            && var c := s.calls[a.call];
               && c.leader < |s.activities|
               && var owing := s.activities[c.leader];
                  if c.outcome.None? then WillPublish(owing, a.call) && (a.Parked? ==> a.waker in c.wakers)
                  else MidPublish(owing, a.call) && (if a.Parked? then a.waker in owing.rest else owing.Notifying?)
  {
    ReachableInv(history, s);
    assert ActivityOk(s, i);
    assert CallOk(s, s.activities[i].call);
  }

  // Every follower finishes once the guards are gone.

  /** Every guard is dropped, though some drops may not have got to their publication yet. */
  predicate GuardsDropped(s: State) {
    forall a <- s.activities :: !a.Fresh? && !HoldsGuard(a)
  }

  predicate IsProgress(e: Event) {
    e.Release? || e.NotifyAll? || e.WakeOne? || e.EndPublish? || e.Look? || e.Poll?
  }

  function StagesLeft(a: Activity): nat {
    if a.Removed? then 3 else if a.Notifying? then 2 else if a.Waking? then 1 else 0
  }

  function WakersLeft(a: Activity): nat {
    if a.Waking? then |a.rest| else 0
  }

  function LooksLeft(a: Activity): nat {
    if a.Checking? || a.Polling? then 2 else if a.Blocked? || a.Parked? then 1 else 0
  }

  function Sum(activities: seq<Activity>, f: Activity -> nat): nat {
    if activities == [] then 0 else Sum(activities[..|activities| - 1], f) + f(activities[|activities| - 1])
  }

  lemma {:induction false} SumAtMost(a: seq<Activity>, b: seq<Activity>, f: Activity -> nat)
    requires |a| == |b| && forall i :: 0 <= i < |a| ==> f(b[i]) <= f(a[i])
    ensures Sum(b, f) <= Sum(a, f)
    ensures (exists i :: 0 <= i < |a| && f(b[i]) < f(a[i])) ==> Sum(b, f) < Sum(a, f)
  {
    if a != [] {
      var n := |a| - 1;
      assert forall i :: 0 <= i < n ==> a[..n][i] == a[i] && b[..n][i] == b[i];
      SumAtMost(a[..n], b[..n], f);
    }
  }

  lemma {:induction false} SumReplace(a: seq<Activity>, i: nat, x: Activity, f: Activity -> nat)
    requires i < |a|
    ensures Sum(a[i := x], f) + f(a[i]) == Sum(a, f) + f(x)
  {
    var n := |a| - 1;
    if i < n {
      SumReplace(a[..n], i, x, f);
      assert a[i := x][..n] == a[..n][i := x];
    } else {
      assert a[i := x][..n] == a[..n];
    }
  }

  function Stages(s: State): nat { Sum(s.activities, StagesLeft) }
  function Wakers(s: State): nat { Sum(s.activities, WakersLeft) }
  function Looks(s: State): nat { Sum(s.activities, LooksLeft) }

  predicate Lower(t: State, s: State) {
    || Stages(t) < Stages(s)
    || (Stages(t) == Stages(s) && Wakers(t) < Wakers(s))
    || (Stages(t) == Stages(s) && Wakers(t) == Wakers(s) && Looks(t) < Looks(s))
  }

  /** The call an activity follows, waiting or served. */
  function Follows(a: Activity): Option<nat> {
    if a.Checking? || a.Blocked? || a.Polling? || a.Parked? || a.Done? then Some(a.call) else None
  }

  /** Every step a released follower or a dropping guard takes, in whatever order, brings the end nearer, and loses no
      follower on the way. */
  lemma ProgressDescends(s: State, e: Event)
    requires GuardsDropped(s) && IsProgress(e) && Enabled(s, e)
    ensures GuardsDropped(Apply(s, e)) && Lower(Apply(s, e), s)
    ensures |Apply(s, e).activities| == |s.activities|
    ensures forall i :: 0 <= i < |s.activities| ==> Follows(Apply(s, e).activities[i]) == Follows(s.activities[i])
  {
    if e.Release? || e.EndPublish? {
      DropDescends(s, e);
    } else if e.NotifyAll? {
      NotifyDescends(s, e);
    } else if e.WakeOne? {
      WakeDescends(s, e);
    } else {
      LookDescends(s, e);
    }
  }

  lemma DropDescends(s: State, e: Event)
    requires GuardsDropped(s) && Enabled(s, e) && (e.Release? || e.EndPublish?)
    ensures var t := Apply(s, e);
            && GuardsDropped(t) && Stages(t) < Stages(s) && |t.activities| == |s.activities|
            && forall i :: 0 <= i < |s.activities| ==> Follows(t.activities[i]) == Follows(s.activities[i])
  {
    var after := Apply(s, e).activities[e.who];
    assert Apply(s, e).activities == s.activities[e.who := after];
    SumReplace(s.activities, e.who, after, StagesLeft);
  }

  lemma NotifyDescends(s: State, e: Event)
    requires GuardsDropped(s) && Enabled(s, e) && e.NotifyAll?
    ensures var t := Apply(s, e);
            && GuardsDropped(t) && Stages(t) < Stages(s) && |t.activities| == |s.activities|
            && forall i :: 0 <= i < |s.activities| ==> Follows(t.activities[i]) == Follows(s.activities[i])
  {
    var t := Apply(s, e);
    assert StagesLeft(t.activities[e.who]) < StagesLeft(s.activities[e.who]);
    SumAtMost(s.activities, t.activities, StagesLeft);
  }

  lemma SumSame(a: seq<Activity>, b: seq<Activity>, f: Activity -> nat)
    requires |a| == |b| && forall i :: 0 <= i < |a| ==> f(b[i]) == f(a[i])
    ensures Sum(b, f) == Sum(a, f)
  {
    SumAtMost(a, b, f);
    SumAtMost(b, a, f);
  }

  /** What waking one task does to each activity: the publisher has one waker less, and at most one sleeper is woken. */
  lemma WakeOneByOne(s: State, e: Event, i: nat)
    requires GuardsDropped(s) && Enabled(s, e) && e.WakeOne? && i < |s.activities|
    ensures |Apply(s, e).activities| == |s.activities|
    ensures var a, b := s.activities[i], Apply(s, e).activities[i];
            && StagesLeft(b) == StagesLeft(a) && Follows(b) == Follows(a) && !b.Fresh? && !HoldsGuard(b)
            && (if i == e.who then WakersLeft(b) < WakersLeft(a) else WakersLeft(b) == WakersLeft(a))
  {
    assert s.activities[i] in s.activities;
  }

  lemma WakeDescends(s: State, e: Event)
    requires GuardsDropped(s) && Enabled(s, e) && e.WakeOne?
    ensures var t := Apply(s, e);
            && GuardsDropped(t) && Stages(t) == Stages(s) && Wakers(t) < Wakers(s) && |t.activities| == |s.activities|
            && forall i :: 0 <= i < |s.activities| ==> Follows(t.activities[i]) == Follows(s.activities[i])
  {
    var t := Apply(s, e);
    assert e.who < |s.activities|;
    hide Apply, Enabled, StagesLeft, WakersLeft, Follows, HoldsGuard, Sum;
    forall i | 0 <= i < |s.activities|
      ensures var a, b := s.activities[i], t.activities[i];
              && StagesLeft(b) == StagesLeft(a) && Follows(b) == Follows(a) && !b.Fresh? && !HoldsGuard(b)
              && (if i == e.who then WakersLeft(b) < WakersLeft(a) else WakersLeft(b) == WakersLeft(a))
    {
      WakeOneByOne(s, e, i);
    }
    WakeOneByOne(s, e, e.who);
    SumSame(s.activities, t.activities, StagesLeft);
    SumAtMost(s.activities, t.activities, WakersLeft);
  }

  lemma LookDescends(s: State, e: Event)
    requires GuardsDropped(s) && Enabled(s, e) && (e.Look? || e.Poll?)
    ensures var t := Apply(s, e);
            && GuardsDropped(t) && Stages(t) == Stages(s) && Wakers(t) == Wakers(s) && Looks(t) < Looks(s)
            && |t.activities| == |s.activities|
            && forall i :: 0 <= i < |s.activities| ==> Follows(t.activities[i]) == Follows(s.activities[i])
  {
    var after := Apply(s, e).activities[e.who];
    assert Apply(s, e).activities == s.activities[e.who := after];
    SumReplace(s.activities, e.who, after, StagesLeft);
    SumReplace(s.activities, e.who, after, WakersLeft);
    SumReplace(s.activities, e.who, after, LooksLeft);
  }

  predicate Finished(s: State) {
    forall a <- s.activities :: a.Done? || a.Gone?
  }

  /** The step an unfinished activity that is not waiting takes next. */
  function NextStep(a: Activity, who: nat): Event {
    if a.Removed? then Release(who)
    else if a.Notifying? then NotifyAll(who)
    else if a.Waking? then (if a.rest == [] then EndPublish(who) else WakeOne(who))
    else if a.Checking? then Look(who)
    else Poll(who, 0)
  }

  /** Someone unfinished can step: an activity that is not waiting, or the publisher it is waiting for. */
  lemma SomeoneCanStep(s: State) returns (e: Event)
    requires Inv(s) && GuardsDropped(s) && !Finished(s)
    ensures IsProgress(e) && Enabled(s, e)
  {
    var i: nat :| i < |s.activities| && !(s.activities[i].Done? || s.activities[i].Gone?);
    assert ActivityOk(s, i);
    if s.activities[i].Blocked? || s.activities[i].Parked? {
      assert CallOk(s, s.activities[i].call);
      i := s.calls[s.activities[i].call].leader;
      assert ActivityOk(s, i);
    }
    e := NextStep(s.activities[i], i);
  }

  /** Once every guard is dropped, the publishers and followers by themselves run to a state in which every follower has
      its call's outcome: none is left waiting. */
  lemma {:induction false} FollowersFinish(s: State) returns (events: seq<Event>, t: State)
    requires Inv(s) && GuardsDropped(s)
    ensures Runs(s, events, t) && forall e <- events :: IsProgress(e)
    ensures |t.activities| == |s.activities| && Finished(t) && Inv(t)
    ensures forall i :: 0 <= i < |s.activities| && Follows(s.activities[i]).Some? ==>
                          t.activities[i].Done? && t.activities[i].call == Follows(s.activities[i]).value
    decreases Stages(s), Wakers(s), Looks(s)
  {
    if Finished(s) {
      events, t := [], s;
    } else {
      var e := SomeoneCanStep(s);
      ProgressDescends(s, e);
      StepKeepsInv(s, e);
      events, t := FollowersFinish(Apply(s, e));
      assert ([e] + events)[1..] == events;
      events := [e] + events;
    }
  }
}

/** The objects behind the machine: each method is one lock region, and does to the slot or the table what the machine's
    step does. */
module Flight {
  import opened Wrappers
  import opened FlightMachine

  class InFlight {
    var outcome: Option<Outcome>
    var wakers: seq<Waker>
    ghost var leader: nat
    ghost var offered: bool

    constructor (ghost leader: nat)
      ensures Slot() == Call(None, [], leader, false)
    {
      outcome, wakers := None, [];
      this.leader, offered := leader, false;
    }

    ghost function Slot(): Call
      reads this
    {
      Call(outcome, wakers, leader, offered)
    }

    /** Sets the slot unless it is set, and takes the wakers to be woken once the lock is released. */
    method Publish(o: Outcome) returns (taken: Option<seq<Waker>>)
      modifies this`outcome, this`wakers
      ensures old(outcome).None? ==> outcome == Some(o) && taken == Some(old(wakers)) && wakers == []
      ensures old(outcome).Some? ==> outcome == old(outcome) && taken == None && wakers == old(wakers)
      ensures (Slot(), taken) == PublishSlot(old(Slot()), o)
    {
      if outcome.Some? {
        return None;
      }
      outcome := Some(o);
      taken := Some(wakers);
      wakers := [];
    }

    /** The outcome, or `waker` parked, once, while the lock is still held. */
    method Poll(waker: Waker) returns (r: Option<Outcome>)
      modifies this`wakers
      ensures r == outcome
      ensures r.None? ==> waker in wakers && wakers == if waker in old(wakers) then old(wakers) else old(wakers) + [waker]
      ensures r.Some? ==> wakers == old(wakers)
      ensures (Slot(), r) == PollSlot(old(Slot()), waker)
    {
      if outcome.Some? {
        return outcome;
      }
      var known := false;
      for i := 0 to |wakers|
        invariant known <==> waker in wakers[..i]
      {
        known := known || wakers[i] == waker;
      }
      assert wakers[..|wakers|] == wakers;
      if !known {
        wakers := wakers + [waker];
      }
      return None;
    }
  }

  datatype Entry = Leader(guard: Guard) | Follower(call: InFlight)

  class Table {
    var calls: map<string, InFlight>

    constructor ()
      ensures calls == map[]
    {
      calls := map[];
    }

    /** Whoever finds no call for the key registered leads a fresh one; everyone else follows that one. */
    method Enter(key: string, ghost who: nat) returns (entry: Entry)
      modifies this
      ensures if key in old(calls)
              then entry == Follower(old(calls)[key]) && calls == old(calls)
              else entry.Leader? && fresh(entry.guard) && fresh(entry.guard.call) && entry.guard.table == this &&
                   entry.guard.key == key && !entry.guard.published &&
                   entry.guard.call.Slot() == Call(None, [], who, false) &&
                   calls == old(calls)[key := entry.guard.call]
    {
      if key in calls {
        return Follower(calls[key]);
      }
      var call := new InFlight(who);
      calls := calls[key := call];
      var guard := new Guard(this, key, call);
      return Leader(guard);
    }
  }

  class Guard {
    const table: Table
    const key: string
    const call: InFlight
    var published: bool

    constructor (table: Table, key: string, call: InFlight)
      ensures this.table == table && this.key == key && this.call == call && !published
    {
      this.table, this.key, this.call, published := table, key, call, false;
    }

    /** Publishes through the guard; the wakers taken are woken one by one afterwards. */
    method Publish(o: Outcome) returns (taken: Option<seq<Waker>>)
      modifies this, call
      ensures published && call.offered
      ensures old(call.outcome).None? ==> call.outcome == Some(o) && taken == Some(old(call.wakers)) && call.wakers == []
      ensures old(call.outcome).Some? ==> call.outcome == old(call.outcome) && taken == None
      ensures var (slot, woken) := PublishSlot(old(call.Slot()), o);
              call.Slot() == slot.(offered := true) && taken == woken
    {
      taken := call.Publish(o);
      call.offered := true;
      published := true;
    }

    /** Deregisters the computation, and releases the followers of a leader that never published. */
    method Drop() returns (taken: Option<seq<Waker>>)
      modifies table, call`outcome, call`wakers
      ensures table.calls == old(table.calls) - {key}
      ensures (call.Slot(), taken) == if published then (old(call.Slot()), None) else PublishSlot(old(call.Slot()), Abandoned)
    {
      table.calls := table.calls - {key};
      taken := None;
      if !published {
        taken := call.Publish(Abandoned);
      }
    }
  }
}

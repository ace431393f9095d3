/** Memory in front of disk, tier by tier and in the order the tiers are visited (src/memo/composite_store.rs,
    src/memo/memory_store.rs, src/memo/disk_store.rs). */
module CompositeStore {
  import opened Wrappers
  import opened Tiers

  datatype MemoError = NotAdmitted | Storage

  datatype Result<+T> = Ok(value: T) | Err(error: MemoError)

  /** `asked` lists every key of `keys` once. */
  ghost predicate Lists(asked: seq<string>, keys: set<string>) {
    && |asked| == |keys|
    && forall key :: key in asked <==> key in keys
  }

  lemma ListsAll(asked: seq<string>, keys: set<string>)
    requires Lists(asked, keys)
    ensures |asked| == |keys|
  {
  }

  /** The keys `keep` approved, when asked in this order. */
  function Approved(keep: (nat, string) -> bool, asked: seq<string>): set<string> {
    if asked == [] then {} else
      var n := |asked| - 1;
      Approved(keep, asked[..n]) + if keep(n, asked[n]) then {asked[n]} else {}
  }

  /** What has been asked, and what was said: every key of `seen` once, `kept` approved and `refused` refused. */
  ghost predicate Consulted(keep: (nat, string) -> bool, asked: seq<string>, seen: set<string>, kept: set<string>,
                            refused: int) {
    Lists(asked, seen) && kept == Approved(keep, asked) && kept <= seen && refused == |asked| - |kept|
  }

  lemma Asks(keep: (nat, string) -> bool, asked: seq<string>, seen: set<string>, kept: set<string>, refused: int,
             key: string)
    requires Consulted(keep, asked, seen, kept, refused) && key !in seen
    ensures var yes := keep(|asked|, key);
            Consulted(keep, asked + [key], seen + {key}, if yes then kept + {key} else kept,
                      if yes then refused else refused + 1)
  {
    assert (asked + [key])[..|asked|] == asked;
  }

  /** Asks `keep`, whose answer may depend on how often it was asked before, once about each live entry of a table. */
  method Consult(table: map<string, Held>, now: nat, keep: (nat, string) -> bool)
    returns (kept: set<string>, asked: seq<string>, refused: int)
    ensures Lists(asked, LiveKeys(table, now))
    ensures kept == Approved(keep, asked) && kept <= LiveKeys(table, now)
    ensures refused == |asked| - |kept|
  {
    ghost var live := LiveKeys(table, now);
    var todo := table.Keys;
    kept, asked, refused := {}, [], 0;
    assert live - todo == {};
    assert Consulted(keep, asked, live - todo, kept, refused);
    hide Consulted, LiveKeys, Live;
    while todo != {}
      invariant todo <= table.Keys
      invariant Consulted(keep, asked, live - todo, kept, refused)
    {
      var key :| key in todo;
      StillLive(table, now, todo, key);
      if Live(table[key], now) {
        kept, asked, refused := Ask(keep, asked, live - todo, kept, refused, key);
      }
      todo := todo - {key};
    }
    assert live - todo == live;
    AllConsulted(keep, asked, live, kept, refused);
  }

  method Ask(keep: (nat, string) -> bool, asked: seq<string>, ghost seen: set<string>, kept: set<string>, refused: int,
             key: string)
    returns (kept': set<string>, asked': seq<string>, refused': int)
    requires Consulted(keep, asked, seen, kept, refused) && key !in seen
    ensures Consulted(keep, asked', seen + {key}, kept', refused') && asked' == asked + [key]
  {
    hide Consulted;
    Asks(keep, asked, seen, kept, refused, key);
    kept', asked', refused' := kept, asked + [key], refused;
    if keep(|asked|, key) {
      kept' := kept + {key};
    } else {
      refused' := refused + 1;
    }
  }

  lemma StillLive(table: map<string, Held>, now: nat, todo: set<string>, key: string)
    requires key in todo && todo <= table.Keys
    ensures var live := LiveKeys(table, now);
            live - (todo - {key}) == if Live(table[key], now) then live - todo + {key} else live - todo
    ensures key !in LiveKeys(table, now) - todo
  {
  }

  lemma AllConsulted(keep: (nat, string) -> bool, asked: seq<string>, seen: set<string>, kept: set<string>, refused: int)
    requires Consulted(keep, asked, seen, kept, refused)
    ensures Lists(asked, seen) && kept == Approved(keep, asked) && kept <= seen && refused == |asked| - |kept|
  {
  }

  class CompositeStore {
    const c: Config
    /** The disk tier never fails. */
    const reliable: bool

    var memory: map<string, Held>
    var disk: map<string, Held>
    var now: nat

    constructor (c: Config, reliable: bool, disk: map<string, Held>, now: nat)
      ensures this.c == c && this.reliable == reliable && View() == Store(map[], disk, now)
    {
      this.c, this.reliable, memory, this.disk, this.now := c, reliable, map[], disk, now;
    }

    function View(): Store
      reads this
    {
      Store(memory, disk, now)
    }

    /** Whether the disk fails now. */
    method DiskFails() returns (fails: bool)
      ensures reliable ==> !fails
    {
      fails := *;
      fails := fails && !reliable;
    }

    method MemoryGet(key: string) returns (r: Option<Entry>)
      ensures r == Look(memory, key, now)
    {
      if key !in memory {
        return None;
      }
      var entry := memory[key];
      if entry.deadline.None? {
        return Some(Entry(entry.value, None));
      }
      if entry.deadline.value <= now {
        return None;
      }
      return Some(Entry(entry.value, Some(entry.deadline.value - now)));
    }

    method MemorySet(key: string, value: seq<byte>, ttl: nat) returns (r: Result<()>)
      modifies this`memory
      ensures View() == Tiers.MemorySet(c, old(View()), key, value, ttl)
      ensures r == if MemoryAdmits(c, value, ttl) then Ok(()) else Err(NotAdmitted)
    {
      if ttl == 0 || |value| > c.capacity {
        return Err(NotAdmitted);
      }
      memory := memory[key := Held(value, DeadlineAt(c, now, ttl))];
      return Ok(());
    }

    method MemoryRemove(key: string) returns (was: bool)
      modifies this`memory
      ensures memory == old(memory) - {key} && was == Look(old(memory), key, now).Some?
    {
      was := key in memory && (memory[key].deadline.None? || memory[key].deadline.value > now);
      memory := memory - {key};
    }

    /** Drops the live entries that are not in `kept`: the refused are collected first and invalidated after. */
    method MemoryRetain(kept: set<string>)
      modifies this`memory
      ensures memory == map key <- old(memory) | key in kept || !Live(old(memory)[key], now) :: old(memory)[key]
    {
      var refused: set<string> := {};
      var todo := memory.Keys;
      while todo != {}
        invariant todo <= memory.Keys
        invariant refused == set key <- memory.Keys - todo | Live(memory[key], now) && key !in kept
      {
        var key :| key in todo;
        todo := todo - {key};
        if Live(memory[key], now) && key !in kept {
          refused := refused + {key};
        }
      }
      memory := memory - refused;
    }

    method DiskGet(key: string) returns (r: Result<Option<Entry>>)
      ensures r.Ok? ==> r.value == Look(disk, key, now)
      ensures r.Err? ==> !reliable
    {
      var fails := DiskFails();
      if fails {
        return Err(Storage);
      }
      return Ok(Look(disk, key, now));
    }

    method DiskSet(key: string, value: seq<byte>, ttl: nat) returns (r: Result<()>)
      requires c.grain > 0
      modifies this`disk
      ensures r.Ok? ==> ttl > 0 && disk == old(disk)[key := Held(value, CutDown(c, DeadlineAt(c, now, ttl)))]
      ensures r.Err? ==> disk == old(disk) && r.error == (if ttl == 0 then NotAdmitted else Storage)
      ensures reliable && ttl > 0 ==> r.Ok?
    {
      if ttl == 0 {
        return Err(NotAdmitted);
      }
      var fails := DiskFails();
      if fails {
        return Err(Storage);
      }
      disk := disk[key := Held(value, CutDown(c, DeadlineAt(c, now, ttl)))];
      return Ok(());
    }

    method DiskRemove(key: string) returns (r: Result<bool>)
      modifies this`disk
      ensures r.Ok? ==> disk == old(disk) - {key} && r.value == Look(old(disk), key, now).Some?
      ensures r.Err? ==> !reliable && disk == old(disk)
    {
      var fails := DiskFails();
      if fails {
        return Err(Storage);
      }
      var was := key in disk && Live(disk[key], now);
      disk := disk - {key};
      return Ok(was);
    }

    /** Drops the refused and the dead in one transaction. */
    method DiskRetain(keep: (nat, string) -> bool) returns (r: Result<int>, kept: set<string>, asked: seq<string>)
      modifies this`disk
      ensures Lists(asked, LiveKeys(old(disk), now)) && kept == Approved(keep, asked)
      ensures r.Ok? ==>
                && disk == (map key <- old(disk) | key in kept && Live(old(disk)[key], now) :: old(disk)[key])
                && r.value == |asked| - |kept|
      ensures r.Err? ==> !reliable && disk == old(disk)
    {
      hide Approved, Lists, LiveKeys;
      var refused;
      kept, asked, refused := Consult(disk, now, keep);
      var fails := DiskFails();
      if fails {
        return Err(Storage), kept, asked;
      }
      disk := map key <- disk | key in kept && Live(disk[key], now) :: disk[key];
      return Ok(refused), kept, asked;
    }

    ghost predicate Agrees(whole: Contents)
      requires c.grain > 0
      reads this
    {
      Coherent(c, View(), whole)
    }

    method Get(key: string) returns (r: Result<Option<Entry>>)
      requires c.grain > 0
      modifies this`memory
      ensures r.Ok? ==> (View(), r.value) == Tiers.Get(c, old(View()), key)
      ensures r.Err? ==> !reliable && View() == old(View()) && Look(memory, key, now).None?
      ensures forall whole :: old(Agrees(whole)) ==> Agrees(whole)
    {
      hide Coherent;
      forall whole | Agrees(whole) ensures Coherent(c, Tiers.Get(c, View(), key).0, whole) {
        GetKeepsCoherent(c, View(), whole, key);
      }
      var front := MemoryGet(key);
      if front.Some? {
        return Ok(front);
      }
      r := DiskGet(key);
      if r.Err? || r.value.None? {
        return;
      }
      var entry := r.value.value;
      if c.promote > 0 {
        var ttl := if entry.remaining.Some? && entry.remaining.value < c.promote then entry.remaining.value else c.promote;
        var _ := MemorySet(key, entry.value, ttl);
      }
    }

    /** Both tiers are visited whatever the other does, and one that took the value is enough. */
    method Set(key: string, value: seq<byte>, ttl: nat) returns (r: Result<()>, ghost diskFailed: bool)
      requires c.grain > 0
      modifies this`memory, this`disk
      ensures (View(), r.Ok?) == Tiers.Set(c, old(View()), key, value, ttl, diskFailed)
      ensures r.Err? ==> View() == old(View()) && r.error == (if ttl == 0 then NotAdmitted else Storage)
      ensures reliable && ttl > 0 ==> !diskFailed && r.Ok?
      ensures diskFailed ==> !reliable
    {
      var back := DiskSet(key, value, ttl);
      diskFailed := ttl > 0 && back.Err?;
      var front := MemorySet(key, value, ttl);
      r := if back.Ok? || front.Ok? then Ok(()) else back;
    }

    /** Whatever disk says, the key is gone from memory; when disk fails, it alone keeps its entry. */
    method Remove(key: string) returns (r: Result<bool>)
      modifies this`memory, this`disk
      ensures key !in memory
      ensures r.Ok? ==> (View(), r.value) == Tiers.Remove(old(View()), key)
      ensures r.Err? ==> !reliable && disk == old(disk) && memory == old(memory) - {key}
    {
      var back := DiskRemove(key);
      var front := MemoryRemove(key);
      r := if back.Ok? then Ok(back.value || front) else back;
    }

    /** The disk alone asks `keep`, once about each live entry, and memory then keeps what the disk kept. */
    method Retain(keep: (nat, string) -> bool) returns (r: Result<int>, asked: seq<string>)
      modifies this`memory, this`disk
      ensures Lists(asked, LiveKeys(old(disk), now))
      ensures r.Ok? ==> (View(), r.value) == Tiers.Retain(old(View()), Approved(keep, asked))
      ensures r.Err? ==> !reliable && View() == old(View())
    {
      hide Lists, Approved;
      var kept;
      r, kept, asked := DiskRetain(keep);
      if r.Ok? {
        ListsAll(asked, LiveKeys(old(disk), now));
        MemoryRetain(kept);
      }
    }

    method Cleanup() returns (r: Result<()>)
      modifies this`disk
      ensures r.Ok? ==> View() == Tiers.Cleanup(old(View()))
      ensures r.Err? ==> !reliable && View() == old(View())
    {
      var fails := DiskFails();
      if fails {
        return Err(Storage);
      }
      disk := map key <- disk | Live(disk[key], now) :: disk[key];
      return Ok(());
    }
  }

  /** A value written and then read after some time, evicted from memory meanwhile or not: on a disk that works it is there
      for as long as it was asked to be, but for less than one unit of the disk's clock, and not longer. */
  method SetThenGet(store: CompositeStore, key: string, value: seq<byte>, ttl: nat, wait: nat, evicted: bool,
                    ghost whole: Contents)
    returns (r: Result<Option<Entry>>)
    requires store.c.grain > 0 && store.reliable && store.Agrees(whole)
    requires ttl > 0 && store.now + ttl <= store.c.horizon
    requires |value| <= store.c.capacity || Look(store.memory, key, store.now).None?
    modifies store
    ensures r.Ok?
    ensures wait + store.c.grain <= ttl ==>
              && r.value.Some? && r.value.value.value == value && r.value.value.remaining.Some?
              && 0 < r.value.value.remaining.value <= ttl - wait
    ensures wait >= ttl ==> r.value.None?
  {
    var c := store.c;
    ghost var s, op := store.View(), DoSet(key, value, ttl);
    var _, diskFailed := store.Set(key, value, ttl);
    ghost var t := store.View();
    store.now := store.now + wait;
    if evicted {
      store.memory := store.memory - {key};
    }
    ghost var ops := [Tick(wait)] + if evicted then [Evict(key)] else [];
    WaitsInNumbers(c, t, key, wait, evicted);
    hide Coherent;
    KeptAsLongAsAsked(c, s, whole, op, ops);
    r := store.Get(key);
  }

  lemma WaitsInNumbers(c: Config, t: Store, key: string, wait: nat, evicted: bool)
    requires c.grain > 0
    ensures var ops := [Tick(wait)] + if evicted then [Evict(key)] else [];
            && Elapsed(ops) == wait && NeverStale(c, t, ops) && (forall op <- ops :: LeavesAlone(op, key))
            && StoreAfter(c, t, ops)
               == t.(now := t.now + wait, memory := if evicted then t.memory - {key} else t.memory)
  {
    var ops := [Tick(wait)] + if evicted then [Evict(key)] else [];
    assert ops[0] == Tick(wait) && ops[1..] == if evicted then [Evict(key)] else [];
    var u := Step(c, t, ops[0]).0;
    if evicted {
      assert ops[1..][0] == Evict(key) && ops[1..][1..] == [];
      assert Elapsed(ops[1..]) == 0 + Elapsed([]);
      assert StoreAfter(c, Step(c, u, Evict(key)).0, []) == Step(c, u, Evict(key)).0;
    }
    assert StoreAfter(c, t, ops) == StoreAfter(c, u, ops[1..]);
  }
}

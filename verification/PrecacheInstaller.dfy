/** The install's variables and loops, with storage and network answering as they please. */
module PrecacheInstaller {
  import opened Basics
  import opened Precache

  /** The url is first listed at this index of the manifest. */
  ghost predicate FirstAt(resolved: seq<Option<string>>, url: string, k: nat) {
    && k < |resolved|
    && resolved[k] == Some(url)
    && (forall earlier :: 0 <= earlier < k ==> resolved[earlier] != Some(url))
  }

  /** Keep the first of each usable url, in manifest order. */
  method PrecacheEntries(resolved: seq<Option<string>>) returns (urls: seq<string>)
    ensures NoDup(urls)
    ensures forall url :: url in urls <==> Some(url) in resolved
    ensures forall i, j, a, b :: 0 <= i < j < |urls| && FirstAt(resolved, urls[i], a) && FirstAt(resolved, urls[j], b) ==>
              a < b
  {
    urls := [];
    var seen: set<string> := {};
    ghost var from: seq<nat> := [];
    for k := 0 to |resolved|
      invariant NoDup(urls) && (forall url :: url in seen <==> url in urls)
      invariant forall url :: url in urls <==> Some(url) in resolved[..k]
      invariant |from| == |urls| && forall i :: 0 <= i < |urls| ==> from[i] < k && FirstAt(resolved, urls[i], from[i])
      invariant forall i, j :: 0 <= i < j < |from| ==> from[i] < from[j]
    {
      assert resolved[..k + 1] == resolved[..k] + [resolved[k]];
      if resolved[k].Some? && resolved[k].value !in seen {
        seen := seen + {resolved[k].value};
        urls := urls + [resolved[k].value];
        from := from + [k];
      }
    }
    assert resolved[..|resolved|] == resolved;
    forall i, j, a, b | 0 <= i < j < |urls| && FirstAt(resolved, urls[i], a) && FirstAt(resolved, urls[j], b)
      ensures a < b
    {
      assert a == from[i] && b == from[j];
    }
  }

  /** The variables the slots of one install share. */
  class SlotPool {
    const manifest: Manifest
    var cache: Cache
    var nextEntry: nat
    var failed: bool
    var slots: seq<Slot>
    ghost var claims: seq<nat>

    ghost predicate Valid()
      reads this
    {
      nextEntry == |claims| && PoolInv(manifest, Abs(), cache) && AllValid(manifest, cache)
    }

    ghost function Abs(): Pool
      reads this
    {
      Pool(claims, failed, slots)
    }

    /** The slots start on a cache wiped of an earlier attempt. */
    constructor (manifest: Manifest)
      ensures Valid() && this.manifest == manifest && cache == EMPTY && Abs() == StartPool(manifest)
    {
      this.manifest, cache, nextEntry, failed := manifest, EMPTY, 0, false;
      slots := seq(SlotCount(manifest), _ => Ready);
      claims := [];
    }

    /** The loop test of a slot, and its claim of `entries[nextEntry++]`. */
    method ClaimNext(k: nat)
      requires Valid() && k < |slots| && slots[k].Ready?
      modifies this`nextEntry, this`slots, this`claims
      ensures Valid() && Abs() == Claim(manifest, old(Abs()), k)
    {
      ClaimKeeps(manifest, Abs(), k, cache);
      if !failed && nextEntry < |manifest.urls| {
        slots := slots[k := Fetching(nextEntry)];
        nextEntry := nextEntry + 1;
        claims := claims + [k];
      } else {
        slots := slots[k := Exited];
      }
    }

    method Fetched(k: nat, content: Option<nat>)
      requires Valid() && k < |slots| && slots[k].Fetching?
      modifies this`failed, this`slots
      ensures Valid() && Abs() == Fetch(manifest, old(Abs()), k, content)
    {
      FetchKeeps(manifest, Abs(), k, content, cache);
      if content.Some? && manifest.valid(manifest.urls[slots[k].entry], content.value) {
        slots := slots[k := Putting(slots[k].entry, content.value)];
      } else {
        failed, slots := true, slots[k := Ready];
      }
    }

    method PutDone(k: nat, stored: bool, ok: bool)
      requires Valid() && k < |slots| && slots[k].Putting? && (ok ==> stored)
      modifies this`cache, this`failed, this`slots
      ensures Valid() && Abs() == Finish(old(Abs()), k, ok)
      ensures cache == if stored then old(cache).(assets := old(cache).assets[manifest.urls[old(slots)[k].entry] := old(slots)[k].content]) else old(cache)
    {
      FinishKeeps(manifest, Abs(), k, stored, ok, cache);
      if stored {
        cache := cache.(assets := cache.assets[manifest.urls[slots[k].entry] := slots[k].content]);
      }
      failed, slots := failed || !ok, slots[k := Ready];
    }

    /**
      `Promise.all` over the slots: answers come in any order with any outcome, the
      drain ends, and without a failure every entry of the release has been cached.
    */
    method Drain()
      requires Valid() && OFFLINE in manifest.urls
      modifies this
      ensures Valid() && forall slot <- slots :: slot.Exited?
      ensures !failed ==> Servable(manifest, cache)
    {
      while exists slot <- slots :: !slot.Exited?
        invariant Valid()
        decreases PoolWork(manifest, Abs())
      {
        var k :| 0 <= k < |slots| && !slots[k].Exited?;
        var content: Option<nat> := *;
        var stored: bool, ok: bool := *, *;
        PoolWorkDrops(manifest, Abs(), k, content, ok && stored);
        match slots[k] {
          case Ready => ClaimNext(k);
          case Fetching(_) => Fetched(k, content);
          case Putting(_, _) => PutDone(k, stored, ok && stored);
        }
      }
      if !failed {
        DrainedPoolIsFull(manifest, Abs(), cache);
      }
    }
  }

  /** What is left of one cache after a clean-up that touched it. */
  ghost predicate Spared(storage: Storage, name: string, refused: set<string>) {
    (name in storage && HasMetadata(storage[name])) || name in refused
  }

  /** Sequential storage work: `refused` names the caches on which an operation fails. */
  class StorageSweeper {
    const world: World
    var storage: Storage

    constructor (world: World, storage: Storage)
      ensures this.world == world && this.storage == storage
    {
      this.world, this.storage := world, storage;
    }

    /**
      `cleanupIncompleteCaches` over the names storage listed. A listed name that has gone meanwhile is created
      by opening it. The loop takes the inspecting and removing steps of the install or the activation.
    */
    method CleanupIncomplete(names: seq<string>, unreadable: set<string>, refused: set<string>,
                             ghost purpose: Purpose, ghost current: string)
      returns (ghost events: seq<Event>)
      modifies this`storage
      ensures forall name :: name in storage <==>
                if name in names && world.owned(name) && name !in unreadable then Spared(old(storage), name, refused)
                else name in old(storage)
      ensures forall name <- storage :: storage[name] == Precache.Opened(old(storage), name)[name]
      ensures Leads(world, State(old(storage), NextClean(purpose, names), current), events,
                    State(storage, AfterCleanup(purpose), current))
    {
      hide Leads, Step, Enabled, HasMetadata, NextClean;
      events := [];
      NothingInNew();
      StaysPut(world, State(storage, NextClean(purpose, names), current));
      assert names[0..] == names;
      for i := 0 to |names|
        invariant forall name :: name in storage <==>
                    if name in names[..i] && world.owned(name) && name !in unreadable then Spared(old(storage), name, refused)
                    else name in old(storage)
        invariant forall name <- storage :: storage[name] == Precache.Opened(old(storage), name)[name]
        invariant Leads(world, State(old(storage), NextClean(purpose, names), current), events,
                        State(storage, NextClean(purpose, names[i..]), current))
      {
        assert names[..i + 1] == names[..i] + [names[i]];
        var name := names[i];
        ghost var before := storage;
        assert names[i..][1..] == names[i + 1..];
        if world.owned(name) && name !in unreadable {
          storage := Precache.Opened(storage, name);
          if !HasMetadata(storage[name]) && name !in refused {
            storage := storage - {name};
          }
        }
        ghost var more := CleansOne(world, before, purpose, names[i..], current, name !in unreadable, name !in refused, storage);
        LeadsFurther(world, State(old(storage), NextClean(purpose, names), current), events,
                     State(before, NextClean(purpose, names[i..]), current), more,
                     State(storage, NextClean(purpose, names[i + 1..]), current));
        events := events + more;
      }
      assert names[..|names|] == names && names[|names|..] == [];
      NothingToClean(purpose);
    }

    /**
      `retireOldPrecacheCaches`: only a complete current cache may retire the others that storage lists. The
      loop takes the retirement steps.
    */
    method RetireOld(current: string, names: seq<string>, refused: set<string>) returns (ghost events: seq<Event>)
      modifies this`storage
      ensures var start := Precache.Opened(old(storage), current);
              if Complete(start[current], current) then
                (forall name :: name in storage <==>
                   name in start && !(name in names && name != current && world.owned(name) && name !in refused)) &&
                forall name <- storage :: storage[name] == start[name]
              else storage == start
      ensures Leads(world, State(old(storage), Deciding, current), events, State(storage, Asleep, current))
    {
      hide Leads, Step, Enabled, Complete;
      events := Decides(world, storage, current, names);
      storage := Precache.Opened(storage, current);
      if !Complete(storage[current], current) {
        return;
      }
      ghost var start, from := storage, State(old(storage), Deciding, current);
      ghost var rest := Retirable(world, current, names);
      for i := 0 to |names|
        invariant forall name :: name in storage <==>
                    name in start && !(name in names[..i] && name != current && world.owned(name) && name !in refused)
        invariant forall name <- storage :: storage[name] == start[name]
        invariant forall name :: name in rest <==> name in names && name !in names[..i] && name != current && world.owned(name)
        invariant Leads(world, from, events, State(storage, Retiring(rest), current))
      {
        assert names[..i + 1] == names[..i] + [names[i]];
        var name := names[i];
        if name != current && world.owned(name) {
          ghost var before := storage;
          if name !in refused {
            storage := storage - {name};
          }
          assert name !in rest ==> storage == before;
          events := RetiresOne(world, from, events, before, rest, current, name, name !in refused, storage);
          rest := rest - {name};
        }
      }
      assert names[..|names|] == names && rest == {};
      events := RetirementIsOver(world, from, events, State(storage, Retiring(rest), current));
    }
  }

  ghost function Retirable(w: World, current: string, names: seq<string>): set<string> {
    set name | name in names && name != current && w.owned(name)
  }

  lemma Decides(w: World, storage: Storage, current: string, names: seq<string>) returns (es: seq<Event>)
    ensures var start := Precache.Opened(storage, current);
            Leads(w, State(storage, Deciding, current), es,
                  State(start, if Complete(start[current], current) then Retiring(Retirable(w, current, names)) else Asleep, current))
  {
    hide Leads, Complete;
    var all := set name | name in names;
    es := [Decided(true, all)];
    LeadsByOne(w, State(storage, Deciding, current), es[0]);
    assert (set name | name in all && name != current && w.owned(name)) == Retirable(w, current, names);
  }

  lemma RetiresOne(w: World, from: State, events: seq<Event>, before: Storage, rest: set<string>, current: string, name: string,
                   removable: bool, after: Storage) returns (es: seq<Event>)
    requires Leads(w, from, events, State(before, Retiring(rest), current))
    requires after == (if removable then before - {name} else before) && (name in rest || after == before)
    ensures Leads(w, from, es, State(after, Retiring(rest - {name}), current))
  {
    hide Leads;
    if name in rest {
      var s := State(before, Retiring(rest), current);
      LeadsByOne(w, s, Retired(name, removable));
      LeadsFurther(w, from, events, s, [Retired(name, removable)], Step(w, s, Retired(name, removable)));
      es := events + [Retired(name, removable)];
    } else {
      es := events;
      assert rest - {name} == rest;
    }
  }

  lemma RetirementIsOver(w: World, from: State, events: seq<Event>, s: State) returns (es: seq<Event>)
    requires Leads(w, from, events, s) && s.phase == Retiring({})
    ensures Leads(w, from, es, s.(phase := Asleep))
  {
    hide Leads;
    LeadsByOne(w, s, RetirementEnded);
    LeadsFurther(w, from, events, s, [RetirementEnded], Step(w, s, RetirementEnded));
    es := events + [RetirementEnded];
  }

  lemma NothingInNew()
    ensures !HasMetadata(EMPTY)
  {
  }

  lemma NothingToClean(purpose: Purpose)
    ensures NextClean(purpose, []) == AfterCleanup(purpose)
  {
  }

  lemma StaysPut(w: World, s: State)
    ensures Leads(w, s, [], s)
  {
  }

  /** One turn of the clean-up loop, as steps. */
  lemma CleansOne(w: World, before: Storage, purpose: Purpose, names: seq<string>, current: string,
                  readable: bool, removable: bool, after: Storage) returns (es: seq<Event>)
    requires names != []
    requires var start := Precache.Opened(before, names[0]);
             after == if !w.owned(names[0]) || !readable then before
                      else if HasMetadata(start[names[0]]) || !removable then start
                      else start - {names[0]}
    ensures Leads(w, State(before, NextClean(purpose, names), current), es, State(after, NextClean(purpose, names[1..]), current))
  {
    hide Leads, HasMetadata;
    var s := State(before, Cleaning(purpose, names), current);
    var first := Inspected(readable);
    LeadsByOne(w, s, first);
    var t := Step(w, s, first);
    es := [first];
    if t.phase == Removing(purpose, names) {
      LeadsByOne(w, t, Removed(removable));
      LeadsFurther(w, s, es, t, [Removed(removable)], Step(w, t, Removed(removable)));
      es := es + [Removed(removable)];
    }
  }
}

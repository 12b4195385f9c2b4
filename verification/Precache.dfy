/**
  The precache install of the service worker, one storage operation per step, with a
  crash allowed between any two steps. A cache name carries the digest of its release,
  so it determines the release's manifest.
*/
module Precache {
  import opened Basics

  /** Distinct asset urls in manifest order, and which fetched contents pass every check. */
  datatype Manifest = Manifest(urls: seq<string>, valid: (string, nat) -> bool)

  datatype World = World(manifest: string -> Manifest, owned: string -> bool)

  /** A marker is the JSON stored at a release's marker url: the cache it names, or unreadable. */
  datatype Mark = Names(name: string) | Unreadable

  datatype Cache = Cache(assets: map<string, nat>, markers: map<string, Mark>)

  type Storage = map<string, Cache>

  const OFFLINE := "/_offline"
  const EMPTY := Cache(map[], map[])

  /** `completeCache`: the release's own marker, naming this very cache. */
  predicate Complete(c: Cache, name: string) {
    name in c.markers && c.markers[name] == Names(name)
  }

  /** `completionMetadata`: some readable marker, of whatever release. */
  predicate HasMetadata(c: Cache) {
    exists key <- c.markers :: c.markers[key].Names?
  }

  datatype Slot = Ready | Fetching(entry: nat) | Putting(entry: nat, content: nat) | Exited

  /** `claims[i]` is the slot that took entry `i`; `nextEntry` is `|claims|`. */
  datatype Pool = Pool(claims: seq<nat>, failed: bool, slots: seq<Slot>)

  datatype Purpose = Installing | Activating

  datatype Phase =
    | Asleep
    | Listing(purpose: Purpose)
    | Cleaning(purpose: Purpose, names: seq<string>)
    | Removing(purpose: Purpose, names: seq<string>)   // the head was found without metadata
    | Checking
    | Wiping
    | Filling(pool: Pool)
    | Verifying(count: nat)                            // the first `count` urls were found again
    | Marking
    | Confirming
    | Undoing
    | Deciding
    | Retiring(rest: set<string>)

  datatype State = State(storage: Storage, phase: Phase, name: string)

  datatype Event =
    | Crashed
    | Begun(name: string, purpose: Purpose)
    | Listed(names: Option<seq<string>>)
    | Inspected(ok: bool)
    | Removed(ok: bool)
    | Checked(ok: bool)
    | WipedAsset(url: string)
    | WipedMarker(key: string)
    | Wiped(ok: bool)
    | Claimed(slot: nat)
    | Fetched(slot: nat, content: Option<nat>)
    | Put(slot: nat, stored: bool, ok: bool)
    | Drained
    | Reread(ok: bool)
    | Marked(stored: bool, ok: bool)
    | Confirmed(ok: bool)
    | Undone(ok: bool)
    | Decided(ok: bool, all: set<string>)
    | Retired(name: string, ok: bool)
    | RetirementEnded

  // ----- storage operations

  /** `caches.open` creates a missing cache. */
  function Opened(storage: Storage, name: string): Storage {
    if name in storage then storage else storage[name := EMPTY]
  }

  function Deleted(storage: Storage, name: string): Storage {
    storage - {name}
  }

  function SlotCount(m: Manifest): nat {
    if |m.urls| < 6 then |m.urls| else 6
  }

  function StartPool(m: Manifest): Pool {
    Pool([], false, seq(SlotCount(m), _ => Ready))
  }

  /** The head of the slot loop. */
  function Claim(m: Manifest, p: Pool, k: nat): Pool
    requires k < |p.slots|
  {
    if !p.failed && |p.claims| < |m.urls|
    then p.(claims := p.claims + [k], slots := p.slots[k := Fetching(|p.claims|)])
    else p.(slots := p.slots[k := Exited])
  }

  function Fetch(m: Manifest, p: Pool, k: nat, content: Option<nat>): Pool
    requires k < |p.slots| && p.slots[k].Fetching? && p.slots[k].entry < |m.urls|
  {
    if content.Some? && m.valid(m.urls[p.slots[k].entry], content.value)
    then p.(slots := p.slots[k := Putting(p.slots[k].entry, content.value)])
    else p.(failed := true, slots := p.slots[k := Ready])
  }

  function Finish(p: Pool, k: nat, ok: bool): Pool
    requires k < |p.slots|
  {
    p.(failed := p.failed || !ok, slots := p.slots[k := Ready])
  }

  function AfterCleanup(purpose: Purpose): Phase {
    if purpose.Installing? then Checking else Deciding
  }

  function NextClean(purpose: Purpose, names: seq<string>): Phase {
    if names == [] then AfterCleanup(purpose) else Cleaning(purpose, names)
  }

  // ----- one step

  ghost predicate Enabled(w: World, s: State, e: Event) {
    var m := w.manifest(s.name);
    match e
    case Crashed => true
    case Begun(name, _) => s.phase.Asleep? && w.owned(name)
    case Listed(_) => s.phase.Listing?
    case Inspected(_) => s.phase.Cleaning? && s.phase.names != []
    case Removed(_) => s.phase.Removing? && s.phase.names != []
    case Checked(_) => s.phase.Checking?
    case WipedAsset(url) => s.phase.Wiping? && s.name in s.storage && url in s.storage[s.name].assets
    case WipedMarker(key) => s.phase.Wiping? && s.name in s.storage && key in s.storage[s.name].markers
    case Wiped(ok) => s.phase.Wiping? && (ok ==> s.name in s.storage && s.storage[s.name] == EMPTY)
    case Claimed(k) => s.phase.Filling? && k < |s.phase.pool.slots| && s.phase.pool.slots[k].Ready?
    case Fetched(k, _) =>
      s.phase.Filling? && k < |s.phase.pool.slots| && s.phase.pool.slots[k].Fetching? &&
      s.phase.pool.slots[k].entry < |m.urls|
    case Put(k, stored, ok) =>
      s.phase.Filling? && k < |s.phase.pool.slots| && s.phase.pool.slots[k].Putting? &&
      s.phase.pool.slots[k].entry < |m.urls| && s.name in s.storage && (ok ==> stored)
    case Drained => s.phase.Filling? && forall slot <- s.phase.pool.slots :: slot.Exited?
    case Reread(_) => s.phase.Verifying? && s.phase.count <= |m.urls| && s.name in s.storage
    case Marked(stored, ok) => s.phase.Marking? && s.name in s.storage && (ok ==> stored)
    case Confirmed(_) => s.phase.Confirming? && s.name in s.storage
    case Undone(_) => s.phase.Undoing?
    case Decided(_, _) => s.phase.Deciding?
    case Retired(name, _) => s.phase.Retiring? && name in s.phase.rest
    case RetirementEnded => s.phase.Retiring? && s.phase.rest == {}
  }

  function SetCache(s: State, c: Cache): State {
    s.(storage := s.storage[s.name := c])
  }

  ghost function Step(w: World, s: State, e: Event): State
    requires Enabled(w, s, e)
  {
    var m := w.manifest(s.name);
    match e
    case Crashed => s.(phase := Asleep)
    case Begun(name, purpose) =>
      if purpose.Installing? && OFFLINE !in w.manifest(name).urls then s
      else s.(name := name, phase := Listing(purpose))
    case Listed(names) =>
      s.(phase := if names.None? then AfterCleanup(s.phase.purpose) else NextClean(s.phase.purpose, names.value))
    case Inspected(ok) =>
      var head, rest := s.phase.names[0], s.phase.names[1..];
      if !w.owned(head) || !ok then s.(phase := NextClean(s.phase.purpose, rest))
      else
        var storage := Opened(s.storage, head);
        if HasMetadata(storage[head]) then s.(storage := storage, phase := NextClean(s.phase.purpose, rest))
        else s.(storage := storage, phase := Removing(s.phase.purpose, s.phase.names))
    case Removed(ok) =>
      s.(storage := if ok then Deleted(s.storage, s.phase.names[0]) else s.storage,
         phase := NextClean(s.phase.purpose, s.phase.names[1..]))
    case Checked(ok) =>
      var storage := Opened(s.storage, s.name);
      if !ok then s.(phase := Asleep)
      else if Complete(storage[s.name], s.name) then s.(storage := storage, phase := Asleep)
      else s.(storage := storage, phase := Wiping)
    case WipedAsset(url) => SetCache(s, s.storage[s.name].(assets := s.storage[s.name].assets - {url}))
    case WipedMarker(key) => SetCache(s, s.storage[s.name].(markers := s.storage[s.name].markers - {key}))
    case Wiped(ok) => s.(phase := if ok then Filling(StartPool(m)) else Undoing)
    case Claimed(k) => s.(phase := Filling(Claim(m, s.phase.pool, k)))
    case Fetched(k, content) => s.(phase := Filling(Fetch(m, s.phase.pool, k, content)))
    case Put(k, stored, ok) =>
      var slot := s.phase.pool.slots[k];
      var t := if stored then SetCache(s, s.storage[s.name].(assets := s.storage[s.name].assets[m.urls[slot.entry] := slot.content])) else s;
      t.(phase := Filling(Finish(s.phase.pool, k, ok)))
    case Drained => s.(phase := if s.phase.pool.failed then Undoing else Verifying(0))
    case Reread(ok) =>
      if s.phase.count == |m.urls| then s.(phase := Marking)
      else if ok && m.urls[s.phase.count] in s.storage[s.name].assets then s.(phase := Verifying(s.phase.count + 1))
      else s.(phase := Undoing)
    case Marked(stored, ok) =>
      var t := if stored then SetCache(s, s.storage[s.name].(markers := s.storage[s.name].markers[s.name := Names(s.name)])) else s;
      t.(phase := if ok then Confirming else Undoing)
    case Confirmed(ok) =>
      s.(phase := if ok && Complete(s.storage[s.name], s.name) then Asleep else Undoing)
    case Undone(ok) => s.(storage := if ok then Deleted(s.storage, s.name) else s.storage, phase := Asleep)
    case Decided(ok, all) =>
      if !ok then s.(phase := Asleep)
      else
        var storage := Opened(s.storage, s.name);
        if !Complete(storage[s.name], s.name) then s.(storage := storage, phase := Asleep)
        else s.(storage := storage, phase := Retiring(set name | name in all && name != s.name && w.owned(name)))
    case Retired(name, ok) =>
      s.(storage := if ok then Deleted(s.storage, name) else s.storage, phase := Retiring(s.phase.rest - {name}))
    case RetirementEnded => s.(phase := Asleep)
  }

  // ----- invariants

  /** Every url of the release is cached, with a content that passed validation. */
  ghost predicate Servable(m: Manifest, c: Cache) {
    forall url <- m.urls :: url in c.assets && m.valid(url, c.assets[url])
  }

  /** A completion marker is evidence of a servable cache. */
  ghost predicate MarkersTrue(w: World, storage: Storage) {
    forall name <- storage :: Complete(storage[name], name) ==> Servable(w.manifest(name), storage[name])
  }

  /** Everything cached so far passed validation. */
  ghost predicate AllValid(m: Manifest, c: Cache) {
    forall url <- c.assets :: m.valid(url, c.assets[url])
  }

  predicate Holds(slot: Slot, i: nat) {
    (slot.Fetching? || slot.Putting?) && slot.entry == i
  }

  /** Each claimed entry is with the slot that claimed it, or cached, or the pool has failed. */
  ghost predicate PoolInv(m: Manifest, p: Pool, c: Cache) {
    |p.slots| == SlotCount(m) && |p.claims| <= |m.urls| &&
    (forall i :: 0 <= i < |p.claims| ==> p.claims[i] < |p.slots|) &&
    (forall k :: 0 <= k < |p.slots| && (p.slots[k].Fetching? || p.slots[k].Putting?) ==>
       p.slots[k].entry < |p.claims| && p.claims[p.slots[k].entry] == k) &&
    (forall k :: 0 <= k < |p.slots| && p.slots[k].Putting? ==> m.valid(m.urls[p.slots[k].entry], p.slots[k].content)) &&
    (forall i :: 0 <= i < |p.claims| ==>
       Holds(p.slots[p.claims[i]], i) || m.urls[i] in c.assets || p.failed) &&
    (forall k :: 0 <= k < |p.slots| && p.slots[k].Exited? ==> p.failed || |p.claims| == |m.urls|)
  }

  ghost predicate PhaseInv(w: World, s: State) {
    var m := w.manifest(s.name);
    match s.phase
    case Removing(_, names) => names != [] && names[0] in s.storage && !HasMetadata(s.storage[names[0]])
    case Wiping => s.name in s.storage && !Complete(s.storage[s.name], s.name)
    case Filling(pool) =>
      s.name in s.storage && s.storage[s.name].markers == map[] && OFFLINE in m.urls &&
      AllValid(m, s.storage[s.name]) && PoolInv(m, pool, s.storage[s.name])
    case Verifying(count) =>
      s.name in s.storage && s.storage[s.name].markers == map[] && AllValid(m, s.storage[s.name]) &&
      count <= |m.urls| && forall url <- m.urls :: url in s.storage[s.name].assets
    case Marking =>
      s.name in s.storage && s.storage[s.name].markers == map[] && Servable(m, s.storage[s.name])
    case Confirming =>
      s.name in s.storage && Complete(s.storage[s.name], s.name) && Servable(m, s.storage[s.name])
    case Retiring(names) => s.name in s.storage && Complete(s.storage[s.name], s.name) && s.name !in names
    case _ => true
  }

  predicate Preparing(p: Phase) {
    p.Checking? || p.Wiping? ||
    ((p.Listing? || p.Cleaning? || p.Removing?) && p.purpose.Installing?)
  }

  ghost predicate NeedsOffline(w: World, s: State) {
    Preparing(s.phase) ==> OFFLINE in w.manifest(s.name).urls
  }

  ghost predicate Inv(w: World, s: State) {
    MarkersTrue(w, s.storage) && PhaseInv(w, s) && NeedsOffline(w, s) && (s.phase != Asleep ==> w.owned(s.name))
  }

  lemma StartPoolInv(m: Manifest)
    ensures PoolInv(m, StartPool(m), EMPTY)
  {
  }

  lemma ClaimKeeps(m: Manifest, p: Pool, k: nat, c: Cache)
    requires PoolInv(m, p, c) && k < |p.slots| && p.slots[k].Ready?
    ensures PoolInv(m, Claim(m, p, k), c)
  {
  }

  lemma FetchKeeps(m: Manifest, p: Pool, k: nat, content: Option<nat>, c: Cache)
    requires PoolInv(m, p, c) && k < |p.slots| && p.slots[k].Fetching?
    ensures PoolInv(m, Fetch(m, p, k, content), c)
  {
  }

  lemma FinishKeeps(m: Manifest, p: Pool, k: nat, stored: bool, ok: bool, c: Cache)
    requires PoolInv(m, p, c) && k < |p.slots| && p.slots[k].Putting? && (ok ==> stored)
    ensures var d := if stored then c.(assets := c.assets[m.urls[p.slots[k].entry] := p.slots[k].content]) else c;
            PoolInv(m, Finish(p, k, ok), d) && (AllValid(m, c) ==> AllValid(m, d))
  {
  }

  /** When every slot has left the loop without a failure, every entry has been cached. */
  lemma DrainedPoolIsFull(m: Manifest, p: Pool, c: Cache)
    requires PoolInv(m, p, c) && OFFLINE in m.urls && !p.failed && forall slot <- p.slots :: slot.Exited?
    ensures forall url <- m.urls :: url in c.assets
  {
    assert p.slots[0].Exited?;
    forall i | 0 <= i < |m.urls| ensures m.urls[i] in c.assets {
      assert p.slots[p.claims[i]] in p.slots;
    }
  }

  lemma PoolStepKeepsInv(w: World, s: State, e: Event)
    requires Inv(w, s) && Enabled(w, s, e)
    requires e.Claimed? || e.Fetched? || e.Put? || e.Drained?
    ensures Inv(w, Step(w, s, e))
  {
    hide PoolInv, Complete, Claim, Fetch, Finish;
    var m, c := w.manifest(s.name), s.storage[s.name];
    match e {
      case Claimed(k) => ClaimKeeps(m, s.phase.pool, k, c);
      case Fetched(k, content) => FetchKeeps(m, s.phase.pool, k, content, c);
      case Put(k, stored, ok) => PutKeepsInv(w, s, k, stored, ok);
      case Drained => if !s.phase.pool.failed { DrainedPoolIsFull(m, s.phase.pool, c); }
    }
  }

  lemma PutKeepsInv(w: World, s: State, k: nat, stored: bool, ok: bool)
    requires Inv(w, s) && Enabled(w, s, Put(k, stored, ok))
    ensures Inv(w, Step(w, s, Put(k, stored, ok)))
  {
    hide PoolInv, Finish;
    FinishKeeps(w.manifest(s.name), s.phase.pool, k, stored, ok, s.storage[s.name]);
  }

  lemma CleanStepKeepsInv(w: World, s: State, e: Event)
    requires Inv(w, s) && Enabled(w, s, e)
    requires e.Crashed? || e.Begun? || e.Listed? || e.Inspected? || e.Removed? || e.Checked?
    ensures Inv(w, Step(w, s, e))
  {
    hide PoolInv, AllValid;
  }

  lemma WipeStepKeepsInv(w: World, s: State, e: Event)
    requires Inv(w, s) && Enabled(w, s, e)
    requires e.WipedAsset? || e.WipedMarker? || e.Wiped?
    ensures Inv(w, Step(w, s, e))
  {
    hide PoolInv;
    StartPoolInv(w.manifest(s.name));
  }

  lemma MarkStepKeepsInv(w: World, s: State, e: Event)
    requires Inv(w, s) && Enabled(w, s, e)
    requires e.Reread? || e.Marked? || e.Confirmed? || e.Undone?
    ensures Inv(w, Step(w, s, e))
  {
    hide PoolInv;
  }

  lemma RetireStepKeepsInv(w: World, s: State, e: Event)
    requires Inv(w, s) && Enabled(w, s, e)
    requires e.Decided? || e.Retired? || e.RetirementEnded?
    ensures Inv(w, Step(w, s, e))
  {
    hide PoolInv, AllValid;
  }

  lemma StepKeepsInv(w: World, s: State, e: Event)
    requires Inv(w, s) && Enabled(w, s, e)
    ensures Inv(w, Step(w, s, e))
  {
    hide Inv, Enabled, Step;
    if e.Claimed? || e.Fetched? || e.Put? || e.Drained? {
      PoolStepKeepsInv(w, s, e);
    } else if e.WipedAsset? || e.WipedMarker? || e.Wiped? {
      WipeStepKeepsInv(w, s, e);
    } else if e.Reread? || e.Marked? || e.Confirmed? || e.Undone? {
      MarkStepKeepsInv(w, s, e);
    } else if e.Decided? || e.Retired? || e.RetirementEnded? {
      RetireStepKeepsInv(w, s, e);
    } else {
      CleanStepKeepsInv(w, s, e);
    }
  }

  // ----- whole runs, across crashes and releases

  ghost predicate Behaviour(w: World, ss: seq<State>, es: seq<Event>) {
    |ss| == |es| + 1 && ss[0].storage == map[] && ss[0].phase == Asleep &&
    forall k :: 0 <= k < |es| ==> Follows(w, ss, es, k)
  }

  ghost predicate Follows(w: World, ss: seq<State>, es: seq<Event>, k: nat)
    requires k < |es| && k + 1 < |ss|
  {
    Enabled(w, ss[k], es[k]) && ss[k + 1] == Step(w, ss[k], es[k])
  }

  lemma {:induction false} AlwaysSound(w: World, ss: seq<State>, es: seq<Event>, k: nat)
    requires Behaviour(w, ss, es) && k < |ss|
    ensures Inv(w, ss[k])
  {
    hide Step, Enabled;
    if k > 0 {
      AlwaysSound(w, ss, es, k - 1);
      assert Follows(w, ss, es, k - 1);
      StepKeepsInv(w, ss[k - 1], es[k - 1]);
    }
  }

  /** A stretch of a run: each event is enabled, and the last step ends in `t`. */
  ghost predicate Leads(w: World, s: State, es: seq<Event>, t: State)
    decreases |es|
  {
    if es == [] then s == t else Enabled(w, s, es[0]) && Leads(w, Step(w, s, es[0]), es[1..], t)
  }

  lemma {:induction false} LeadsFurther(w: World, s: State, es: seq<Event>, t: State, more: seq<Event>, u: State)
    requires Leads(w, s, es, t) && Leads(w, t, more, u)
    ensures Leads(w, s, es + more, u)
    decreases |es|
  {
    hide Step, Enabled;
    if es == [] {
      assert es + more == more;
    } else {
      LeadsFurther(w, Step(w, s, es[0]), es[1..], t, more, u);
      assert (es + more)[1..] == es[1..] + more;
    }
  }

  lemma LeadsByOne(w: World, s: State, e: Event)
    requires Enabled(w, s, e)
    ensures Leads(w, s, [e], Step(w, s, e))
  {
    hide Step, Enabled;
    assert [e][1..] == [];
  }

  lemma {:induction false} LeadsKeepsInv(w: World, s: State, es: seq<Event>, t: State)
    requires Inv(w, s) && Leads(w, s, es, t)
    ensures Inv(w, t)
    decreases |es|
  {
    hide Step, Enabled, Inv;
    if es != [] {
      StepKeepsInv(w, s, es[0]);
      LeadsKeepsInv(w, Step(w, s, es[0]), es[1..], t);
    }
  }

  /** What a stretch reaches, a run reaches. */
  lemma {:induction false} LeadsIsRun(w: World, ss: seq<State>, before: seq<Event>, es: seq<Event>, t: State)
      returns (all: seq<State>)
    requires Behaviour(w, ss, before) && Leads(w, ss[|before|], es, t)
    ensures Behaviour(w, all, before + es) && all[|before + es|] == t && ss == all[..|ss|]
    decreases |es|
  {
    hide Step, Enabled;
    if es == [] {
      all := ss;
      assert before + es == before;
    } else {
      var next := ss + [Step(w, ss[|before|], es[0])];
      var longer := before + [es[0]];
      forall k | 0 <= k < |longer| ensures Follows(w, next, longer, k) {
        if k < |before| { assert Follows(w, ss, before, k); }
      }
      all := LeadsIsRun(w, next, longer, es[1..], t);
      assert longer + es[1..] == before + es;
    }
  }

  /** At every step of every run a completion marker means a full, validated release. */
  lemma MarkerMeansServable(w: World, ss: seq<State>, es: seq<Event>, k: nat, name: string)
    requires Behaviour(w, ss, es) && k < |ss|
    requires name in ss[k].storage && Complete(ss[k].storage[name], name)
    ensures forall url <- w.manifest(name).urls ::
              url in ss[k].storage[name].assets && w.manifest(name).valid(url, ss[k].storage[name].assets[url])
  {
    hide Step, Enabled, PhaseInv, NeedsOffline;
    AlwaysSound(w, ss, es, k);
  }

  /** Complete, and not about to be taken back by the install that is marking it. */
  ghost predicate Published(s: State, name: string) {
    name in s.storage && Complete(s.storage[name], name) &&
    !((s.phase.Confirming? || s.phase.Undoing?) && name == s.name)
  }

  ghost predicate SomePublished(w: World, s: State) {
    exists name :: w.owned(name) && Published(s, name)
  }

  /** A cache with its own marker also has metadata, so clean-up keeps it. */
  lemma CompleteHasMetadata(c: Cache, name: string)
    requires Complete(c, name)
    ensures HasMetadata(c)
  {
    assert c.markers[name].Names?;
  }

  lemma StepKeepsPublished(w: World, s: State, e: Event, name: string)
    requires Inv(w, s) && Enabled(w, s, e) && Published(s, name)
    ensures Published(Step(w, s, e), name) || (e.Retired? && Published(Step(w, s, e), s.name))
  {
    hide PoolInv, AllValid, Servable, Claim, Fetch, Finish, MarkersTrue, NeedsOffline;
    CompleteHasMetadata(s.storage[name], name);
  }

  /** Once some complete owned cache exists, install, clean-up, retirement and crashes always leave one. */
  lemma {:induction false} OnceCompleteAlwaysComplete(w: World, ss: seq<State>, es: seq<Event>, j: nat, k: nat)
    requires Behaviour(w, ss, es) && j <= k < |ss| && SomePublished(w, ss[j])
    ensures SomePublished(w, ss[k])
  {
    hide Step, Enabled, Published;
    if j < k {
      OnceCompleteAlwaysComplete(w, ss, es, j, k - 1);
      AlwaysSound(w, ss, es, k - 1);
      assert Follows(w, ss, es, k - 1);
      var name :| w.owned(name) && Published(ss[k - 1], name);
      StepKeepsPublished(w, ss[k - 1], es[k - 1], name);
      if !Published(ss[k], name) {
        OwnerOfRetirement(w, ss[k - 1], es[k - 1]);
      }
    }
  }

  // ----- when a complete cache is lost

  ghost predicate IsComplete(s: State, name: string) {
    name in s.storage && Complete(s.storage[name], name)
  }

  ghost predicate SomeComplete(w: World, s: State) {
    exists name :: w.owned(name) && IsComplete(s, name)
  }

  /** A complete cache goes exactly when its own install takes it back, or when a complete one retires it. */
  lemma LostExactlyWhen(w: World, s: State, e: Event, name: string)
    requires Inv(w, s) && Enabled(w, s, e) && IsComplete(s, name)
    ensures !IsComplete(Step(w, s, e), name) <==>
              (e == Undone(true) && name == s.name) || e == Retired(name, true)
    ensures e.Retired? ==> IsComplete(s, s.name) && IsComplete(Step(w, s, e), s.name) && e.name != s.name && w.owned(s.name)
  {
    hide PoolInv, AllValid, Servable, Claim, Fetch, Finish, MarkersTrue, NeedsOffline;
    CompleteHasMetadata(s.storage[name], name);
  }

  /** The last complete cache goes exactly when the install that has just marked it takes it back. */
  lemma LastLostExactlyWhen(w: World, s: State, e: Event)
    requires Inv(w, s) && Enabled(w, s, e) && SomeComplete(w, s)
    ensures !SomeComplete(w, Step(w, s, e)) <==>
              e == Undone(true) && forall name :: w.owned(name) && IsComplete(s, name) ==> name == s.name
  {
    hide Inv, Enabled, Step, IsComplete;
    forall name | w.owned(name) && IsComplete(s, name)
      ensures !IsComplete(Step(w, s, e), name) <==> (e == Undone(true) && name == s.name) || e == Retired(name, true)
    {
      LostExactlyWhen(w, s, e, name);
    }
    var name :| w.owned(name) && IsComplete(s, name);
    LostExactlyWhen(w, s, e, name);
    if e == Undone(true) { UndoneAddsNothing(w, s); }
  }

  lemma UndoneAddsNothing(w: World, s: State)
    requires Enabled(w, s, Undone(true))
    ensures forall name :: IsComplete(Step(w, s, Undone(true)), name) ==> IsComplete(s, name) && name != s.name
  {
  }

  /** Over a run: where there was a complete cache and now is none, an install has taken back the last one. */
  lemma {:induction false} OnlyUndoingLosesAll(w: World, ss: seq<State>, es: seq<Event>, j: nat, k: nat)
    requires Behaviour(w, ss, es) && j <= k < |ss| && SomeComplete(w, ss[j]) && !SomeComplete(w, ss[k])
    ensures exists i :: j <= i < k && es[i] == Undone(true) && IsComplete(ss[i], ss[i].name) &&
                        forall name :: w.owned(name) && IsComplete(ss[i], name) ==> name == ss[i].name
  {
    hide Step, Enabled, IsComplete, SomeComplete, Inv;
    if SomeComplete(w, ss[k - 1]) {
      AlwaysSound(w, ss, es, k - 1);
      assert Follows(w, ss, es, k - 1);
      LastLostExactlyWhen(w, ss[k - 1], es[k - 1]);
      OnlyOneIsOwn(w, ss[k - 1]);
    } else {
      OnlyUndoingLosesAll(w, ss, es, j, k - 1);
    }
  }

  lemma OnlyOneIsOwn(w: World, s: State)
    requires SomeComplete(w, s) && forall name :: w.owned(name) && IsComplete(s, name) ==> name == s.name
    ensures IsComplete(s, s.name)
  {
    hide IsComplete;
  }

  lemma OwnerOfRetirement(w: World, s: State, e: Event)
    requires Inv(w, s) && Enabled(w, s, e) && e.Retired?
    ensures w.owned(s.name)
  {
  }

  /** A confirmed install publishes its own cache. */
  lemma ConfirmationPublishes(w: World, ss: seq<State>, es: seq<Event>, k: nat)
    requires Behaviour(w, ss, es) && k < |es| && es[k] == Confirmed(true)
    ensures Published(ss[k + 1], ss[k].name) && ss[k + 1].phase == Asleep
  {
    AlwaysSound(w, ss, es, k);
    assert Follows(w, ss, es, k);
  }

  /** No two slots ever work on the same manifest entry, and none repeats an earlier one. */
  lemma OneSlotPerEntry(w: World, ss: seq<State>, es: seq<Event>, k: nat, a: nat, b: nat)
    requires Behaviour(w, ss, es) && k < |ss| && ss[k].phase.Filling?
    requires a < |ss[k].phase.pool.slots| && b < |ss[k].phase.pool.slots| && a != b
    ensures |ss[k].phase.pool.slots| <= 6 && |ss[k].phase.pool.claims| <= |w.manifest(ss[k].name).urls|
    ensures forall i: nat :: Holds(ss[k].phase.pool.slots[a], i) ==>
              0 <= i < |ss[k].phase.pool.claims| && ss[k].phase.pool.claims[i] == a && !Holds(ss[k].phase.pool.slots[b], i)
  {
    hide AllValid, MarkersTrue, NeedsOffline;
    AlwaysSound(w, ss, es, k);
  }

  /** Assets are written by a slot's put and nothing else: no write outlives the drain. */
  lemma OnlySlotsWrite(w: World, s: State, e: Event, name: string, url: string)
    requires Enabled(w, s, e) && name in Step(w, s, e).storage && url in Step(w, s, e).storage[name].assets
    requires name !in s.storage || url !in s.storage[name].assets ||
             s.storage[name].assets[url] != Step(w, s, e).storage[name].assets[url]
    ensures e.Put? && s.phase.Filling? && name == s.name && s.phase.pool.slots[e.slot].Putting?
    ensures exists slot <- s.phase.pool.slots :: !slot.Exited?
  {
    hide Claim, Fetch, Finish, HasMetadata, Complete;
    if e.Put? { assert s.phase.pool.slots[e.slot] in s.phase.pool.slots; }
  }

  /** The closure test after the pool can only fail when the store loses what it stored. */
  lemma ClosureTestSucceeds(w: World, ss: seq<State>, es: seq<Event>, k: nat)
    requires Behaviour(w, ss, es) && k < |es| && es[k] == Reread(true)
    ensures ss[k + 1].phase.Verifying? || ss[k + 1].phase.Marking?
  {
    AlwaysSound(w, ss, es, k);
    assert Follows(w, ss, es, k);
  }

  // ----- the pool always drains

  function SlotWeight(slot: Slot): nat {
    match slot case Ready => 1 case Fetching(_) => 3 case Putting(_, _) => 2 case Exited => 0
  }

  function Weight(slots: seq<Slot>): nat {
    if slots == [] then 0 else Weight(slots[..|slots| - 1]) + SlotWeight(slots[|slots| - 1])
  }

  lemma {:induction false} WeightOfUpdate(slots: seq<Slot>, k: nat, slot: Slot)
    requires k < |slots|
    ensures Weight(slots[k := slot]) == Weight(slots) - SlotWeight(slots[k]) + SlotWeight(slot)
  {
    var last := |slots| - 1;
    if k == last {
      assert slots[k := slot][..last] == slots[..last];
    } else {
      assert slots[k := slot][..last] == slots[..last][k := slot];
      WeightOfUpdate(slots[..last], k, slot);
    }
  }

  function PoolWork(m: Manifest, p: Pool): int {
    Weight(p.slots) + 3 * (|m.urls| - |p.claims|)
  }

  /** Whatever the network and the store answer, each answer brings the drain closer. */
  lemma PoolWorkDrops(m: Manifest, p: Pool, k: nat, content: Option<nat>, ok: bool)
    requires k < |p.slots| && |p.claims| <= |m.urls|
    ensures p.slots[k].Ready? ==> PoolWork(m, Claim(m, p, k)) == PoolWork(m, p) - 1
    ensures p.slots[k].Fetching? && p.slots[k].entry < |m.urls| ==> PoolWork(m, Fetch(m, p, k, content)) < PoolWork(m, p)
    ensures p.slots[k].Putting? ==> PoolWork(m, Finish(p, k, ok)) == PoolWork(m, p) - 1
  {
    WeightOfUpdate(p.slots, k, Fetching(|p.claims|));
    WeightOfUpdate(p.slots, k, Exited);
    WeightOfUpdate(p.slots, k, Ready);
    if p.slots[k].Fetching? && content.Some? { WeightOfUpdate(p.slots, k, Putting(p.slots[k].entry, content.value)); }
  }
}

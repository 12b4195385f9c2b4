/**
  How an install, a clean-up and a retirement go on from one storage operation to
  the next, told for every reachable state: where each phase is entered, which
  caches appear, change and go, and how an install can be over.
*/
module PrecacheChanges {
  import opened Basics
  import opened Precache

  // ----- what a cache says of itself

  /** The cache holds the marker of its own release, which names this very cache. */
  ghost predicate MarkedComplete(s: State, name: string) {
    name in s.storage && name in s.storage[name].markers && s.storage[name].markers[name] == Names(name)
  }

  /** No marker of the cache can be read. */
  ghost predicate Bare(c: Cache) {
    forall key <- c.markers :: c.markers[key].Unreadable?
  }

  lemma BareIsUnread(c: Cache)
    ensures Bare(c) <==> !HasMetadata(c)
  {
  }

  lemma NothingToRead()
    ensures !HasMetadata(EMPTY)
  {
  }

  // ----- how an install ends

  /** The install has begun to empty its cache and is not over. */
  predicate Underway(p: Phase) {
    p.Wiping? || p.Filling? || p.Verifying? || p.Marking? || p.Confirming? || p.Undoing?
  }

  /** What went wrong, in the order of the install's own steps. */
  ghost predicate Fails(w: World, s: State, e: Event) {
    || e == Wiped(false)
    || (e == Drained && s.phase.Filling? && s.phase.pool.failed)
    || (e == Reread(false) && s.phase.Verifying? && s.phase.count < |w.manifest(s.name).urls|)
    || (e.Marked? && !e.ok)
    || e == Confirmed(false)
  }

  lemma UnderwayStep(w: World, s: State, e: Event)
    requires Inv(w, s) && Enabled(w, s, e) && Underway(s.phase)
    ensures var t := Step(w, s, e);
            t.name == s.name && (t.phase.Asleep? || Underway(t.phase)) &&
            (t.phase.Asleep? <==> e.Crashed? || e == Confirmed(true) || e.Undone?) &&
            (!s.phase.Undoing? ==> (t.phase.Undoing? <==> Fails(w, s, e))) &&
            (s.phase.Undoing? ==> e.Crashed? || e.Undone?) &&
            (e == Confirmed(true) ==> MarkedComplete(s, s.name) && t.storage == s.storage) &&
            (e == Undone(true) ==> t.storage == s.storage - {s.name}) &&
            (e == Undone(false) || e.Crashed? ==> t.storage == s.storage)
  {
    hide Claim, Fetch, Finish, PoolInv, MarkersTrue, AllValid, Servable, StartPool;
  }

  /**
    An install that has begun to empty its cache ends in a crash, with its cache
    confirmed complete, or in undoing: there the cache goes, unless storage refuses.
    It turns to undoing exactly when wiping fails, the pool drained with a failure,
    an entry is not found again, or the marker is not written or not confirmed.
  */
  lemma InstallEndsExactly(w: World, ss: seq<State>, es: seq<Event>, k: nat)
    requires Behaviour(w, ss, es) && k < |es| && Underway(ss[k].phase)
    ensures ss[k + 1].name == ss[k].name && (ss[k + 1].phase.Asleep? || Underway(ss[k + 1].phase))
    ensures ss[k + 1].phase.Asleep? <==>
              es[k].Crashed? ||
              (es[k] == Confirmed(true) && MarkedComplete(ss[k], ss[k].name)) ||
              (es[k].Undone? && (es[k].ok ==> ss[k].name !in ss[k + 1].storage))
    ensures !ss[k].phase.Undoing? ==> (ss[k + 1].phase.Undoing? <==> Fails(w, ss[k], es[k]))
    ensures ss[k].phase.Undoing? ==> es[k].Crashed? || es[k].Undone?
  {
    hide Step, Enabled, Inv;
    AlwaysSound(w, ss, es, k);
    assert Follows(w, ss, es, k);
    UnderwayStep(w, ss[k], es[k]);
  }

  /** Event `j` brought the install of `name` to its end without a crash. */
  ghost predicate Settles(s: State, e: Event, t: State, name: string) {
    s.name == name &&
    ((e == Confirmed(true) && Published(t, name)) || (e.Undone? && (e.ok ==> name !in t.storage)))
  }

  /** Over a run: an install that began to empty its cache and is over has crashed, published the cache or undone it. */
  lemma {:induction false} InstallIsSettled(w: World, ss: seq<State>, es: seq<Event>, i: nat, k: nat) returns (j: nat)
    requires Behaviour(w, ss, es) && i < k < |ss| && Underway(ss[i].phase)
    requires ss[k].phase.Asleep? && forall l :: i <= l < k ==> es[l] != Crashed
    ensures i <= j < k && Settles(ss[j], es[j], ss[j + 1], ss[i].name)
    decreases k - i
  {
    hide Step, Enabled, Inv;
    InstallEndsExactly(w, ss, es, i);
    if ss[i + 1].phase.Asleep? {
      j := i;
      if es[i] == Confirmed(true) { ConfirmationPublishes(w, ss, es, i); }
    } else {
      j := InstallIsSettled(w, ss, es, i + 1, k);
    }
  }

  // ----- which caches there are

  /** Clean-up opens the owned cache it inspects; an install and a retirement open their own. */
  ghost predicate OpensCache(w: World, s: State, e: Event, name: string) {
    || (e == Inspected(true) && s.phase.Cleaning? && s.phase.names != [] && name == s.phase.names[0] && w.owned(name))
    || (((e.Checked? && e.ok) || (e.Decided? && e.ok)) && name == s.name)
  }

  ghost predicate DeletesCache(s: State, e: Event, name: string) {
    || (e == Removed(true) && s.phase.Removing? && s.phase.names != [] && name == s.phase.names[0])
    || (e == Undone(true) && name == s.name)
    || e == Retired(name, true)
  }

  /** What a cache holds after the event, from what it held before. */
  ghost function Written(w: World, s: State, e: Event, c: Cache): Cache {
    match e
    case WipedAsset(url) => c.(assets := c.assets - {url})
    case WipedMarker(key) => c.(markers := c.markers - {key})
    case Marked(true, _) => c.(markers := c.markers[s.name := Names(s.name)])
    case Put(k, true, _) =>
      if s.phase.Filling? && k < |s.phase.pool.slots| && s.phase.pool.slots[k].Putting? &&
         s.phase.pool.slots[k].entry < |w.manifest(s.name).urls|
      then c.(assets := c.assets[w.manifest(s.name).urls[s.phase.pool.slots[k].entry] := s.phase.pool.slots[k].content])
      else c
    case _ => c
  }

  /** Every cache after the event: opened, deleted, written or as it was. */
  lemma StorageExactly(w: World, s: State, e: Event, name: string)
    requires Enabled(w, s, e)
    ensures name in Step(w, s, e).storage <==>
              OpensCache(w, s, e, name) || (name in s.storage && !DeletesCache(s, e, name))
    ensures name in Step(w, s, e).storage ==>
              var before := if name in s.storage then s.storage[name] else EMPTY;
              Step(w, s, e).storage[name] == if name == s.name then Written(w, s, e, before) else before
  {
    hide Claim, Fetch, Finish, HasMetadata, Complete, StartPool, NextClean;
  }

  /** What is up for deletion belongs to the app. */
  ghost predicate DeletesOwn(w: World, s: State) {
    (s.phase.Removing? && s.phase.names != [] ==> w.owned(s.phase.names[0])) &&
    (s.phase.Retiring? ==> forall name <- s.phase.rest :: w.owned(name))
  }

  lemma StepKeepsOwn(w: World, s: State, e: Event)
    requires Enabled(w, s, e) && DeletesOwn(w, s)
    ensures DeletesOwn(w, Step(w, s, e))
  {
    hide Claim, Fetch, Finish, HasMetadata, Complete, StartPool, Opened, Deleted;
  }

  lemma {:induction false} RunKeepsOwn(w: World, ss: seq<State>, es: seq<Event>, k: nat)
    requires Behaviour(w, ss, es) && k < |ss|
    ensures DeletesOwn(w, ss[k])
  {
    hide Step, Enabled;
    if k > 0 {
      RunKeepsOwn(w, ss, es, k - 1);
      assert Follows(w, ss, es, k - 1);
      StepKeepsOwn(w, ss[k - 1], es[k - 1]);
    }
  }

  /**
    A cache disappears exactly in a clean-up that found no metadata in it, in the undoing of its own install, or in a
    retirement behind another complete cache; it is the app's own each time.
  */
  lemma DeletedExactly(w: World, ss: seq<State>, es: seq<Event>, k: nat, name: string)
    requires Behaviour(w, ss, es) && k < |es| && name in ss[k].storage
    ensures name !in ss[k + 1].storage <==> DeletesCache(ss[k], es[k], name)
    ensures DeletesCache(ss[k], es[k], name) ==> w.owned(name)
    ensures es[k].Removed? && DeletesCache(ss[k], es[k], name) ==> Bare(ss[k].storage[name])
    ensures es[k].Retired? && DeletesCache(ss[k], es[k], name) ==> name != ss[k].name && MarkedComplete(ss[k], ss[k].name)
  {
    hide Step, Enabled, HasMetadata, Bare;
    AlwaysSound(w, ss, es, k);
    RunKeepsOwn(w, ss, es, k);
    assert Follows(w, ss, es, k);
    if DeletesCache(ss[k], es[k], name) { DeletionIsEarned(w, ss[k], es[k], name); }
    StorageExactly(w, ss[k], es[k], name);
  }

  lemma DeletionIsEarned(w: World, s: State, e: Event, name: string)
    requires Inv(w, s) && DeletesOwn(w, s) && Enabled(w, s, e) && name in s.storage && DeletesCache(s, e, name)
    ensures w.owned(name)
    ensures e.Removed? ==> Bare(s.storage[name])
    ensures e.Retired? ==> name != s.name && MarkedComplete(s, s.name)
  {
    hide HasMetadata, MarkersTrue, Bare;
    BareIsUnread(s.storage[name]);
  }

  // ----- which phase comes next

  /** The last listed cache has been dealt with, or storage listed none or would not list. */
  ghost predicate CleanedUp(w: World, s: State, e: Event) {
    || (e.Listed? && (e.names.Some? ==> e.names.value == []))
    || (e.Removed? && s.phase.Removing? && |s.phase.names| == 1)
    || (e.Inspected? && s.phase.Cleaning? && |s.phase.names| == 1 && !FoundOrphan(w, s, e))
  }

  /** The inspected cache is the app's own and holds no metadata. */
  ghost predicate FoundOrphan(w: World, s: State, e: Event) {
    e == Inspected(true) && s.phase.Cleaning? && s.phase.names != [] && w.owned(s.phase.names[0]) &&
    (s.phase.names[0] in s.storage ==> Bare(s.storage[s.phase.names[0]]))
  }

  /** Clean-up goes through the listed names one by one; an operation that fails skips its name. */
  lemma CleanUpExactly(w: World, s: State, e: Event)
    requires Enabled(w, s, e) && (s.phase.Listing? || s.phase.Cleaning? || s.phase.Removing?) && !e.Crashed?
    ensures var t := Step(w, s, e);
            t.name == s.name &&
            (t.phase.Checking? <==> s.phase.purpose.Installing? && CleanedUp(w, s, e)) &&
            (t.phase.Deciding? <==> s.phase.purpose.Activating? && CleanedUp(w, s, e)) &&
            (FoundOrphan(w, s, e) ==> t.phase == Removing(s.phase.purpose, s.phase.names)) &&
            (!CleanedUp(w, s, e) && !FoundOrphan(w, s, e) ==>
               t.phase == Cleaning(s.phase.purpose, if s.phase.Listing? then e.names.value else s.phase.names[1..]))
  {
    hide HasMetadata, Bare;
    NothingToRead();
    if s.phase.Cleaning? && s.phase.names != [] && s.phase.names[0] in s.storage { BareIsUnread(s.storage[s.phase.names[0]]); }
  }

  lemma BeginsExactly(w: World, s: State, e: Event)
    requires Enabled(w, s, e) && s.phase.Asleep?
    ensures Step(w, s, e) ==
            if e.Begun? && (e.purpose.Installing? ==> OFFLINE in w.manifest(e.name).urls)
            then State(s.storage, Listing(e.purpose), e.name)
            else s
  {
  }

  lemma DecidesExactly(w: World, s: State, e: Event)
    requires Enabled(w, s, e) && (s.phase.Checking? || s.phase.Deciding?) && !e.Crashed?
    ensures var t := Step(w, s, e);
            t.name == s.name &&
            t.phase ==
            if s.phase.Checking? then (if e.ok && !MarkedComplete(s, s.name) then Wiping else Asleep)
            else if e.ok && MarkedComplete(s, s.name) then Retiring(set name | name in e.all && name != s.name && w.owned(name))
            else Asleep
  {
  }

  lemma RetiresExactly(w: World, s: State, e: Event)
    requires Enabled(w, s, e) && s.phase.Retiring? && !e.Crashed?
    ensures Step(w, s, e).name == s.name
    ensures Step(w, s, e).phase == if s.phase.rest == {} then Asleep else Retiring(s.phase.rest - {e.name})
    ensures e.Retired? <==> s.phase.rest != {}
  {
  }

  lemma CrashSleeps(w: World, s: State)
    ensures Step(w, s, Crashed) == s.(phase := Asleep)
  {
  }

  /**
    Work begins with a listing, unless an install has no offline document; a cache is emptied exactly when the install
    finds it incomplete, others retire exactly when the current one is found complete, and work is over in these cases.
  */
  lemma PhasesExactly(w: World, ss: seq<State>, es: seq<Event>, k: nat)
    requires Behaviour(w, ss, es) && k < |es|
    ensures ss[k + 1].phase.Listing? <==> es[k].Begun? && (es[k].purpose.Installing? ==> OFFLINE in w.manifest(es[k].name).urls)
    ensures ss[k + 1].phase.Listing? ==> ss[k + 1].phase.purpose == es[k].purpose
    ensures ss[k + 1].name == if ss[k + 1].phase.Listing? then es[k].name else ss[k].name
    ensures ss[k + 1].phase.Wiping? && !ss[k].phase.Wiping? <==> es[k] == Checked(true) && !MarkedComplete(ss[k], ss[k].name)
    ensures ss[k + 1].phase.Retiring? && !ss[k].phase.Retiring? <==> es[k].Decided? && es[k].ok && MarkedComplete(ss[k], ss[k].name)
    ensures ss[k + 1].phase.Retiring? ==>
              forall name :: name in ss[k + 1].phase.rest <==>
                if ss[k].phase.Retiring? then name in ss[k].phase.rest && es[k].Retired? && name != es[k].name
                else es[k].Decided? && name in es[k].all && name != ss[k].name && w.owned(name)
    ensures ss[k + 1].phase.Asleep? && !ss[k].phase.Asleep? <==>
              (es[k].Crashed? && !ss[k].phase.Asleep?) ||
              (es[k].Checked? && (es[k].ok ==> MarkedComplete(ss[k], ss[k].name))) ||
              (es[k].Decided? && (es[k].ok ==> !MarkedComplete(ss[k], ss[k].name))) ||
              es[k].Undone? || es[k] == Confirmed(true) || es[k].RetirementEnded?
  {
    hide Step, Enabled, Inv, MarkedComplete, Fails, CleanedUp, FoundOrphan;
    var s, e := ss[k], es[k];
    AlwaysSound(w, ss, es, k);
    assert Follows(w, ss, es, k);
    if e.Crashed? {
      CrashSleeps(w, s);
    } else {
      Matches(w, s, e);
      if Underway(s.phase) {
        UnderwayStep(w, s, e);
        if !s.phase.Undoing? && !Fails(w, s, e) { InstallGoesOn(w, s, e); }
      } else if s.phase.Asleep? {
        BeginsExactly(w, s, e);
      } else if s.phase.Checking? || s.phase.Deciding? {
        DecidesExactly(w, s, e);
      } else if s.phase.Retiring? {
        RetiresExactly(w, s, e);
      } else {
        CleanUpExactly(w, s, e);
      }
    }
  }

  /** Every event but a crash belongs to a phase. */
  lemma Matches(w: World, s: State, e: Event)
    requires Enabled(w, s, e) && !e.Crashed?
    ensures e.Begun? <==> s.phase.Asleep?
    ensures e.Checked? <==> s.phase.Checking?
    ensures e.Decided? <==> s.phase.Deciding?
    ensures e.Undone? <==> s.phase.Undoing?
    ensures e.Confirmed? <==> s.phase.Confirming?
    ensures e.Retired? || e.RetirementEnded? <==> s.phase.Retiring?
  {
  }

  /** The install's own course, as long as nothing fails. */
  lemma InstallGoesOn(w: World, s: State, e: Event)
    requires Inv(w, s) && Enabled(w, s, e) && Underway(s.phase) && !s.phase.Undoing? && !e.Crashed? && !Fails(w, s, e)
    ensures var t, m := Step(w, s, e), w.manifest(s.name);
            match s.phase
            case Wiping =>
              if e == Wiped(true)
              then t.phase.Filling? && |t.phase.pool.slots| == (if |m.urls| < 6 then |m.urls| else 6) &&
                   t.phase.pool.claims == [] && !t.phase.pool.failed && forall slot <- t.phase.pool.slots :: slot == Ready
              else t.phase.Wiping?
            case Filling(_) => if e == Drained then t.phase == Verifying(0) else t.phase.Filling?
            case Verifying(count) => t.phase == if count < |m.urls| then Verifying(count + 1) else Marking
            case Marking => t.phase == Confirming
            case _ => t.phase == Asleep
  {
    hide Claim, Fetch, Finish, PoolInv, MarkersTrue, AllValid, Servable;
  }

  // ----- the pool

  /** The slot's answer makes the install fail. */
  ghost predicate SlotFails(m: Manifest, p: Pool, e: Event) {
    || (e.Put? && !e.ok)
    || (e.Fetched? && e.slot < |p.slots| && p.slots[e.slot].Fetching? && p.slots[e.slot].entry < |m.urls| &&
        (e.content.Some? ==> !m.valid(m.urls[p.slots[e.slot].entry], e.content.value)))
  }

  /**
    A slot takes the next entry exactly while there is one and nothing has failed; it puts what it fetched exactly
    when the content passes the checks; the pool has failed exactly when some fetch, check or put has.
  */
  lemma PoolExactly(w: World, s: State, e: Event)
    requires Enabled(w, s, e) && s.phase.Filling? && (e.Claimed? || e.Fetched? || e.Put?)
    ensures var m, p, t := w.manifest(s.name), s.phase.pool, Step(w, s, e);
            t.phase.Filling? && t.name == s.name &&
            (t.phase.pool.failed <==> p.failed || SlotFails(m, p, e)) &&
            t.phase.pool.claims == p.claims + (if e.Claimed? && !p.failed && |p.claims| < |m.urls| then [e.slot] else []) &&
            |t.phase.pool.slots| == |p.slots| &&
            (forall k :: 0 <= k < |p.slots| && k != e.slot ==> t.phase.pool.slots[k] == p.slots[k]) &&
            t.phase.pool.slots[e.slot] ==
            if e.Claimed? then (if !p.failed && |p.claims| < |m.urls| then Fetching(|p.claims|) else Exited)
            else if e.Fetched? && !SlotFails(m, p, e) then Putting(p.slots[e.slot].entry, e.content.value)
            else Ready
  {
  }
}

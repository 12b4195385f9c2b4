/**
  Installs that end: while storage and network answer well, whatever the order of the answers, an install keeps
  its course, comes closer to its end with every answer, and stops only with its cache published.
*/
module PrecacheProgress {
  import opened Basics
  import opened Precache

  /** Every url of the release has some content that passes every check. */
  ghost predicate Obtainable(w: World, name: string) {
    forall url <- w.manifest(name).urls :: exists content: nat :: w.manifest(name).valid(url, content)
  }

  /** Storage does what it is asked, and the network serves contents that pass every check; nothing crashes. */
  ghost predicate Good(w: World, s: State, e: Event) {
    match e
    case Listed(names) => names.Some?
    case Inspected(ok) => ok
    case Removed(ok) => ok
    case Checked(ok) => ok
    case WipedAsset(_) => true
    case WipedMarker(_) => true
    case Wiped(ok) => ok
    case Claimed(_) => true
    case Fetched(k, content) =>
      s.phase.Filling? && k < |s.phase.pool.slots| && s.phase.pool.slots[k].Fetching? &&
      s.phase.pool.slots[k].entry < |w.manifest(s.name).urls| &&
      content.Some? && w.manifest(s.name).valid(w.manifest(s.name).urls[s.phase.pool.slots[k].entry], content.value)
    case Put(_, stored, ok) => stored && ok
    case Drained => true
    case Reread(ok) => ok
    case Marked(stored, ok) => stored && ok
    case Confirmed(ok) => ok
    case _ => false
  }

  /** An install under way without a failure, or over with its cache published. */
  ghost predicate OnCourse(s: State) {
    match s.phase
    case Asleep => Published(s, s.name)
    case Listing(purpose) => purpose.Installing?
    case Cleaning(purpose, names) => purpose.Installing? && names != []
    case Removing(purpose, names) => purpose.Installing? && names != []
    case Filling(pool) => !pool.failed
    case Checking => true
    case Wiping => true
    case Verifying(_) => true
    case Marking => true
    case Confirming => true
    case _ => false
  }

  // ----- how much is left to do

  function Held(s: State): nat {
    if s.name in s.storage then |s.storage[s.name].assets| + |s.storage[s.name].markers| else 0
  }

  /** The pool, the closure test, the marker and its confirmation. */
  ghost function FromPool(m: Manifest, p: Pool): int {
    PoolWork(m, p) + |m.urls| + 4
  }

  /** Upper bound for the good answers an install still takes, once storage has listed its caches. */
  ghost function Work(w: World, s: State): int {
    var m := w.manifest(s.name);
    var wiping := FromPool(m, StartPool(m)) + Held(s) + 1;
    match s.phase
    case Cleaning(_, names) => wiping + 2 * |names| + 1
    case Removing(_, names) => wiping + 2 * |names|
    case Checking => wiping + 1
    case Wiping => wiping
    case Filling(pool) => FromPool(m, pool)
    case Verifying(count) => |m.urls| - count + 3
    case Marking => 2
    case Confirming => 1
    case _ => 0
  }

  lemma {:induction false} WeightIsNat(slots: seq<Slot>)
    ensures Weight(slots) >= 0
  {
  }

  lemma WorkIsNat(w: World, s: State)
    requires Inv(w, s)
    ensures Work(w, s) >= 0
  {
    hide Weight, MarkersTrue, AllValid;
  }

  // ----- one good answer

  lemma CleanUpGoesOn(w: World, s: State, e: Event)
    requires Inv(w, s) && Enabled(w, s, e) && Good(w, s, e) && OnCourse(s)
    requires e.Listed? || e.Inspected? || e.Removed? || e.Checked?
    ensures var t := Step(w, s, e);
            OnCourse(t) && t.name == s.name && (e.Listed? || Work(w, t) < Work(w, s))
  {
    hide StartPool, FromPool, MarkersTrue, HasMetadata;
    StartIsNat(w.manifest(s.name));
  }

  lemma StartIsNat(m: Manifest)
    ensures FromPool(m, StartPool(m)) >= 0
  {
  }

  lemma WipeGoesOn(w: World, s: State, e: Event)
    requires Inv(w, s) && Enabled(w, s, e) && Good(w, s, e) && OnCourse(s)
    requires e.WipedAsset? || e.WipedMarker? || e.Wiped?
    ensures var t := Step(w, s, e); OnCourse(t) && t.name == s.name && Work(w, t) < Work(w, s)
  {
    hide FromPool, MarkersTrue, AllValid, Complete, StartPool, Held;
    NothingFailed(w.manifest(s.name));
    match e
    case WipedAsset(url) => HeldDrops(s, url, "", SetCache(s, s.storage[s.name].(assets := s.storage[s.name].assets - {url})));
    case WipedMarker(key) => HeldDrops(s, "", key, SetCache(s, s.storage[s.name].(markers := s.storage[s.name].markers - {key})));
    case Wiped(_) =>
  }

  lemma HeldDrops(s: State, url: string, key: string, t: State)
    requires s.name in s.storage
    requires var c := s.storage[s.name];
             (url in c.assets && t == SetCache(s, c.(assets := c.assets - {url}))) ||
             (key in c.markers && t == SetCache(s, c.(markers := c.markers - {key})))
    ensures Held(t) == Held(s) - 1
  {
    var c := s.storage[s.name];
    if url in c.assets { assert c.assets.Keys == (c.assets - {url}).Keys + {url}; }
    if key in c.markers { assert c.markers.Keys == (c.markers - {key}).Keys + {key}; }
  }

  lemma NothingFailed(m: Manifest)
    ensures !StartPool(m).failed
  {
  }

  lemma PoolGoesOn(w: World, s: State, e: Event)
    requires Inv(w, s) && Enabled(w, s, e) && Good(w, s, e) && OnCourse(s)
    requires e.Claimed? || e.Fetched? || e.Put? || e.Drained?
    ensures var t := Step(w, s, e); OnCourse(t) && t.name == s.name && Work(w, t) < Work(w, s)
  {
    hide Weight, MarkersTrue, AllValid;
    var m, pool := w.manifest(s.name), s.phase.pool;
    match e
    case Claimed(k) => PoolWorkDrops(m, pool, k, None, true);
    case Fetched(k, content) => PoolWorkDrops(m, pool, k, content, true);
    case Put(k, _, _) => PoolWorkDrops(m, pool, k, None, true);
    case Drained => WeightIsNat(pool.slots);
  }

  lemma MarkGoesOn(w: World, s: State, e: Event)
    requires Inv(w, s) && Enabled(w, s, e) && Good(w, s, e) && OnCourse(s)
    requires e.Reread? || e.Marked? || e.Confirmed?
    ensures var t := Step(w, s, e); OnCourse(t) && t.name == s.name && Work(w, t) < Work(w, s)
  {
    hide MarkersTrue, AllValid, FromPool;
    if e.Reread? && s.phase.count < |w.manifest(s.name).urls| {
      assert w.manifest(s.name).urls[s.phase.count] in w.manifest(s.name).urls;
    }
  }

  /** Each good answer keeps the install on its course and leaves less to do. */
  lemma GoodStep(w: World, s: State, e: Event)
    requires Inv(w, s) && Enabled(w, s, e) && Good(w, s, e) && OnCourse(s)
    ensures var t := Step(w, s, e);
            Inv(w, t) && OnCourse(t) && t.name == s.name && (e.Listed? || Work(w, t) < Work(w, s))
    ensures e.Listed? <==> s.phase.Listing?
  {
    ListedFirst(w, s, e);
    hide Inv, Enabled, OnCourse, Step, Work;
    StepKeepsInv(w, s, e);
    if e.Listed? || e.Inspected? || e.Removed? || e.Checked? {
      CleanUpGoesOn(w, s, e);
    } else if e.WipedAsset? || e.WipedMarker? || e.Wiped? {
      WipeGoesOn(w, s, e);
    } else if e.Claimed? || e.Fetched? || e.Put? || e.Drained? {
      PoolGoesOn(w, s, e);
    } else {
      MarkGoesOn(w, s, e);
    }
  }

  lemma ListedFirst(w: World, s: State, e: Event)
    requires Enabled(w, s, e) && Good(w, s, e)
    ensures e.Listed? <==> s.phase.Listing?
  {
  }

  // ----- an install that is not over can go on

  lemma WipeCanGoOn(w: World, s: State) returns (e: Event)
    requires Inv(w, s) && s.phase.Wiping?
    ensures Enabled(w, s, e) && Good(w, s, e)
  {
    hide MarkersTrue, Complete;
    var c := s.storage[s.name];
    if url :| url in c.assets { return WipedAsset(url); }
    if key :| key in c.markers { return WipedMarker(key); }
    assert c == EMPTY;
    return Wiped(true);
  }

  lemma PoolCanGoOn(w: World, s: State) returns (e: Event)
    requires Inv(w, s) && s.phase.Filling? && Obtainable(w, s.name)
    ensures Enabled(w, s, e) && Good(w, s, e)
  {
    hide MarkersTrue, AllValid;
    var m, slots := w.manifest(s.name), s.phase.pool.slots;
    if k :| 0 <= k < |slots| && !slots[k].Exited? {
      match slots[k] {
        case Ready => return Claimed(k);
        case Fetching(entry) =>
          assert m.urls[entry] in m.urls;
          var content: nat :| m.valid(m.urls[entry], content);
          return Fetched(k, Some(content));
        case Putting(_, _) => return Put(k, true, true);
      }
    }
    return Drained;
  }

  /** Whatever an install waits for, some good answer can come. */
  lemma CanGoOn(w: World, s: State) returns (e: Event)
    requires Inv(w, s) && OnCourse(s) && !s.phase.Asleep? && Obtainable(w, s.name)
    ensures Enabled(w, s, e) && Good(w, s, e) && (e.Listed? ==> e == Listed(Some([])))
  {
    hide MarkersTrue, AllValid, PoolInv, Obtainable;
    match s.phase
    case Listing(_) => e := Listed(Some([]));
    case Cleaning(_, _) => e := Inspected(true);
    case Removing(_, _) => e := Removed(true);
    case Checking => e := Checked(true);
    case Wiping => e := WipeCanGoOn(w, s);
    case Filling(_) => e := PoolCanGoOn(w, s);
    case Verifying(_) => e := Reread(true);
    case Marking => e := Marked(true, true);
    case Confirming => e := Confirmed(true);
  }

  lemma NothingAfterSleep(w: World, s: State, e: Event)
    requires s.phase.Asleep? && Enabled(w, s, e)
    ensures !Good(w, s, e)
  {
  }

  // ----- every run of good answers

  ghost predicate Stuck(w: World, s: State) {
    forall e :: Enabled(w, s, e) ==> !Good(w, s, e)
  }

  lemma {:induction false} KeepsCourse(w: World, ss: seq<State>, es: seq<Event>, j: nat, k: nat)
    requires Behaviour(w, ss, es) && j <= k < |ss| && ss[j].phase == Listing(Installing)
    requires forall i :: j <= i < k ==> Good(w, ss[i], es[i])
    ensures Inv(w, ss[k]) && OnCourse(ss[k]) && ss[k].name == ss[j].name
    ensures k > j ==> !ss[k].phase.Listing? && k - j - 1 <= Work(w, ss[j + 1]) - Work(w, ss[k])
    decreases k
  {
    hide Inv, Enabled, Good, Step, Work, OnCourse;
    AlwaysSound(w, ss, es, k);
    if k == j {
      BeginsOnCourse(ss[j]);
    } else {
      KeepsCourse(w, ss, es, j, k - 1);
      assert Follows(w, ss, es, k - 1);
      GoodStep(w, ss[k - 1], es[k - 1]);
      NotListingAgain(w, ss[k - 1], es[k - 1]);
    }
  }

  lemma BeginsOnCourse(s: State)
    requires s.phase == Listing(Installing)
    ensures OnCourse(s)
  {
  }

  lemma NotListingAgain(w: World, s: State, e: Event)
    requires Enabled(w, s, e) && Good(w, s, e)
    ensures !Step(w, s, e).phase.Listing?
  {
  }

  /**
    In every run: from where an install has begun, and as long as storage and network answer well, it never
    fails or takes anything back; after storage has listed its caches it ends within a bound known by then;
    and where no good answer can come any more, it is over and its cache is published.
  */
  lemma InstallPublishes(w: World, ss: seq<State>, es: seq<Event>, j: nat, k: nat)
    requires Behaviour(w, ss, es) && j <= k < |ss| && ss[j].phase == Listing(Installing)
    requires forall i :: j <= i < k ==> Good(w, ss[i], es[i])
    ensures OnCourse(ss[k]) && ss[k].name == ss[j].name
    ensures k > j ==> k - j - 1 <= Work(w, ss[j + 1])
    ensures Obtainable(w, ss[j].name) ==>
              (Stuck(w, ss[k]) <==> ss[k].phase.Asleep?) && (Stuck(w, ss[k]) ==> Published(ss[k], ss[j].name))
  {
    hide Inv, Enabled, Good, Step, Work;
    KeepsCourse(w, ss, es, j, k);
    WorkIsNat(w, ss[k]);
    if ss[k].phase.Asleep? {
      forall e | Enabled(w, ss[k], e) ensures !Good(w, ss[k], e) { NothingAfterSleep(w, ss[k], e); }
    } else if Obtainable(w, ss[k].name) {
      var e := CanGoOn(w, ss[k]);
    }
  }

  // ----- the plain promise is false

  /** A first install before its marker: no cache but its own, and that one not complete. */
  ghost predicate First(s: State) {
    s.storage.Keys <= {s.name} && (s.phase.Confirming? <==> IsComplete(s, s.name)) && !s.phase.Asleep? &&
    !s.phase.Cleaning? && !s.phase.Removing?
  }

  lemma FirstGoesOn(w: World, s: State, e: Event)
    requires Inv(w, s) && Enabled(w, s, e) && Good(w, s, e) && OnCourse(s) && First(s) && !s.phase.Confirming?
    requires e.Listed? ==> e == Listed(Some([]))
    ensures First(Step(w, s, e))
  {
    hide MarkersTrue, AllValid, PoolInv, StartPool, Claim, Fetch, Finish;
  }

  /** A first install gets as far as its marker. */
  lemma {:induction false} ReachesMarker(w: World, s: State) returns (es: seq<Event>, t: State)
    requires Inv(w, s) && OnCourse(s) && First(s) && Obtainable(w, s.name)
    ensures Leads(w, s, es, t) && First(t) && t.phase == Confirming && t.name == s.name
    ensures if s.phase.Confirming? then es == [] else es != [] && es[|es| - 1] == Marked(true, true)
    decreases if s.phase.Listing? then 1 else 0, Work(w, s)
  {
    if s.phase.Confirming? {
      es, t := [], s;
    } else {
      WorkIsNat(w, s);
      var e := CanGoOn(w, s);
      NotListingAgain(w, s, e);
      MarkedLast(w, s, e);
      hide Inv, Enabled, Good, OnCourse, First, Step, Work;
      GoodStep(w, s, e);
      FirstGoesOn(w, s, e);
      var next := Step(w, s, e);
      WorkIsNat(w, next);
      var more;
      more, t := ReachesMarker(w, next);
      assert more != [] ==> ([e] + more)[|more|] == more[|more| - 1];
      LeadsByOne(w, s, e);
      LeadsFurther(w, s, [e], next, more, t);
      es := [e] + more;
    }
  }

  lemma MarkedLast(w: World, s: State, e: Event)
    requires Enabled(w, s, e) && Good(w, s, e)
    ensures Step(w, s, e).phase.Confirming? ==> e == Marked(true, true)
  {
    hide StartPool, Claim, Fetch, Finish;
  }

  lemma Begins(w: World, name: string)
    requires w.owned(name) && OFFLINE in w.manifest(name).urls
    ensures var empty, s := State(map[], Asleep, name), State(map[], Listing(Installing), name);
            Leads(w, empty, [Begun(name, Installing)], s) && Behaviour(w, [empty], []) && Inv(w, s) && OnCourse(s) && First(s)
  {
    var empty := State(map[], Asleep, name);
    LeadsByOne(w, empty, Begun(name, Installing));
  }

  /** The marker cannot be read back, and the install takes back its cache, which was the only one. */
  lemma TakesBack(w: World, s: State) returns (t: State, u: State)
    requires First(s) && s.phase == Confirming
    ensures Leads(w, s, [Confirmed(false), Undone(true)], u) && u.storage == map[]
    ensures Leads(w, s, [Confirmed(false)], t) && t.storage == s.storage
  {
    hide Leads, Complete;
    t := Step(w, s, Confirmed(false));
    u := Step(w, t, Undone(true));
    LeadsByOne(w, s, Confirmed(false));
    LeadsByOne(w, t, Undone(true));
    LeadsFurther(w, s, [Confirmed(false)], t, [Undone(true)], u);
    assert [Confirmed(false)] + [Undone(true)] == [Confirmed(false), Undone(true)];
  }

  /**
    A first install whose marker is written but cannot be read back: a complete cache is there, and then none.
    Storage and network answer everything else well, in whatever world.
  */
  lemma FirstInstallLosesItsCache(w: World, name: string) returns (ss: seq<State>, es: seq<Event>)
    requires w.owned(name) && OFFLINE in w.manifest(name).urls && Obtainable(w, name)
    ensures Behaviour(w, ss, es) && |es| >= 3
    ensures es[|es| - 3..] == [Marked(true, true), Confirmed(false), Undone(true)]
    ensures SomeComplete(w, ss[|es| - 2]) && !SomeComplete(w, ss[|es|])
  {
    hide Leads, Inv, Obtainable, OnCourse;
    var empty, s := State(map[], Asleep, name), State(map[], Listing(Installing), name);
    Begins(w, name);
    var up, confirming := ReachesMarker(w, s);
    LeadsFurther(w, empty, [Begun(name, Installing)], s, up, confirming);
    var before := [Begun(name, Installing)] + up;
    var run := LeadsIsRun(w, [empty], [], before, confirming);
    assert [] + before == before;
    var undoing, gone := TakesBack(w, confirming);
    ss := LeadsIsRun(w, run, before, [Confirmed(false), Undone(true)], gone);
    es := before + [Confirmed(false), Undone(true)];
    assert before[|before| - 1] == Marked(true, true);
    assert ss[|before|] == run[|before|] == confirming;
    assert IsComplete(confirming, name);
  }
}

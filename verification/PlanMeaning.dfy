/**
  What a rendering plan contains, told by the modules' own fields and places: which
  cores, in what sequence, and which children run before and after each of them.
*/
module PlanMeaning {
  import opened Basics
  import Sorting
  import opened RenderingPlan

  // ----- places in the module list

  ghost predicate Rising(at: seq<nat>) {
    forall i, j :: 0 <= i < j < |at| ==> at[i] < at[j]
  }

  predicate KeptAt(modules: seq<Module>, keep: Module -> bool, i: nat)
    requires i < |modules|
  {
    keep(modules[i])
  }

  ghost function Places(modules: seq<Module>, keep: Module -> bool, n: nat): (at: seq<nat>)
    requires n <= |modules|
    ensures forall j :: 0 <= j < |at| ==> n <= at[j] < |modules|
    decreases |modules| - n
  {
    if n == |modules| then []
    else (if KeptAt(modules, keep, n) then [n] else []) + Places(modules, keep, n + 1)
  }

  ghost function ModulesAt(modules: seq<Module>, at: seq<nat>): seq<Module>
    requires forall j :: 0 <= j < |at| ==> at[j] < |modules|
  {
    seq(|at|, j requires 0 <= j < |at| => modules[at[j]])
  }

  lemma RisingCons(n: nat, rest: seq<nat>)
    requires Rising(rest) && forall j :: 0 <= j < |rest| ==> n < rest[j]
    ensures Rising([n] + rest)
  {
  }

  lemma {:induction false} PlacesMeaning(modules: seq<Module>, keep: Module -> bool, n: nat)
    requires n <= |modules|
    ensures Rising(Places(modules, keep, n))
    ensures forall i: nat :: i in Places(modules, keep, n) <==> n <= i < |modules| && KeptAt(modules, keep, i)
    decreases |modules| - n
  {
    hide Rising, KeptAt;
    if n < |modules| {
      PlacesMeaning(modules, keep, n + 1);
      RisingCons(n, Places(modules, keep, n + 1));
      assert [] + Places(modules, keep, n + 1) == Places(modules, keep, n + 1);
    } else {
      NothingRises();
    }
  }

  lemma NothingRises()
    ensures Rising([])
  {
  }

  /** Selecting keeps the sequence of the list. */
  lemma {:induction false} SelectInOrder(modules: seq<Module>, keep: Module -> bool, n: nat)
    requires n <= |modules|
    ensures Select(modules[n..], keep) == ModulesAt(modules, Places(modules, keep, n))
    decreases |modules| - n
  {
    if n < |modules| {
      var rest := Places(modules, keep, n + 1);
      SelectInOrder(modules, keep, n + 1);
      assert modules[n..][0] == modules[n] && modules[n..][1..] == modules[n + 1..];
      assert ModulesAt(modules, [n] + rest) == [modules[n]] + ModulesAt(modules, rest);
      assert [] + rest == rest;
    }
  }

  /** Selecting twice is selecting what passes both. */
  lemma {:induction false} SelectTwice(modules: seq<Module>, first: Module -> bool, second: Module -> bool, both: Module -> bool)
    requires forall m :: both(m) <==> first(m) && second(m)
    ensures Select(Select(modules, first), second) == Select(modules, both)
  {
    if modules != [] { SelectTwice(modules[1..], first, second, both); }
  }

  // ----- the stable sort, by places

  function OrderAt(modules: seq<Module>, i: nat): int {
    if i < |modules| then modules[i].order else 0
  }

  function LessAt(modules: seq<Module>): Sorting.Less<nat> {
    (i: nat, j: nat) => OrderAt(modules, i) < OrderAt(modules, j)
  }

  /** Lower order first, and of equal orders the earlier module. */
  function SoonerAt(modules: seq<Module>): Sorting.Less<nat> {
    (i: nat, j: nat) => OrderAt(modules, i) < OrderAt(modules, j) || (OrderAt(modules, i) == OrderAt(modules, j) && i < j)
  }

  lemma {:induction false} InsertAt(modules: seq<Module>, x: nat, at: seq<nat>)
    requires x < |modules| && forall j :: 0 <= j < |at| ==> at[j] < |modules|
    ensures var inserted := Sorting.Insert<nat>(x, at, LessAt(modules));
            (forall j :: 0 <= j < |inserted| ==> inserted[j] < |modules|) &&
            Sorting.Insert(modules[x], ModulesAt(modules, at), ByOrder()) == ModulesAt(modules, inserted)
  {
    var ms := ModulesAt(modules, at);
    if at != [] && !LessAt(modules)(x, at[0]) {
      InsertAt(modules, x, at[1..]);
      assert ms[1..] == ModulesAt(modules, at[1..]);
      var rest := Sorting.Insert<nat>(x, at[1..], LessAt(modules));
      assert ModulesAt(modules, [at[0]] + rest) == [modules[at[0]]] + ModulesAt(modules, rest);
    } else {
      assert ModulesAt(modules, [x] + at) == [modules[x]] + ms;
    }
  }

  lemma {:induction false} SortAt(modules: seq<Module>, at: seq<nat>)
    requires forall j :: 0 <= j < |at| ==> at[j] < |modules|
    ensures var sorted := Sorting.Sort<nat>(at, LessAt(modules));
            (forall j :: 0 <= j < |sorted| ==> sorted[j] < |modules|) &&
            SortByOrder(ModulesAt(modules, at)) == ModulesAt(modules, sorted)
  {
    if at != [] {
      var n := |at| - 1;
      SortAt(modules, at[..n]);
      assert ModulesAt(modules, at)[..n] == ModulesAt(modules, at[..n]);
      InsertAt(modules, at[n], Sorting.Sort<nat>(at[..n], LessAt(modules)));
    }
  }

  lemma {:induction false} InsertLater(modules: seq<Module>, x: nat, at: seq<nat>)
    requires forall y <- at :: y < x
    ensures Sorting.Insert<nat>(x, at, LessAt(modules)) == Sorting.Insert<nat>(x, at, SoonerAt(modules))
  {
    if at != [] {
      assert at[0] in at && forall y <- at[1..] :: y in at;
      InsertLater(modules, x, at[1..]);
    }
  }

  /** On places in order, the stable sort is the sort by order and place. */
  lemma {:induction false} StableIsByPlace(modules: seq<Module>, at: seq<nat>)
    requires Rising(at)
    ensures Sorting.Sort<nat>(at, LessAt(modules)) == Sorting.Sort<nat>(at, SoonerAt(modules))
    ensures forall y :: y in Sorting.Sort<nat>(at, SoonerAt(modules)) <==> y in at
  {
    if at != [] {
      var n := |at| - 1;
      StableIsByPlace(modules, at[..n]);
      assert forall y <- at[..n] :: y < at[n];
      InsertLater(modules, at[n], Sorting.Sort<nat>(at[..n], LessAt(modules)));
      Sorting.InsertMultiset(at[n], Sorting.Sort<nat>(at[..n], SoonerAt(modules)), SoonerAt(modules));
      assert at == at[..n] + [at[n]];
    }
  }

  // ----- one stage

  /** An enabled module that depends on the core and is not one of the HTML core's post steps. */
  predicate RunsBefore(core: Module, m: Module) {
    m.isEnabled && m.dependsOn == Some(core.key) && (core.key != "htmlCore" || m.step != Some("post"))
  }

  predicate RunsAfter(core: Module, m: Module) {
    m.isEnabled && m.dependsOn == Some(core.key) && core.key == "htmlCore" && m.step == Some("post")
  }

  function Before(core: Module): Module -> bool {
    (m: Module) => RunsBefore(core, m)
  }

  function After(core: Module): Module -> bool {
    (m: Module) => RunsAfter(core, m)
  }

  /** The children before a core, in the sequence of the module list. */
  lemma BeforeExactly(modules: seq<Module>, core: Module) returns (at: seq<nat>)
    ensures Rising(at) && (forall j :: 0 <= j < |at| ==> at[j] < |modules|)
    ensures forall i: nat :: i in at <==> i < |modules| && RunsBefore(core, modules[i])
    ensures StageOf(modules, core).core == core && StageOf(modules, core).before == ModulesAt(modules, at)
  {
    hide SortByOrder, Rising;
    at := Places(modules, Before(core), 0);
    PlacesMeaning(modules, Before(core), 0);
    SelectTwice(modules, ChildOf(core), BeforeIn(core), Before(core));
    SelectInOrder(modules, Before(core), 0);
    assert modules[0..] == modules;
  }

  /** The post steps behind the HTML core, by their order, and in the sequence of the module list where that is equal. */
  lemma AfterExactly(modules: seq<Module>, core: Module) returns (at: seq<nat>)
    ensures forall j :: 0 <= j < |at| ==> at[j] < |modules|
    ensures forall i: nat :: i in at <==> i < |modules| && RunsAfter(core, modules[i])
    ensures forall i, j :: 0 <= i < j < |at| ==>
              modules[at[i]].order < modules[at[j]].order || (modules[at[i]].order == modules[at[j]].order && at[i] < at[j])
    ensures StageOf(modules, core).after == ModulesAt(modules, at)
  {
    hide SortByOrder, Rising, Select, Places;
    var places := Places(modules, After(core), 0);
    PlacesMeaning(modules, After(core), 0);
    assert InBounds(modules, places);
    at := Sorting.Sort<nat>(places, SoonerAt(modules));
    StableIsByPlace(modules, places);
    SortAt(modules, places);
    SortedPlaces(modules, places);
    hide RunsAfter, SoonerAt;
    AfterSelects(modules, core);
  }

  lemma AfterSelects(modules: seq<Module>, core: Module)
    ensures StageOf(modules, core).after == SortByOrder(ModulesAt(modules, Places(modules, After(core), 0)))
  {
    hide Select, Places, SortByOrder;
    if core.key == HTML_CORE {
      SelectTwice(modules, ChildOf(core), PostStep(), After(core));
      SelectInOrder(modules, After(core), 0);
      assert modules[0..] == modules;
    } else {
      NoPlaces(modules, After(core), 0);
      NothingSorts();
      assert ModulesAt(modules, []) == [];
    }
  }

  lemma NothingSorts()
    ensures SortByOrder([]) == []
  {
  }

  lemma {:induction false} NoPlaces(modules: seq<Module>, keep: Module -> bool, n: nat)
    requires n <= |modules| && forall m :: !keep(m)
    ensures Places(modules, keep, n) == []
    decreases |modules| - n
  {
    if n < |modules| { NoPlaces(modules, keep, n + 1); }
  }

  ghost predicate InBounds(modules: seq<Module>, at: seq<nat>) {
    forall j :: 0 <= j < |at| ==> at[j] < |modules|
  }

  lemma SameBounds(modules: seq<Module>, a: seq<nat>, b: seq<nat>)
    requires InBounds(modules, a) && forall y :: y in b <==> y in a
    ensures InBounds(modules, b)
  {
    forall j | 0 <= j < |b| ensures b[j] < |modules| { assert b[j] in b && b[j] in a; }
  }

  lemma SortedPlaces(modules: seq<Module>, places: seq<nat>)
    requires Rising(places) && InBounds(modules, places)
    ensures var at := Sorting.Sort<nat>(places, SoonerAt(modules));
            InBounds(modules, at) &&
            forall i, j :: 0 <= i < j < |at| ==>
              modules[at[i]].order < modules[at[j]].order || (modules[at[i]].order == modules[at[j]].order && at[i] < at[j])
  {
    var at := Sorting.Sort<nat>(places, SoonerAt(modules));
    SoonerIsWeak(modules);
    Sorting.SortMeaning<nat>(places, SoonerAt(modules));
    StableIsByPlace(modules, places);
    SameBounds(modules, places, at);
    Distinct(places);
    Sorting.SortPairwise<nat>(places, SoonerAt(modules), Different());
    hide Rising;
    forall i, j | 0 <= i < j < |at|
      ensures modules[at[i]].order < modules[at[j]].order || (modules[at[i]].order == modules[at[j]].order && at[i] < at[j])
    {
      assert !SoonerAt(modules)(at[j], at[i]) && Different()(at[i], at[j]);
    }
  }

  lemma SoonerIsWeak(modules: seq<Module>)
    ensures Sorting.WeakOrder(SoonerAt(modules))
  {
  }

  function Different(): Sorting.Less<nat> {
    (i: nat, j: nat) => i != j
  }

  lemma Distinct(places: seq<nat>)
    requires Rising(places)
    ensures Sorting.Pairwise(places, Different())
  {
  }

  // ----- the whole plan

  /** An enabled module that depends on nothing. */
  predicate StandsAlone(m: Module) {
    m.isEnabled && (m.dependsOn.None? || m.dependsOn.value == "")
  }

  ghost predicate InPlan(plan: seq<Stage>, m: Module) {
    exists i :: 0 <= i < |plan| && plan[i].core == m
  }

  lemma CoresMeaning(modules: seq<Module>, m: Module)
    ensures m in Cores(modules) <==> m in modules && StandsAlone(m)
  {
    SelectMeaning(modules, IsCore);
  }

  lemma StartsReach(cores: seq<Module>, contentType: string, m: Module)
    requires m in cores && m.input == Some(contentType)
    ensures Reachable(cores, contentType, m)
  {
    assert Walk(cores, contentType, [m]);
  }

  lemma FollowersReach(cores: seq<Module>, contentType: string, a: Module, b: Module)
    requires Reachable(cores, contentType, a) && Edge(cores, a, b)
    ensures Reachable(cores, contentType, b)
  {
    var w :| Walk(cores, contentType, w) && w[|w| - 1] == a;
    var longer := ExtendWalk(cores, contentType, w, b);
  }

  lemma ReachedFrom(cores: seq<Module>, contentType: string, m: Module)
    requires Reachable(cores, contentType, m)
    ensures m in cores
    ensures m.input == Some(contentType) || exists a :: Reachable(cores, contentType, a) && Edge(cores, a, m)
  {
    var w :| Walk(cores, contentType, w) && w[|w| - 1] == m;
    WalkEndsInCore(cores, contentType, w);
    if |w| > 1 {
      var init := w[..|w| - 1];
      assert Walk(cores, contentType, init);
      assert Reachable(cores, contentType, init[|init| - 1]);
      assert Edge(cores, w[|w| - 2], w[|w| - 1]);
    }
  }

  /**
    A plan starts from the enabled modules without a parent that read the content type, goes on to those that read what
    a planned one puts out, always later, and holds no other.
  */
  lemma PlanExactly(modules: seq<Module>, contentType: string, plan: seq<Stage>)
    requires IsPlan(modules, contentType, plan)
    ensures forall i :: 0 <= i < |plan| ==> plan[i].core in modules && StandsAlone(plan[i].core)
    ensures forall m <- modules :: StandsAlone(m) && m.input == Some(contentType) ==> InPlan(plan, m)
    ensures forall i, m :: 0 <= i < |plan| && m in modules && StandsAlone(m) && m.key != plan[i].core.key && m.input == plan[i].core.output ==>
              exists j :: i < j < |plan| && plan[j].core == m
    ensures forall j :: 0 <= j < |plan| && plan[j].core.input != Some(contentType) ==>
              exists i :: 0 <= i < j && plan[i].core.key != plan[j].core.key && plan[i].core.output == plan[j].core.input
  {
    hide Reachable, Cores, IsCore, StageOf;
    var cores := Cores(modules);
    forall m ensures m in cores <==> m in modules && StandsAlone(m) { CoresMeaning(modules, m); }
    forall i | 0 <= i < |plan| ensures plan[i].core in cores {
      ReachedFrom(cores, contentType, plan[i].core);
    }
    forall m <- modules | StandsAlone(m) && m.input == Some(contentType) ensures InPlan(plan, m) {
      StartsReach(cores, contentType, m);
    }
    forall i, m | 0 <= i < |plan| && m in modules && StandsAlone(m) && m.key != plan[i].core.key && m.input == plan[i].core.output
      ensures exists j :: i < j < |plan| && plan[j].core == m
    {
      FollowersReach(cores, contentType, plan[i].core, m);
      var j :| 0 <= j < |plan| && plan[j].core == m;
      assert Edge(cores, plan[i].core, plan[j].core);
    }
    forall j | 0 <= j < |plan| && plan[j].core.input != Some(contentType)
      ensures exists i :: 0 <= i < j && plan[i].core.key != plan[j].core.key && plan[i].core.output == plan[j].core.input
    {
      ReachedFrom(cores, contentType, plan[j].core);
      var a :| Reachable(cores, contentType, a) && Edge(cores, a, plan[j].core);
      var i :| 0 <= i < |plan| && plan[i].core == a;
      assert Edge(cores, plan[i].core, plan[j].core);
    }
  }

  /** A chain of enabled modules without a parent, each reading what another one before it puts out, that comes back. */
  ghost predicate Circle(modules: seq<Module>, contentType: string, w: seq<Module>, i: nat) {
    i < |w| - 1 && w[i] == w[|w| - 1] && w[0].input == Some(contentType) &&
    (forall m <- w :: m in modules && StandsAlone(m)) &&
    forall k :: 0 <= k < |w| - 1 ==> w[k].key != w[k + 1].key && w[k + 1].input == w[k].output
  }

  /** The planner refuses exactly where such a chain begins with the content type. */
  lemma CycleExactly(modules: seq<Module>, contentType: string)
    ensures Cyclic(Cores(modules), contentType) <==> exists w: seq<Module>, i: nat :: Circle(modules, contentType, w, i)
  {
    hide Cores, IsCore;
    var cores := Cores(modules);
    forall m ensures m in cores <==> m in modules && StandsAlone(m) { CoresMeaning(modules, m); }
    if Cyclic(cores, contentType) {
      var w: seq<Module>, i: nat :| Loops(cores, contentType, w, i);
      forall m <- w ensures m in cores {
        var k :| 0 <= k < |w| && w[k] == m;
        if k > 0 { assert Edge(cores, w[k - 1], w[k]); }
      }
      forall k | 0 <= k < |w| - 1 ensures w[k].key != w[k + 1].key && w[k + 1].input == w[k].output {
        assert Edge(cores, w[k], w[k + 1]);
      }
      assert Circle(modules, contentType, w, i);
    }
    if w: seq<Module>, i: nat :| Circle(modules, contentType, w, i) {
      assert w[0] in w && forall k :: 0 <= k < |w| ==> w[k] in w;
      assert Loops(cores, contentType, w, i);
    }
  }
}

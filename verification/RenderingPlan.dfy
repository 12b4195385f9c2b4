/** The rendering pipeline: a depth-first topological plan over format edges, with cycle detection. */
module RenderingPlan {
  import opened Basics
  import Sorting

  datatype Module = Module(
    key: string,
    isEnabled: bool,
    dependsOn: Option<string>,
    input: Option<string>,
    output: Option<string>,
    step: Option<string>,
    order: int)

  datatype Stage = Stage(core: Module, before: seq<Module>, after: seq<Module>)

  const HTML_CORE := "htmlCore"

  /** `module.isEnabled && !module.dependsOn`: null and the empty string are both falsy. */
  predicate IsCore(m: Module) {
    m.isEnabled && (m.dependsOn == None || m.dependsOn == Some(""))
  }

  function Select(modules: seq<Module>, keep: Module -> bool): seq<Module> {
    if modules == [] then []
    else if keep(modules[0]) then [modules[0]] + Select(modules[1..], keep)
    else Select(modules[1..], keep)
  }

  function Cores(modules: seq<Module>): seq<Module> {
    Select(modules, IsCore)
  }

  ghost predicate UniqueKeys(modules: seq<Module>) {
    forall i, j :: 0 <= i < j < |modules| ==> modules[i].key != modules[j].key
  }

  lemma {:induction false} SelectMeaning(modules: seq<Module>, keep: Module -> bool)
    ensures forall m :: m in Select(modules, keep) <==> m in modules && keep(m)
    ensures UniqueKeys(modules) ==> UniqueKeys(Select(modules, keep))
  {
    if modules != [] {
      SelectMeaning(modules[1..], keep);
      assert modules == [modules[0]] + modules[1..];
      if UniqueKeys(modules) {
        assert forall m <- modules[1..] :: m.key != modules[0].key;
      }
    }
  }

  // ----- the graph

  /** The output of `a` is the input of another core `b`. */
  predicate Edge(cores: seq<Module>, a: Module, b: Module) {
    a in cores && b in cores && b.key != a.key && b.input == a.output
  }

  /** A chain of cores that starts with one reading `contentType`. */
  ghost predicate Walk(cores: seq<Module>, contentType: string, w: seq<Module>) {
    w != [] && w[0] in cores && w[0].input == Some(contentType) &&
    forall i :: 0 <= i < |w| - 1 ==> Edge(cores, w[i], w[i + 1])
  }

  ghost predicate Reachable(cores: seq<Module>, contentType: string, m: Module) {
    exists w :: Walk(cores, contentType, w) && w[|w| - 1] == m
  }

  /** The walk comes back to a core it has already passed, by way of another one. */
  ghost predicate Loops(cores: seq<Module>, contentType: string, w: seq<Module>, i: nat) {
    Walk(cores, contentType, w) && i < |w| - 1 && w[i] == w[|w| - 1]
  }

  ghost predicate Cyclic(cores: seq<Module>, contentType: string) {
    exists w, i :: Loops(cores, contentType, w, i)
  }

  /** Every core comes after all cores it feeds: the order in which `visit` finishes. */
  ghost predicate FinishOrder(cores: seq<Module>, ordered: seq<Module>) {
    forall i, next :: 0 <= i < |ordered| && Edge(cores, ordered[i], next) ==> next in ordered[..i]
  }

  ghost function KeySet(modules: seq<Module>): set<string> {
    set m | m in modules :: m.key
  }

  lemma SameKeySameModule(modules: seq<Module>, a: Module, b: Module)
    requires UniqueKeys(modules) && a in modules && b in modules && a.key == b.key
    ensures a == b
  {
  }

  /** Along edges, positions in a finish order go down, so no walk inside it comes back. */
  lemma {:induction false} WalkDescends(cores: seq<Module>, ordered: seq<Module>, w: seq<Module>, p: nat)
    requires FinishOrder(cores, ordered) && w != [] && p < |ordered| && ordered[p] == w[0]
    requires forall i :: 0 <= i < |w| - 1 ==> Edge(cores, w[i], w[i + 1])
    ensures forall i :: 1 <= i < |w| ==> w[i] in ordered[..p]
    decreases |w|
  {
    if |w| > 1 {
      assert Edge(cores, w[0], w[1]);
      var q :| 0 <= q < p && ordered[q] == w[1];
      WalkDescends(cores, ordered, w[1..], q);
      forall i | 1 <= i < |w| ensures w[i] in ordered[..p] {
        if i > 1 {
          assert w[1..][i - 1] in ordered[..q];
          assert ordered[..q] == ordered[..p][..q];
        }
      }
    }
  }

  /** A finish order that holds every start core holds exactly the reachable ones, and there is no cycle. */
  lemma FinishOrderIsComplete(cores: seq<Module>, contentType: string, ordered: seq<Module>)
    requires FinishOrder(cores, ordered) && NoDup(ordered)
    requires forall m <- ordered :: Reachable(cores, contentType, m)
    requires forall m <- cores :: m.input == Some(contentType) ==> m in ordered
    ensures forall m :: m in ordered <==> Reachable(cores, contentType, m)
    ensures !Cyclic(cores, contentType)
  {
    forall m | Reachable(cores, contentType, m) ensures m in ordered {
      var w :| Walk(cores, contentType, w) && w[|w| - 1] == m;
      var p :| 0 <= p < |ordered| && ordered[p] == w[0];
      WalkDescends(cores, ordered, w, p);
      if |w| > 1 { assert w[|w| - 1] in ordered[..p]; }
    }
    if Cyclic(cores, contentType) {
      var w, i :| Loops(cores, contentType, w, i);
      LoopRefuted(cores, contentType, ordered, w, i);
    }
  }

  lemma LoopRefuted(cores: seq<Module>, contentType: string, ordered: seq<Module>, w: seq<Module>, i: nat)
    requires FinishOrder(cores, ordered) && NoDup(ordered)
    requires forall m <- cores :: m.input == Some(contentType) ==> m in ordered
    ensures !Loops(cores, contentType, w, i)
  {
    if Walk(cores, contentType, w) && i < |w| - 1 {
      var p :| 0 <= p < |ordered| && ordered[p] == w[0];
      WalkDescends(cores, ordered, w, p);
      var q :| 0 <= q < |ordered| && ordered[q] == w[i];
      WalkDescends(cores, ordered, w[i..], q);
      assert w[i..][|w| - 1 - i] == w[|w| - 1];
      var r :| 0 <= r < q && ordered[..q][r] == w[|w| - 1];
      assert ordered[r] != ordered[q];
    }
  }

  // ----- stages

  predicate IsChild(m: Module, core: Module) {
    m.isEnabled && m.dependsOn == Some(core.key)
  }

  function ChildOf(core: Module): Module -> bool {
    (m: Module) => IsChild(m, core)
  }

  function BeforeIn(core: Module): Module -> bool {
    (m: Module) => core.key != HTML_CORE || !IsPost(m)
  }

  function PostStep(): Module -> bool {
    (m: Module) => IsPost(m)
  }

  function HasOrder(order: int): Module -> bool {
    (m: Module) => m.order == order
  }

  function Children(modules: seq<Module>, core: Module): seq<Module> {
    Select(modules, ChildOf(core))
  }

  predicate IsPost(m: Module) {
    m.step == Some("post")
  }

  function ByOrder(): Sorting.Less<Module> {
    (a: Module, b: Module) => a.order < b.order
  }

  /** `sort((a, b) => a.order - b.order)`, which is stable. */
  function SortByOrder(modules: seq<Module>): seq<Module> {
    Sorting.Sort(modules, ByOrder())
  }

  ghost predicate SortedByOrder(modules: seq<Module>) {
    forall i, j :: 0 <= i < j < |modules| ==> modules[i].order <= modules[j].order
  }

  function WithOrder(modules: seq<Module>, order: int): seq<Module> {
    Select(modules, HasOrder(order))
  }

  lemma {:induction false} TiedIsSameOrder(modules: seq<Module>, a: Module)
    ensures Sorting.TiedWith(modules, ByOrder(), a) == WithOrder(modules, a.order)
  {
    if modules != [] { TiedIsSameOrder(modules[1..], a); }
  }

  /** A stable sort: sorted, a permutation, and equal orders keep their sequence. */
  lemma SortMeaning(modules: seq<Module>, order: int)
    ensures SortedByOrder(SortByOrder(modules)) && multiset(SortByOrder(modules)) == multiset(modules)
    ensures WithOrder(SortByOrder(modules), order) == WithOrder(modules, order)
  {
    Sorting.SortMeaning(modules, ByOrder());
    if modules != [] {
      var a := modules[0].(order := order);
      Sorting.SortStable(modules, ByOrder(), a);
      TiedIsSameOrder(modules, a);
      TiedIsSameOrder(SortByOrder(modules), a);
    }
  }

  function StageOf(modules: seq<Module>, core: Module): Stage {
    var children := Children(modules, core);
    Stage(
      core,
      Select(children, BeforeIn(core)),
      if core.key == HTML_CORE then SortByOrder(Select(children, PostStep())) else [])
  }

  lemma {:induction false} SelectSplits(modules: seq<Module>, keep: Module -> bool, other: Module -> bool)
    requires forall m :: keep(m) <==> !other(m)
    ensures multiset(Select(modules, keep)) + multiset(Select(modules, other)) == multiset(modules)
  {
    if modules != [] {
      SelectSplits(modules[1..], keep, other);
      assert modules == [modules[0]] + modules[1..];
    }
  }

  lemma {:induction false} SelectAll(modules: seq<Module>, keep: Module -> bool)
    requires forall m :: keep(m)
    ensures Select(modules, keep) == modules
  {
    if modules != [] { SelectAll(modules[1..], keep); }
  }

  lemma MultisetMembers(a: seq<Module>, b: seq<Module>)
    requires multiset(a) == multiset(b)
    ensures forall m :: m in a <==> m in b
  {
    assert forall m :: m in a <==> m in multiset(a);
    assert forall m :: m in b <==> m in multiset(b);
  }

  /** Every enabled child runs exactly once in its core's stage. */
  lemma ChildrenRunOnce(modules: seq<Module>, core: Module)
    ensures var stage := StageOf(modules, core);
            multiset(stage.before) + multiset(stage.after) == multiset(Children(modules, core))
  {
    var children := Children(modules, core);
    if core.key == HTML_CORE {
      SelectSplits(children, BeforeIn(core), PostStep());
      SortMeaning(Select(children, PostStep()), 0);
    } else {
      SelectAll(children, BeforeIn(core));
    }
  }

  /** Only the HTML core's post steps run after it, in ascending order; equal orders keep module order. */
  lemma StageMeaning(modules: seq<Module>, core: Module, m: Module, order: int)
    ensures var stage := StageOf(modules, core);
            (m in stage.before <==> m in modules && IsChild(m, core) && !(core.key == HTML_CORE && IsPost(m))) &&
            (m in stage.after <==> m in modules && IsChild(m, core) && core.key == HTML_CORE && IsPost(m)) &&
            SortedByOrder(stage.after)
    ensures core.key == HTML_CORE ==>
              WithOrder(StageOf(modules, core).after, order) == WithOrder(Select(Children(modules, core), PostStep()), order)
  {
    hide Select, SortByOrder, SortedByOrder, UniqueKeys;
    var children := Children(modules, core);
    SelectMeaning(modules, ChildOf(core));
    SelectMeaning(children, BeforeIn(core));
    SelectMeaning(children, PostStep());
    var post := Select(children, PostStep());
    SortMeaning(post, order);
    MultisetMembers(SortByOrder(post), post);
    if core.key != HTML_CORE { assert SortedByOrder([]) by { NothingSorted(); } }
  }

  lemma NothingSorted()
    ensures SortedByOrder([])
  {
  }

  // ----- the planner

  class Planner {
    const cores: seq<Module>
    const contentType: string
    var ordered: seq<Module>
    var visited: set<string>
    var visiting: set<string>

    ghost predicate Valid()
      reads this
    {
      UniqueKeys(cores) && NoDup(ordered) && FinishOrder(cores, ordered) &&
      visited == KeySet(ordered) && visited !! visiting &&
      (forall m <- ordered :: m in cores && Reachable(cores, contentType, m))
    }

    constructor (cores: seq<Module>, contentType: string)
      requires UniqueKeys(cores)
      ensures Valid() && this.cores == cores && this.contentType == contentType
      ensures ordered == [] && visiting == {}
    {
      this.cores, this.contentType := cores, contentType;
      ordered, visited, visiting := [], {}, {};
    }

    ghost function Unfinished(): set<string>
      reads this
    {
      KeySet(cores) - visited - visiting
    }

    /**
      One call of the recursive `visit`. `walk` is how the recursion got here; a throw
      (`ok` false) comes with a walk that loops.
    */
    method Visit(core: Module, ghost walk: seq<Module>) returns (ok: bool, ghost bad: seq<Module>, ghost at: nat)
      requires Valid() && Walk(cores, contentType, walk) && walk[|walk| - 1] == core
      requires visiting == KeySet(walk[..|walk| - 1])
      modifies this
      ensures !ok ==> Loops(cores, contentType, bad, at)
      ensures ok ==> Valid() && visiting == old(visiting) && old(ordered) <= ordered && core in ordered
      decreases |Unfinished()|, 0
    {
      hide FinishOrder, NoDup, Walk, Reachable, Loops, UniqueKeys, Edge, KeySet;
      bad, at := [], 0;
      WalkEndsInCore(cores, contentType, walk);
      if core.key in visiting {
        at := EarlierVisit(walk);
        return false, walk, at;
      }
      if core.key in visited {
        VisitedIsOrdered(core);
        return true, bad, at;
      }
      KeyOfCore(core);
      UnfinishedShrinks(visited, visiting, core.key);
      visiting := visiting + {core.key};
      KeySetOfWalk(walk);
      ok, bad, at := VisitSuccessors(core, walk);
      if ok {
        WalkReaches(cores, contentType, walk);
        Finish(core);
      }
    }

    method Finish(core: Module)
      requires Valid() && core in cores && core.key in visiting && Reachable(cores, contentType, core)
      requires forall j :: 0 <= j < |cores| && Edge(cores, core, cores[j]) ==> cores[j] in ordered
      modifies this
      ensures Valid() && visiting == old(visiting) - {core.key} && ordered == old(ordered) + [core]
    {
      hide FinishOrder, NoDup, Reachable, UniqueKeys, KeySet, Edge;
      FinishStep(cores, ordered, core);
      visiting := visiting - {core.key};
      ordered := ordered + [core];
      visited := visited + {core.key};
    }

    /** The loop of `visit` over the cores that read this core's output. */
    method VisitSuccessors(core: Module, ghost walk: seq<Module>) returns (ok: bool, ghost bad: seq<Module>, ghost at: nat)
      requires Valid() && Walk(cores, contentType, walk) && walk[|walk| - 1] == core && core in cores
      requires visiting == KeySet(walk)
      modifies this
      ensures !ok ==> Loops(cores, contentType, bad, at)
      ensures ok ==> Valid() && visiting == old(visiting) && old(ordered) <= ordered
      ensures ok ==> forall j :: 0 <= j < |cores| && Edge(cores, core, cores[j]) ==> cores[j] in ordered
      decreases |Unfinished()|, 1
    {
      hide FinishOrder, NoDup, Walk, Reachable, Loops, UniqueKeys, KeySet;
      ok, bad, at := true, [], 0;
      for i := 0 to |cores|
        invariant ok && Valid() && visiting == old(visiting) && old(ordered) <= ordered
        invariant forall j :: 0 <= j < i && Edge(cores, core, cores[j]) ==> cores[j] in ordered
      {
        var next := cores[i];
        if next.key != core.key && next.input == core.output {
          ghost var longer := ExtendWalk(cores, contentType, walk, next);
          PrefixKeys(old(ordered), ordered);
          SubsetSize(Unfinished(), old(Unfinished()));
          ok, bad, at := Visit(next, longer);
          if !ok {
            return;
          }
        }
      }
    }

    lemma UnfinishedShrinks(finished: set<string>, open: set<string>, key: string)
      requires key in KeySet(cores) && key !in finished && key !in open
      ensures |KeySet(cores) - finished - (open + {key})| < |KeySet(cores) - finished - open|
    {
      var bigger := KeySet(cores) - finished - open;
      assert KeySet(cores) - finished - (open + {key}) == bigger - {key};
    }

    lemma KeyOfCore(core: Module)
      requires core in cores
      ensures core.key in KeySet(cores)
    {
    }

    lemma VisitedIsOrdered(core: Module)
      requires Valid() && core in cores && core.key in visited
      ensures core in ordered
    {
      hide FinishOrder, NoDup, Reachable;
      var m :| m in ordered && m.key == core.key;
      SameKeySameModule(cores, m, core);
    }

    lemma EarlierVisit(walk: seq<Module>) returns (at: nat)
      requires UniqueKeys(cores) && Walk(cores, contentType, walk)
      requires walk[|walk| - 1].key in KeySet(walk[..|walk| - 1])
      ensures Loops(cores, contentType, walk, at)
    {
      var core := walk[|walk| - 1];
      var m :| m in walk[..|walk| - 1] && m.key == core.key;
      var i :| 0 <= i < |walk| - 1 && walk[i] == m;
      WalkEndsInCore(cores, contentType, walk);
      WalkEndsInCore(cores, contentType, walk[..i + 1]);
      SameKeySameModule(cores, m, core);
      at := i;
    }
  }

  lemma ExtendWalk(cores: seq<Module>, contentType: string, w: seq<Module>, next: Module) returns (longer: seq<Module>)
    requires Walk(cores, contentType, w) && Edge(cores, w[|w| - 1], next)
    ensures longer == w + [next] && Walk(cores, contentType, longer) && longer[..|longer| - 1] == w
  {
    longer := w + [next];
  }

  lemma PrefixKeys(a: seq<Module>, b: seq<Module>)
    requires a <= b
    ensures KeySet(a) <= KeySet(b)
  {
    forall m <- a ensures m in b {
      var i :| 0 <= i < |a| && a[i] == m;
      assert b[i] == m;
    }
  }

  lemma WalkReaches(cores: seq<Module>, contentType: string, w: seq<Module>)
    requires Walk(cores, contentType, w)
    ensures Reachable(cores, contentType, w[|w| - 1])
  {
  }

  lemma SubsetSize<T>(a: set<T>, b: set<T>)
    requires a <= b
    ensures |a| <= |b|
  {
    assert b == a + (b - a);
  }

  lemma WalkEndsInCore(cores: seq<Module>, contentType: string, w: seq<Module>)
    requires Walk(cores, contentType, w)
    ensures w != [] && w[|w| - 1] in cores
  {
    if |w| > 1 { assert Edge(cores, w[|w| - 2], w[|w| - 1]); }
  }

  lemma KeySetOfWalk(walk: seq<Module>)
    requires walk != []
    ensures KeySet(walk) == KeySet(walk[..|walk| - 1]) + {walk[|walk| - 1].key}
  {
    assert walk == walk[..|walk| - 1] + [walk[|walk| - 1]];
  }

  /** A core whose successors are all finished may finish. */
  lemma FinishStep(cores: seq<Module>, ordered: seq<Module>, core: Module)
    requires FinishOrder(cores, ordered) && NoDup(ordered) && core.key !in KeySet(ordered)
    requires forall j :: 0 <= j < |cores| && Edge(cores, core, cores[j]) ==> cores[j] in ordered
    ensures FinishOrder(cores, ordered + [core]) && NoDup(ordered + [core])
    ensures KeySet(ordered + [core]) == KeySet(ordered) + {core.key}
  {
    var all := ordered + [core];
    forall i, next | 0 <= i < |all| && Edge(cores, all[i], next) ensures next in all[..i] {
      if i < |ordered| {
        assert next in ordered[..i];
        assert all[..i] == ordered[..i];
      } else {
        var j :| 0 <= j < |cores| && cores[j] == next;
        assert all[..i] == ordered;
      }
    }
    assert forall m <- ordered :: m.key in KeySet(ordered);
  }

  // ----- the whole plan

  function StagesOf(modules: seq<Module>, ordered: seq<Module>): seq<Stage> {
    seq(|ordered|, i requires 0 <= i < |ordered| => StageOf(modules, ordered[|ordered| - 1 - i]))
  }

  /** What a plan promises: every reachable core once, sources before consumers, each with its stage. */
  ghost predicate IsPlan(modules: seq<Module>, contentType: string, plan: seq<Stage>) {
    (forall i :: 0 <= i < |plan| ==> plan[i] == StageOf(modules, plan[i].core)) &&
    (forall i, j :: 0 <= i < j < |plan| ==> plan[i].core != plan[j].core) &&
    (forall m :: Reachable(Cores(modules), contentType, m) <==> exists i :: 0 <= i < |plan| && plan[i].core == m) &&
    (forall i, j :: 0 <= i < |plan| && 0 <= j < |plan| && Edge(Cores(modules), plan[i].core, plan[j].core) ==> i < j)
  }

  lemma ReversedIsPlan(modules: seq<Module>, contentType: string, ordered: seq<Module>)
    requires NoDup(ordered) && FinishOrder(Cores(modules), ordered)
    requires forall m :: m in ordered <==> Reachable(Cores(modules), contentType, m)
    ensures IsPlan(modules, contentType, StagesOf(modules, ordered))
  {
    hide Reachable, StageOf, Select;
    var plan, n := StagesOf(modules, ordered), |ordered|;
    assert forall i :: 0 <= i < n ==> plan[i].core == ordered[n - 1 - i] by { StageCores(modules, ordered); }
    forall m | Reachable(Cores(modules), contentType, m) ensures exists i :: 0 <= i < |plan| && plan[i].core == m {
      var j :| 0 <= j < n && ordered[j] == m;
      assert plan[n - 1 - j].core == m;
    }
    forall i, j | 0 <= i < n && 0 <= j < n && Edge(Cores(modules), plan[i].core, plan[j].core) ensures i < j {
      assert ordered[n - 1 - j] in ordered[..n - 1 - i];
      var k :| 0 <= k < n - 1 - i && ordered[k] == ordered[n - 1 - j];
    }
  }

  lemma StageCores(modules: seq<Module>, ordered: seq<Module>)
    ensures |StagesOf(modules, ordered)| == |ordered|
    ensures forall i :: 0 <= i < |ordered| ==>
              StagesOf(modules, ordered)[i].core == ordered[|ordered| - 1 - i] &&
              StagesOf(modules, ordered)[i] == StageOf(modules, ordered[|ordered| - 1 - i])
  {
    hide Select, SortByOrder;
    forall i | 0 <= i < |ordered|
      ensures StagesOf(modules, ordered)[i].core == ordered[|ordered| - 1 - i]
    {
      assert StagesOf(modules, ordered)[i] == StageOf(modules, ordered[|ordered| - 1 - i]);
    }
  }

  /** Throws (None) exactly when a cycle is reachable from the content type; otherwise returns a plan. */
  method BuildRenderingPlan(modules: seq<Module>, contentType: string) returns (plan: Option<seq<Stage>>)
    requires UniqueKeys(modules)
    ensures plan.None? <==> Cyclic(Cores(modules), contentType)
    ensures plan.Some? ==> IsPlan(modules, contentType, plan.value)
  {
    hide Reachable, StageOf, Select, IsPlan, Loops, FinishOrder;
    var cores := Cores(modules);
    SelectMeaning(modules, IsCore);
    var planner := new Planner(cores, contentType);
    for i := 0 to |cores|
      invariant planner.Valid() && planner.visiting == {} && planner.cores == cores && planner.contentType == contentType
      invariant forall j :: 0 <= j < i && cores[j].input == Some(contentType) ==> cores[j] in planner.ordered
    {
      if cores[i].input == Some(contentType) {
        assert [cores[i]][..0] == [];
        var ok;
        ghost var bad, at;
        ok, bad, at := planner.Visit(cores[i], [cores[i]]);
        if !ok {
          assert Cyclic(cores, contentType);
          return None;
        }
      }
    }
    FinishOrderIsComplete(cores, contentType, planner.ordered);
    ReversedIsPlan(modules, contentType, planner.ordered);
    return Some(StagesOf(modules, planner.ordered));
  }
}

/**
  The history comparison renderer: a Web Worker behind a queue, a main-thread fallback,
  two caches and a timeout per job, all of which must agree with one plain function.
  The diff libraries are a parameter; a throw is None.
*/
module HistoryDiff {
  import opened Basics
  import opened LruCache

  const MAX_CHARACTERS := 1_000_000
  const MAX_LINES := 100_000
  const MAX_RENDERED_LINES := 4_000
  const MAX_MATCHED_LINES := 200
  const OUTCOMES: nat := 8
  const PATCHES: nat := 6

  datatype Format = LineByLine | SideBySide

  datatype Request = Request(key: string, path: string, source: string, target: string, format: Format)

  datatype Outcome = Rendered(html: string) | Empty | Limit | Failed | TimedOut

  datatype Patch = Text(patch: string, lines: nat) | NoPatch(reason: Outcome)

  datatype Created = Threw | Undefined | Made(patch: string)

  datatype Libraries = Libraries(
    createPatch: (string, string, string) -> Created,
    html: (string, bool, Format) -> Option<string>)

  // ----- the uncached engine

  function Newlines(text: string): nat {
    if text == "" then 0 else Newlines(text[1..]) + if text[0] == '\n' then 1 else 0
  }

  function CountLines(text: string): nat {
    if text == "" then 0 else 1 + Newlines(text)
  }

  predicate ExceedsLimits(source: string, target: string) {
    |source| + |target| > MAX_CHARACTERS || CountLines(source) + CountLines(target) > MAX_LINES
  }

  function ComputePatch(lib: Libraries, path: string, source: string, target: string): Patch {
    if source == target then NoPatch(Empty)
    else if ExceedsLimits(source, target) then NoPatch(Limit)
    else
      match lib.createPatch("/" + path, source, target)
      case Threw => NoPatch(Failed)
      case Undefined => NoPatch(Limit)
      case Made(patch) => if CountLines(patch) > MAX_RENDERED_LINES then NoPatch(Limit) else Text(patch, CountLines(patch))
  }

  function RenderPatch(lib: Libraries, patch: Patch, format: Format): Outcome {
    match patch
    case NoPatch(reason) => reason
    case Text(text, lines) =>
      match lib.html(text, lines <= MAX_MATCHED_LINES, format)
      case Some(html) => Rendered(html)
      case None => Failed
  }

  function Uncached(lib: Libraries, r: Request): Outcome {
    RenderPatch(lib, ComputePatch(lib, r.path, r.source, r.target), r.format)
  }

  // ----- keys identify contents

  function FormatName(format: Format): string {
    match format case LineByLine => "line-by-line" case SideBySide => "side-by-side"
  }

  function CacheKey(r: Request): string {
    r.key + "|" + FormatName(r.format)
  }

  /** The assumption on callers: a key stands for one path and one pair of texts. */
  ghost predicate Coherent(contents: string -> (string, string, string), r: Request) {
    contents(r.key) == (r.path, r.source, r.target)
  }

  lemma CacheKeyInjective(a: Request, b: Request)
    requires CacheKey(a) == CacheKey(b)
    ensures a.key == b.key && a.format == b.format
  {
    var x, y := CacheKey(a), CacheKey(b);
    assert |FormatName(a.format)| == |FormatName(b.format)| == 12;
    assert x[..|x| - 13] == a.key && y[..|y| - 13] == b.key;
    assert x[|x| - 12] == FormatName(a.format)[0] && y[|y| - 12] == FormatName(b.format)[0];
  }

  lemma SameKeySameAnswer(lib: Libraries, contents: string -> (string, string, string), a: Request, b: Request)
    requires Coherent(contents, a) && Coherent(contents, b) && CacheKey(a) == CacheKey(b)
    ensures Uncached(lib, a) == Uncached(lib, b)
  {
    CacheKeyInjective(a, b);
  }

  // ----- the caching engine

  type PatchCache = Entries<string, Patch>

  /** Every cached patch is the one its key's contents would give. */
  ghost predicate PatchesTrue(lib: Libraries, contents: string -> (string, string, string), m: PatchCache) {
    forall e <- m :: var c := contents(e.0); e.1 == ComputePatch(lib, c.0, c.1, c.2)
  }

  function PatchFor(lib: Libraries, m: PatchCache, r: Request): Patch {
    match Find(m, r.key) case Some(patch) => patch case None => ComputePatch(lib, r.path, r.source, r.target)
  }

  function Compare(lib: Libraries, m: PatchCache, r: Request): (Outcome, PatchCache) {
    var patch := PatchFor(lib, m, r);
    (RenderPatch(lib, patch, r.format), Touch(m, r.key, patch, PATCHES))
  }

  lemma CompareIsUncached(lib: Libraries, contents: string -> (string, string, string), m: PatchCache, r: Request)
    requires PatchesTrue(lib, contents, m) && Coherent(contents, r)
    ensures Compare(lib, m, r).0 == Uncached(lib, r)
    ensures PatchesTrue(lib, contents, Compare(lib, m, r).1) && |Compare(lib, m, r).1| <= PATCHES
  {
    FindMeaning(m, r.key);
    TouchMeaning(m, r.key, PatchFor(lib, m, r), PATCHES);
  }

  // ----- the renderer's state

  datatype Pending = Pending(id: nat, request: Request)

  /** What one call of render() was given: an outcome, the promise of a job, or its own inline run. */
  datatype Reply = Told(outcome: Outcome) | Waiting(id: nat) | Inline

  datatype Call = Call(request: Request, reply: Reply)

  /** An inline run finishes a pending job, or answers one call directly. */
  datatype InlineRun = ForJob(id: nat, request: Request) | ForCall(call: nat, request: Request)

  datatype WorkerSide = WorkerSide(jobs: seq<Pending>, answers: seq<(nat, Outcome)>, patches: PatchCache)

  datatype State = State(
    outcomes: Entries<string, Outcome>,
    pending: seq<Pending>,
    timers: set<nat>,
    inflight: map<string, nat>,
    results: map<nat, Outcome>,
    issued: seq<Request>,          // issued[id - 1] is the request of job id
    calls: seq<Call>,
    workers: seq<WorkerSide>,
    worker: Option<nat>,
    unavailable: bool,
    answered: bool,
    inline: set<InlineRun>,
    inlinePatches: PatchCache,
    disposed: bool)

  const INITIAL := State([], [], {}, map[], map[], [], [], [], None, false, false, {}, [], false)

  datatype Event =
    | Peeked(request: Request)
    | RenderCalled(request: Request, canCreate: bool, canPost: bool)
    | WorkerRan(w: nat, threw: bool)
    | Answered(w: nat)
    | Babbled(w: nat)
    | WorkerFailed(w: nat)
    | TimerFired(id: nat)
    | InlineFinished(run: InlineRun, loaded: bool)
    | Released(id: nat)
    | DisposeCalled

  // ----- steps

  function Remembered(m: Entries<string, Outcome>, key: string, outcome: Outcome): Entries<string, Outcome> {
    if outcome == TimedOut || outcome == Failed then m else Touch(m, key, outcome, OUTCOMES)
  }

  function Remember(s: State, key: string, outcome: Outcome): State {
    s.(outcomes := Remembered(s.outcomes, key, outcome))
  }

  function Lookup(pending: seq<Pending>, id: nat): Option<Request> {
    if pending == [] then None else if pending[0].id == id then Some(pending[0].request) else Lookup(pending[1..], id)
  }

  function Discard(pending: seq<Pending>, id: nat): seq<Pending> {
    if pending == [] then [] else if pending[0].id == id then pending[1..] else [pending[0]] + Discard(pending[1..], id)
  }

  /** Resolving a job's promise tells every call that waits for it. */
  function Tell(calls: seq<Call>, id: nat, outcome: Outcome): seq<Call> {
    seq(|calls|, i requires 0 <= i < |calls| =>
      if calls[i].reply == Waiting(id) then calls[i].(reply := Told(outcome)) else calls[i])
  }

  function Settle(s: State, id: nat, outcome: Outcome): State {
    match Lookup(s.pending, id)
    case None => s
    case Some(request) =>
      s.(pending := Discard(s.pending, id), timers := s.timers - {id},
         outcomes := Remembered(s.outcomes, CacheKey(request), outcome),
         results := s.results[id := outcome], calls := Tell(s.calls, id, outcome))
  }

  function SettleAll(s: State, ids: seq<nat>, outcome: Outcome): State
    decreases |ids|
  {
    if ids == [] then s else SettleAll(Settle(s, ids[0], outcome), ids[1..], outcome)
  }

  function PendingIds(pending: seq<Pending>): seq<nat> {
    seq(|pending|, i requires 0 <= i < |pending| => pending[i].id)
  }

  function StopWorker(s: State, outcome: Outcome): State {
    SettleAll(s.(worker := None), PendingIds(s.pending), outcome)
  }

  function StartWorker(s: State, canCreate: bool): State {
    if s.worker.Some? || s.unavailable then s
    else if !canCreate then s.(unavailable := true)
    else s.(workers := s.workers + [WorkerSide([], [], [])], worker := Some(|s.workers|), answered := false)
  }

  function FailWorker(s: State, w: nat): State {
    if s.worker != Some(w) then s
    else if s.answered then StopWorker(s, Failed)
    else
      s.(unavailable := true, worker := None,
         inline := s.inline + set p | p in s.pending :: ForJob(p.id, p.request))
  }

  function PeekStep(s: State, r: Request): State {
    match Find(s.outcomes, CacheKey(r))
    case None => s
    case Some(outcome) => s.(outcomes := Touch(s.outcomes, CacheKey(r), outcome, OUTCOMES))
  }

  function Reply1(s: State, r: Request, reply: Reply): State {
    s.(calls := s.calls + [Call(r, reply)])
  }

  /** A new job, pending under its timer. */
  function Enroll(s: State, r: Request): State {
    var id := |s.issued| + 1;
    s.(issued := s.issued + [r], pending := s.pending + [Pending(id, r)], timers := s.timers + {id})
  }

  /** postMessage, which may throw. */
  function Send(s: State, w: nat, job: Pending, canPost: bool): State
    requires w < |s.workers|
  {
    if canPost then s.(workers := s.workers[w := s.workers[w].(jobs := s.workers[w].jobs + [job])])
    else Settle(s, job.id, Failed)
  }

  function Issue(s: State, w: nat, r: Request, canPost: bool): State
    requires w < |s.workers|
  {
    var id := |s.issued| + 1;
    var u := Send(Enroll(s, r), w, Pending(id, r), canPost);
    u.(inflight := u.inflight[CacheKey(r) := id])
  }

  function JoinOf(s: State, id: nat): Reply {
    if id in s.results then Told(s.results[id]) else Waiting(id)
  }

  function RenderInWorker(s: State, w: nat, r: Request, canPost: bool): State
    requires w < |s.workers|
  {
    if CacheKey(r) in s.inflight then Reply1(s, r, JoinOf(s, s.inflight[CacheKey(r)]))
    else
      var t := Issue(s, w, r, canPost);
      Reply1(t, r, JoinOf(t, |s.issued| + 1))
  }

  function RenderStep(s: State, r: Request, canCreate: bool, canPost: bool): State {
    if s.disposed then Reply1(s, r, Told(Failed))
    else
      var cached := Find(s.outcomes, CacheKey(r));
      var t := PeekStep(s, r);
      if cached.Some? then Reply1(t, r, Told(cached.value))
      else if r.source == r.target then Reply1(Remember(t, CacheKey(r), Empty), r, Told(Empty))
      else if ExceedsLimits(r.source, r.target) then Reply1(Remember(t, CacheKey(r), Limit), r, Told(Limit))
      else
        var u := StartWorker(t, canCreate);
        if u.worker.None? || u.worker.value >= |u.workers| then
          Reply1(u.(inline := u.inline + {ForCall(|u.calls|, r)}), r, Inline)
        else RenderInWorker(u, u.worker.value, r, canPost)
  }

  function RunWorker(lib: Libraries, s: State, w: nat, threw: bool): State
    requires w < |s.workers| && s.workers[w].jobs != []
  {
    var side := s.workers[w];
    var job := side.jobs[0];
    var (outcome, patches) := Compare(lib, side.patches, job.request);
    var side' := side.(jobs := side.jobs[1..], patches := patches,
                       answers := side.answers + [(job.id, if threw then Failed else outcome)]);
    s.(workers := s.workers[w := side'])
  }

  function TakeAnswer(s: State, w: nat): State
    requires w < |s.workers| && s.workers[w].answers != []
  {
    var side := s.workers[w];
    var t := s.(workers := s.workers[w := side.(answers := side.answers[1..])]);
    if s.worker != Some(w) then t
    else Settle(t.(answered := true), side.answers[0].0, side.answers[0].1)
  }

  function FireTimer(s: State, id: nat): State {
    if Lookup(s.pending, id).None? then s.(timers := s.timers - {id}) else StopWorker(s, TimedOut)
  }

  function FinishInline(lib: Libraries, s: State, run: InlineRun, loaded: bool): State {
    var (outcome, patches) := Compare(lib, s.inlinePatches, run.request);
    var result := if loaded then outcome else Failed;
    var t := s.(inline := s.inline - {run}, inlinePatches := if loaded then patches else []);
    match run
    case ForJob(id, _) => Settle(t, id, result)
    case ForCall(call, r) =>
      var u := Remember(t, CacheKey(r), result);
      if call < |u.calls| then u.(calls := u.calls[call := u.calls[call].(reply := Told(result))]) else u
  }

  function Release(s: State, id: nat): State
    requires 0 < id <= |s.issued|
  {
    var key := CacheKey(s.issued[id - 1]);
    if key in s.inflight && s.inflight[key] == id then s.(inflight := s.inflight - {key}) else s
  }

  predicate Enabled(s: State, e: Event) {
    match e
    case WorkerRan(w, _) => w < |s.workers| && s.workers[w].jobs != []
    case Answered(w) => w < |s.workers| && s.workers[w].answers != []
    case TimerFired(id) => id in s.timers
    case InlineFinished(run, _) => run in s.inline
    case Released(id) => 0 < id <= |s.issued| && id in s.results
    case _ => true
  }

  function Step(lib: Libraries, s: State, e: Event): State
    requires Enabled(s, e)
  {
    match e
    case Peeked(r) => PeekStep(s, r)
    case RenderCalled(r, canCreate, canPost) => RenderStep(s, r, canCreate, canPost)
    case WorkerRan(w, threw) => RunWorker(lib, s, w, threw)
    case Answered(w) => TakeAnswer(s, w)
    case Babbled(w) => if s.worker == Some(w) then s.(answered := true) else s
    case WorkerFailed(w) => FailWorker(s, w)
    case TimerFired(id) => FireTimer(s, id)
    case InlineFinished(run, loaded) => FinishInline(lib, s, run, loaded)
    case Released(id) => Release(s, id)
    case DisposeCalled => StopWorker(s, Failed).(disposed := true, outcomes := [])
  }

  // ----- invariants

  /** A failure or a timeout says nothing; anything else is the plain function's answer. */
  predicate Honest(lib: Libraries, r: Request, o: Outcome) {
    o == Failed || o == TimedOut || o == Uncached(lib, r)
  }

  ghost predicate OutcomesTrue(lib: Libraries, contents: string -> (string, string, string), m: Entries<string, Outcome>) {
    |m| <= OUTCOMES &&
    forall e <- m :: e.1 != Failed && e.1 != TimedOut &&
      forall r :: Coherent(contents, r) && CacheKey(r) == e.0 ==> Uncached(lib, r) == e.1
  }

  ghost predicate Caches(lib: Libraries, contents: string -> (string, string, string), s: State) {
    OutcomesTrue(lib, contents, s.outcomes) &&
    PatchesTrue(lib, contents, s.inlinePatches) && |s.inlinePatches| <= PATCHES &&
    forall side <- s.workers :: PatchesTrue(lib, contents, side.patches) && |side.patches| <= PATCHES
  }

  predicate IsJob(s: State, id: nat, r: Request) {
    0 < id <= |s.issued| && s.issued[id - 1] == r
  }

  /** Jobs, answers and results speak of the requests they were issued for. */
  ghost predicate Jobs(lib: Libraries, contents: string -> (string, string, string), s: State) {
    (forall r <- s.issued :: Coherent(contents, r)) &&
    (forall side <- s.workers :: forall job <- side.jobs :: IsJob(s, job.id, job.request)) &&
    (forall side <- s.workers :: forall a <- side.answers :: 0 < a.0 <= |s.issued| && Honest(lib, s.issued[a.0 - 1], a.1)) &&
    (forall id <- s.results :: 0 < id <= |s.issued| && Honest(lib, s.issued[id - 1], s.results[id]))
  }

  /** Every job is pending under its timer, or has its one result; pending jobs own their cache keys. */
  ghost predicate Ledger(s: State) {
    (forall p <- s.pending :: IsJob(s, p.id, p.request) && p.id !in s.results && p.id in s.timers) &&
    (forall i, j :: 0 <= i < j < |s.pending| ==> s.pending[i].id != s.pending[j].id) &&
    (forall id <- s.timers :: exists p <- s.pending :: p.id == id) &&
    (forall id: nat :: 0 < id <= |s.issued| && id !in s.results ==> id in s.timers) &&
    (forall key <- s.inflight :: 0 < s.inflight[key] <= |s.issued| && CacheKey(s.issued[s.inflight[key] - 1]) == key) &&
    (forall p <- s.pending :: CacheKey(p.request) in s.inflight && s.inflight[CacheKey(p.request)] == p.id)
  }

  ghost predicate CallTrue(lib: Libraries, contents: string -> (string, string, string), s: State, c: Call) {
    Coherent(contents, c.request) &&
    match c.reply
    case Told(o) => Honest(lib, c.request, o)
    case Waiting(id) => 0 < id <= |s.issued| && id !in s.results && CacheKey(s.issued[id - 1]) == CacheKey(c.request)
    case Inline => true
  }

  ghost predicate RunTrue(s: State, run: InlineRun) {
    match run
    case ForJob(id, r) => IsJob(s, id, r)
    case ForCall(call, r) => call < |s.calls| && s.calls[call] == Call(r, Inline)
  }

  ghost predicate Callers(lib: Libraries, contents: string -> (string, string, string), s: State) {
    (forall c <- s.calls :: CallTrue(lib, contents, s, c)) &&
    (forall run <- s.inline :: RunTrue(s, run))
  }

  /** A pending job has a worker or an inline run working on it. */
  ghost predicate Served(s: State) {
    (s.worker.Some? ==> s.worker.value < |s.workers|) &&
    (forall p <- s.pending :: s.worker.Some? || (s.unavailable && ForJob(p.id, p.request) in s.inline))
  }

  ghost predicate Sound(lib: Libraries, contents: string -> (string, string, string), s: State) {
    Caches(lib, contents, s) && Jobs(lib, contents, s) && Ledger(s) && Callers(lib, contents, s)
  }

  // ----- remembering

  lemma TouchOutcome(lib: Libraries, contents: string -> (string, string, string), m: Entries<string, Outcome>, r: Request, o: Outcome)
    requires OutcomesTrue(lib, contents, m) && Coherent(contents, r)
    requires o == Uncached(lib, r) && o != Failed && o != TimedOut
    ensures OutcomesTrue(lib, contents, Touch(m, CacheKey(r), o, OUTCOMES))
  {
    hide Coherent;
    TouchMeaning(m, CacheKey(r), o, OUTCOMES);
    forall q | Coherent(contents, q) && CacheKey(q) == CacheKey(r) ensures Uncached(lib, q) == o {
      SameKeySameAnswer(lib, contents, q, r);
    }
  }

  lemma RememberKeeps(lib: Libraries, contents: string -> (string, string, string), s: State, r: Request, o: Outcome)
    requires Sound(lib, contents, s) && Coherent(contents, r) && Honest(lib, r, o)
    ensures Sound(lib, contents, Remember(s, CacheKey(r), o))
  {
    if o != Failed && o != TimedOut {
      TouchOutcome(lib, contents, s.outcomes, r, o);
      SameBooks(lib, contents, s, Remember(s, CacheKey(r), o));
    }
  }

  /** Books that differ in the outcome cache only. */
  lemma SameBooks(lib: Libraries, contents: string -> (string, string, string), s: State, t: State)
    requires Sound(lib, contents, s) && t == s.(outcomes := t.outcomes) && OutcomesTrue(lib, contents, t.outcomes)
    ensures Sound(lib, contents, t)
  {
    hide OutcomesTrue, Coherent, Honest, CacheKey, PatchesTrue;
    forall c <- t.calls ensures CallTrue(lib, contents, t, c) { assert CallTrue(lib, contents, s, c); }
    forall run <- t.inline ensures RunTrue(t, run) { assert RunTrue(s, run); }
  }

  // ----- settling

  lemma {:induction false} LookupMeaning(pending: seq<Pending>, id: nat)
    ensures Lookup(pending, id).Some? ==> Pending(id, Lookup(pending, id).value) in pending
    ensures Lookup(pending, id).None? ==> (forall p <- pending :: p.id != id) && Discard(pending, id) == pending
  {
    if pending != [] { LookupMeaning(pending[1..], id); }
  }

  lemma {:induction false} DiscardMeaning(pending: seq<Pending>, id: nat)
    requires forall i, j :: 0 <= i < j < |pending| ==> pending[i].id != pending[j].id
    ensures forall i, j :: 0 <= i < j < |Discard(pending, id)| ==> Discard(pending, id)[i].id != Discard(pending, id)[j].id
    ensures forall p :: p in Discard(pending, id) <==> p in pending && p.id != id
  {
    if pending != [] {
      DiscardMeaning(pending[1..], id);
      assert forall p :: p in pending <==> p == pending[0] || p in pending[1..];
    }
  }

  lemma SettleLedger(s: State, id: nat, o: Outcome)
    requires Ledger(s) && Lookup(s.pending, id).Some?
    ensures Ledger(Settle(s, id, o))
    ensures forall p :: p in Settle(s, id, o).pending <==> p in s.pending && p.id != id
    ensures IsJob(s, id, Lookup(s.pending, id).value)
  {
    hide CacheKey, Touch, Tell;
    LookupMeaning(s.pending, id);
    DiscardMeaning(s.pending, id);
  }

  lemma SettleKeeps(lib: Libraries, contents: string -> (string, string, string), s: State, id: nat, o: Outcome)
    requires Sound(lib, contents, s)
    requires 0 < id <= |s.issued| ==> Honest(lib, s.issued[id - 1], o)
    ensures Sound(lib, contents, Settle(s, id, o))
  {
    hide Caches, Jobs, Ledger, Callers, Settle, Honest;
    if Lookup(s.pending, id).Some? {
      SettleLedger(s, id, o);
      SettleCaches(lib, contents, s, id, o);
      SettleCallers(lib, contents, s, id, o);
    } else {
      assert Settle(s, id, o) == s by { SettleNothing(s, id, o); }
    }
  }

  lemma SettleNothing(s: State, id: nat, o: Outcome)
    requires Lookup(s.pending, id).None?
    ensures Settle(s, id, o) == s
  {
  }

  lemma SettleCaches(lib: Libraries, contents: string -> (string, string, string), s: State, id: nat, o: Outcome)
    requires Caches(lib, contents, s) && Jobs(lib, contents, s) && Lookup(s.pending, id).Some?
    requires IsJob(s, id, Lookup(s.pending, id).value) && Honest(lib, s.issued[id - 1], o)
    ensures Caches(lib, contents, Settle(s, id, o)) && Jobs(lib, contents, Settle(s, id, o))
  {
    SettleJobs(lib, contents, s, id, o);
    hide OutcomesTrue, PatchesTrue, Coherent, CacheKey, Touch, Tell, Uncached, Discard;
    var r := Lookup(s.pending, id).value;
    assert Coherent(contents, r) by { assert s.issued[id - 1] in s.issued; }
    hide Jobs;
    if o != Failed && o != TimedOut { TouchOutcome(lib, contents, s.outcomes, r, o); }
  }

  lemma SettleJobs(lib: Libraries, contents: string -> (string, string, string), s: State, id: nat, o: Outcome)
    requires Jobs(lib, contents, s) && Lookup(s.pending, id).Some?
    requires IsJob(s, id, Lookup(s.pending, id).value) && Honest(lib, s.issued[id - 1], o)
    ensures Jobs(lib, contents, Settle(s, id, o))
  {
    hide Remembered, Coherent, CacheKey, Tell, Uncached, Discard, Lookup;
  }

  lemma SettleCallers(lib: Libraries, contents: string -> (string, string, string), s: State, id: nat, o: Outcome)
    requires Jobs(lib, contents, s) && Callers(lib, contents, s) && Lookup(s.pending, id).Some?
    requires IsJob(s, id, Lookup(s.pending, id).value) && Honest(lib, s.issued[id - 1], o)
    ensures Callers(lib, contents, Settle(s, id, o))
  {
    hide Touch, CacheKey, Coherent, Uncached;
    var t := Settle(s, id, o);
    forall i | 0 <= i < |t.calls| ensures CallTrue(lib, contents, t, t.calls[i]) {
      var c := s.calls[i];
      assert CallTrue(lib, contents, s, c);
      if c.reply == Waiting(id) {
        SameKeySameAnswer(lib, contents, c.request, s.issued[id - 1]);
      }
    }
    forall run <- t.inline ensures RunTrue(t, run) { assert RunTrue(s, run); }
  }

  lemma {:induction false} SettleAllKeeps(lib: Libraries, contents: string -> (string, string, string), s: State, ids: seq<nat>, o: Outcome)
    requires Sound(lib, contents, s) && (o == Failed || o == TimedOut)
    ensures Sound(lib, contents, SettleAll(s, ids, o))
    ensures forall p <- SettleAll(s, ids, o).pending :: p in s.pending && p.id !in ids
    ensures SettleFrame(s, SettleAll(s, ids, o))
    decreases |ids|
  {
    hide Sound, Settle;
    if ids != [] {
      var t := Settle(s, ids[0], o);
      SettleKeeps(lib, contents, s, ids[0], o);
      SettleRemoves(lib, contents, s, ids[0], o);
      SettleAllKeeps(lib, contents, t, ids[1..], o);
    }
  }

  ghost predicate SettleFrame(s: State, t: State) {
    t.worker == s.worker && t.workers == s.workers && t.unavailable == s.unavailable && t.inline == s.inline &&
    t.issued == s.issued && t.disposed == s.disposed && t.inflight == s.inflight && |t.calls| == |s.calls|
  }

  lemma SettleRemoves(lib: Libraries, contents: string -> (string, string, string), s: State, id: nat, o: Outcome)
    requires Sound(lib, contents, s)
    ensures forall p <- Settle(s, id, o).pending :: p in s.pending && p.id != id
    ensures SettleFrame(s, Settle(s, id, o))
  {
    hide Caches, Jobs, Callers, Ledger, Settle, SettleFrame;
    SettleFrames(s, id, o);
    if Lookup(s.pending, id).Some? {
      SettleLedger(s, id, o);
    } else {
      LookupMeaning(s.pending, id);
      SettleNothing(s, id, o);
    }
  }

  lemma SettleFrames(s: State, id: nat, o: Outcome)
    ensures SettleFrame(s, Settle(s, id, o))
  {
    hide Touch, CacheKey, Lookup, Discard;
  }

  lemma HeadIn<T>(s: seq<T>)
    requires s != []
    ensures s[0] in s
  {
  }

  lemma StopWorkerKeeps(lib: Libraries, contents: string -> (string, string, string), s: State, o: Outcome)
    requires Sound(lib, contents, s) && (o == Failed || o == TimedOut)
    ensures Sound(lib, contents, StopWorker(s, o)) && Served(StopWorker(s, o))
    ensures StopWorker(s, o).pending == []
  {
    hide Sound;
    var t := s.(worker := None);
    assert Sound(lib, contents, t) by { ConnectionFree(lib, contents, s, t); }
    var ids := PendingIds(s.pending);
    SettleAllKeeps(lib, contents, t, ids, o);
    forall p | p in s.pending ensures p.id in ids {
      var i :| 0 <= i < |s.pending| && s.pending[i] == p;
      assert ids[i] == p.id;
    }
    var rest := SettleAll(t, ids, o).pending;
    if rest != [] {
      HeadIn(rest);
      assert false;
    }
  }

  /** The books do not mention which worker is current. */
  lemma ConnectionFree(lib: Libraries, contents: string -> (string, string, string), s: State, t: State)
    requires Sound(lib, contents, s)
    requires t == s.(worker := t.worker, unavailable := t.unavailable, answered := t.answered, disposed := t.disposed)
    ensures Sound(lib, contents, t)
  {
    hide OutcomesTrue, Coherent, Honest, CacheKey, PatchesTrue;
    forall c <- t.calls ensures CallTrue(lib, contents, t, c) { assert CallTrue(lib, contents, s, c); }
    forall run <- t.inline ensures RunTrue(t, run) { assert RunTrue(s, run); }
  }

  // ----- every event keeps the books

  lemma PeekKeeps(lib: Libraries, contents: string -> (string, string, string), s: State, r: Request)
    requires Sound(lib, contents, s)
    ensures Sound(lib, contents, PeekStep(s, r))
    ensures Find(s.outcomes, CacheKey(r)).Some? && Coherent(contents, r) ==>
              Find(s.outcomes, CacheKey(r)).value == Uncached(lib, r)
  {
    FindMeaning(s.outcomes, CacheKey(r));
    var found := Find(s.outcomes, CacheKey(r));
    if found.Some? {
      assert (CacheKey(r), found.value) in s.outcomes;
      TouchMeaning(s.outcomes, CacheKey(r), found.value, OUTCOMES);
      assert OutcomesTrue(lib, contents, Touch(s.outcomes, CacheKey(r), found.value, OUTCOMES));
      SameBooks(lib, contents, s, PeekStep(s, r));
    }
  }

  lemma StartWorkerKeeps(lib: Libraries, contents: string -> (string, string, string), s: State, canCreate: bool)
    requires Sound(lib, contents, s) && Served(s)
    ensures var t := StartWorker(s, canCreate); Sound(lib, contents, t) && Served(t)
  {
    hide OutcomesTrue, Coherent, Honest, CacheKey;
    var t := StartWorker(s, canCreate);
    forall c <- t.calls ensures CallTrue(lib, contents, t, c) { assert CallTrue(lib, contents, s, c); }
    forall run <- t.inline ensures RunTrue(t, run) { assert RunTrue(s, run); }
  }

  lemma ReplyKeeps(lib: Libraries, contents: string -> (string, string, string), s: State, r: Request, reply: Reply)
    requires Sound(lib, contents, s) && CallTrue(lib, contents, s, Call(r, reply))
    ensures Sound(lib, contents, Reply1(s, r, reply))
  {
    hide OutcomesTrue, Coherent, Honest, CacheKey, PatchesTrue;
    var t := Reply1(s, r, reply);
    forall c <- t.calls ensures CallTrue(lib, contents, t, c) {
      assert c == Call(r, reply) || c in s.calls;
      assert CallTrue(lib, contents, s, c);
    }
    forall run <- t.inline ensures RunTrue(t, run) { assert RunTrue(s, run); }
  }

  lemma InlineKeeps(lib: Libraries, contents: string -> (string, string, string), s: State, r: Request)
    requires Sound(lib, contents, s) && Coherent(contents, r)
    ensures Sound(lib, contents, Reply1(s.(inline := s.inline + {ForCall(|s.calls|, r)}), r, Inline))
  {
    hide OutcomesTrue, Coherent, Honest, CacheKey, PatchesTrue;
    ReplyKeeps(lib, contents, s, r, Inline);
    var t := Reply1(s.(inline := s.inline + {ForCall(|s.calls|, r)}), r, Inline);
    var u := Reply1(s, r, Inline);
    forall c <- t.calls ensures CallTrue(lib, contents, t, c) { assert CallTrue(lib, contents, u, c); }
    forall run <- t.inline ensures RunTrue(t, run) {
      if run != ForCall(|s.calls|, r) { assert RunTrue(u, run); }
    }
  }

  /** The new job before it is posted, with its promise already shared. */
  function Opened(s: State, r: Request): State {
    var id := |s.issued| + 1;
    s.(issued := s.issued + [r], pending := s.pending + [Pending(id, r)], timers := s.timers + {id},
       inflight := s.inflight[CacheKey(r) := id])
  }

  lemma OpenedLedger(s: State, r: Request)
    requires Ledger(s) && CacheKey(r) !in s.inflight
    requires forall id <- s.results :: 0 < id <= |s.issued|
    ensures Ledger(Opened(s, r))
  {
    hide CacheKey;
    var t, id := Opened(s, r), |s.issued| + 1;
    forall p <- t.pending ensures IsJob(t, p.id, p.request) && p.id !in t.results && p.id in t.timers {
      assert p == Pending(id, r) || p in s.pending;
    }
    forall p <- t.pending ensures CacheKey(p.request) in t.inflight && t.inflight[CacheKey(p.request)] == p.id {
      assert p == Pending(id, r) || p in s.pending;
    }
    forall i | i in t.timers ensures exists p <- t.pending :: p.id == i {
      if i == id {
        assert t.pending[|s.pending|].id == id;
        assert Pending(id, r) in t.pending;
      } else {
        var p :| p in s.pending && p.id == i;
        assert p in t.pending;
      }
    }
  }

  lemma OpenedKeeps(lib: Libraries, contents: string -> (string, string, string), s: State, r: Request)
    requires Sound(lib, contents, s) && Coherent(contents, r) && CacheKey(r) !in s.inflight
    ensures Sound(lib, contents, Opened(s, r))
    ensures Lookup(Opened(s, r).pending, |s.issued| + 1) == Some(r)
  {
    hide OutcomesTrue, Coherent, Honest, CacheKey, PatchesTrue, Ledger;
    var t := Opened(s, r);
    OpenedLedger(s, r);
    forall c <- t.calls ensures CallTrue(lib, contents, t, c) { assert CallTrue(lib, contents, s, c); }
    forall run <- t.inline ensures RunTrue(t, run) { assert RunTrue(s, run); }
    OpenedLookup(s, r);
  }

  lemma {:induction false} LookupLast(pending: seq<Pending>, id: nat, r: Request)
    requires forall p <- pending :: p.id != id
    ensures Lookup(pending + [Pending(id, r)], id) == Some(r)
  {
    if pending != [] {
      assert (pending + [Pending(id, r)])[1..] == pending[1..] + [Pending(id, r)];
      LookupLast(pending[1..], id, r);
    }
  }

  lemma OpenedLookup(s: State, r: Request)
    requires Ledger(s)
    ensures Lookup(Opened(s, r).pending, |s.issued| + 1) == Some(r)
  {
    hide CacheKey;
    assert forall p <- s.pending :: IsJob(s, p.id, p.request);
    LookupLast(s.pending, |s.issued| + 1, r);
  }

  lemma PostKeeps(lib: Libraries, contents: string -> (string, string, string), s: State, w: nat, job: Pending)
    requires Sound(lib, contents, s) && w < |s.workers| && IsJob(s, job.id, job.request)
    ensures Sound(lib, contents, s.(workers := s.workers[w := s.workers[w].(jobs := s.workers[w].jobs + [job])]))
  {
    hide OutcomesTrue, Coherent, Honest, CacheKey, PatchesTrue, Ledger;
    var t := s.(workers := s.workers[w := s.workers[w].(jobs := s.workers[w].jobs + [job])]);
    assert Ledger(t) by { LedgerFrame(s, t); }
    assert s.workers[w] in s.workers;
    forall c <- t.calls ensures CallTrue(lib, contents, t, c) { assert CallTrue(lib, contents, s, c); }
    forall run <- t.inline ensures RunTrue(t, run) { assert RunTrue(s, run); }
  }

  lemma LedgerFrame(s: State, t: State)
    requires Ledger(s)
    requires t.pending == s.pending && t.timers == s.timers && t.inflight == s.inflight && t.results == s.results && t.issued == s.issued
    ensures Ledger(t)
  {
    hide CacheKey;
  }

  lemma IssueKeeps(lib: Libraries, contents: string -> (string, string, string), s: State, w: nat, r: Request, canPost: bool)
    requires Sound(lib, contents, s) && Served(s) && s.worker == Some(w) && w < |s.workers|
    requires Coherent(contents, r) && CacheKey(r) !in s.inflight
    ensures var t := Issue(s, w, r, canPost);
            Sound(lib, contents, t) && Served(t) && |t.issued| == |s.issued| + 1 && t.issued[|s.issued|] == r &&
            t.inline == s.inline && |t.calls| == |s.calls| && (canPost <==> |s.issued| + 1 !in t.results)
  {
    hide Sound, CacheKey, Coherent;
    var id := |s.issued| + 1;
    var o := Opened(s, r);
    OpenedKeeps(lib, contents, s, r);
    ResultsBelow(lib, contents, s);
    if canPost {
      PostKeeps(lib, contents, o, w, Pending(id, r));
      assert Issue(s, w, r, true) == o.(workers := o.workers[w := o.workers[w].(jobs := o.workers[w].jobs + [Pending(id, r)])]);
    } else {
      SettleKeeps(lib, contents, o, id, Failed);
      SettleRemoves(lib, contents, o, id, Failed);
      assert Issue(s, w, r, false) == Settle(o, id, Failed) by { IssueRefused(s, w, r); }
    }
  }

  lemma ResultsBelow(lib: Libraries, contents: string -> (string, string, string), s: State)
    requires Sound(lib, contents, s)
    ensures |s.issued| + 1 !in s.results
  {
    hide Caches, Ledger, Callers;
  }

  lemma IssueRefused(s: State, w: nat, r: Request)
    requires w < |s.workers|
    ensures Issue(s, w, r, false) == Settle(Opened(s, r), |s.issued| + 1, Failed)
  {
    hide CacheKey;
  }

  lemma JoinTrue(lib: Libraries, contents: string -> (string, string, string), s: State, id: nat, r: Request)
    requires Sound(lib, contents, s) && Coherent(contents, r)
    requires 0 < id <= |s.issued| && CacheKey(s.issued[id - 1]) == CacheKey(r)
    ensures CallTrue(lib, contents, s, Call(r, JoinOf(s, id)))
  {
    hide Caches, Ledger, Callers, Uncached;
    SameKeySameAnswer(lib, contents, s.issued[id - 1], r);
  }

  lemma RenderInWorkerKeeps(lib: Libraries, contents: string -> (string, string, string), s: State, w: nat, r: Request, canPost: bool)
    requires Sound(lib, contents, s) && Served(s) && s.worker == Some(w) && w < |s.workers| && Coherent(contents, r)
    ensures Sound(lib, contents, RenderInWorker(s, w, r, canPost)) && Served(RenderInWorker(s, w, r, canPost))
  {
    hide Sound, CacheKey, Coherent, CallTrue, Issue, JoinOf;
    if CacheKey(r) in s.inflight {
      var id := s.inflight[CacheKey(r)];
      InflightKeys(lib, contents, s, CacheKey(r));
      JoinTrue(lib, contents, s, id, r);
      ReplyKeeps(lib, contents, s, r, JoinOf(s, id));
    } else {
      var t := Issue(s, w, r, canPost);
      IssueKeeps(lib, contents, s, w, r, canPost);
      JoinTrue(lib, contents, t, |s.issued| + 1, r);
      ReplyKeeps(lib, contents, t, r, JoinOf(t, |s.issued| + 1));
    }
  }

  lemma InflightKeys(lib: Libraries, contents: string -> (string, string, string), s: State, key: string)
    requires Sound(lib, contents, s) && key in s.inflight
    ensures 0 < s.inflight[key] <= |s.issued| && CacheKey(s.issued[s.inflight[key] - 1]) == key
  {
    hide Caches, Jobs, Callers, CacheKey;
  }

  lemma RenderKeeps(lib: Libraries, contents: string -> (string, string, string), s: State, r: Request, canCreate: bool, canPost: bool)
    requires Sound(lib, contents, s) && Served(s) && Coherent(contents, r)
    ensures Sound(lib, contents, RenderStep(s, r, canCreate, canPost)) && Served(RenderStep(s, r, canCreate, canPost))
  {
    hide Sound, CacheKey, Coherent, Remember, StartWorker, RenderInWorker, ExceedsLimits, Find, Touch;
    var t := PeekStep(s, r);
    PeekKeeps(lib, contents, s, r);
    if s.disposed {
      ReplyKeeps(lib, contents, s, r, Told(Failed));
    } else if Find(s.outcomes, CacheKey(r)).Some? {
      ReplyKeeps(lib, contents, t, r, Told(Find(s.outcomes, CacheKey(r)).value));
    } else if r.source == r.target || ExceedsLimits(r.source, r.target) {
      var o := if r.source == r.target then Empty else Limit;
      RememberKeeps(lib, contents, t, r, o);
      RememberFrame(t, CacheKey(r), o);
      ReplyKeeps(lib, contents, Remember(t, CacheKey(r), o), r, Told(o));
    } else {
      var u := StartWorker(t, canCreate);
      StartWorkerKeeps(lib, contents, t, canCreate);
      if u.worker.None? {
        InlineKeeps(lib, contents, u, r);
      } else {
        RenderInWorkerKeeps(lib, contents, u, u.worker.value, r, canPost);
      }
    }
  }

  lemma RememberFrame(s: State, key: string, o: Outcome)
    ensures Remember(s, key, o) == s.(outcomes := Remember(s, key, o).outcomes)
  {
  }

  // ----- workers, timers and inline runs

  lemma RunWorkerKeeps(lib: Libraries, contents: string -> (string, string, string), s: State, w: nat, threw: bool)
    requires Sound(lib, contents, s) && w < |s.workers| && s.workers[w].jobs != []
    ensures Sound(lib, contents, RunWorker(lib, s, w, threw))
  {
    hide OutcomesTrue, Coherent, CacheKey, PatchesTrue, Ledger, Compare, Uncached;
    var t, side := RunWorker(lib, s, w, threw), s.workers[w];
    var job := side.jobs[0];
    assert side in s.workers && job in side.jobs;
    assert Coherent(contents, job.request);
    CompareIsUncached(lib, contents, side.patches, job.request);
    assert Ledger(t) by { LedgerFrame(s, t); }
    forall c <- t.calls ensures CallTrue(lib, contents, t, c) { assert CallTrue(lib, contents, s, c); }
    forall run <- t.inline ensures RunTrue(t, run) { assert RunTrue(s, run); }
  }

  lemma PopAnswerKeeps(lib: Libraries, contents: string -> (string, string, string), s: State, w: nat)
    requires Sound(lib, contents, s) && w < |s.workers| && s.workers[w].answers != []
    ensures Sound(lib, contents, s.(workers := s.workers[w := s.workers[w].(answers := s.workers[w].answers[1..])]))
    ensures var a := s.workers[w].answers[0]; 0 < a.0 <= |s.issued| && Honest(lib, s.issued[a.0 - 1], a.1)
  {
    hide OutcomesTrue, Coherent, CacheKey, PatchesTrue, Ledger, Honest;
    var side := s.workers[w];
    var t := s.(workers := s.workers[w := side.(answers := side.answers[1..])]);
    assert side in s.workers && side.answers[0] in side.answers;
    assert Ledger(t) by { LedgerFrame(s, t); }
    forall c <- t.calls ensures CallTrue(lib, contents, t, c) { assert CallTrue(lib, contents, s, c); }
    forall run <- t.inline ensures RunTrue(t, run) { assert RunTrue(s, run); }
  }

  lemma TakeAnswerKeeps(lib: Libraries, contents: string -> (string, string, string), s: State, w: nat)
    requires Sound(lib, contents, s) && Served(s) && w < |s.workers| && s.workers[w].answers != []
    ensures Sound(lib, contents, TakeAnswer(s, w)) && Served(TakeAnswer(s, w))
  {
    hide Sound, Settle, Honest;
    var side := s.workers[w];
    var t := s.(workers := s.workers[w := side.(answers := side.answers[1..])]);
    PopAnswerKeeps(lib, contents, s, w);
    if s.worker == Some(w) {
      ConnectionFree(lib, contents, t, t.(answered := true));
      SettleKeeps(lib, contents, t.(answered := true), side.answers[0].0, side.answers[0].1);
      SettleRemoves(lib, contents, t.(answered := true), side.answers[0].0, side.answers[0].1);
    }
  }

  lemma FailWorkerKeeps(lib: Libraries, contents: string -> (string, string, string), s: State, w: nat)
    requires Sound(lib, contents, s) && Served(s)
    ensures Sound(lib, contents, FailWorker(s, w)) && Served(FailWorker(s, w))
  {
    if s.worker == Some(w) {
      if s.answered {
        StopWorkerKeeps(lib, contents, s, Failed);
      } else {
        hide OutcomesTrue, Coherent, CacheKey, PatchesTrue, Ledger, Honest;
        var t := FailWorker(s, w);
        assert Ledger(t) by { LedgerFrame(s, t); }
        assert forall p <- s.pending :: IsJob(s, p.id, p.request) by { PendingAreJobs(s); }
        forall c <- t.calls ensures CallTrue(lib, contents, t, c) { assert CallTrue(lib, contents, s, c); }
        forall run <- t.inline ensures RunTrue(t, run) { if run in s.inline { assert RunTrue(s, run); } }
      }
    }
  }

  lemma PendingAreJobs(s: State)
    requires Ledger(s)
    ensures forall p <- s.pending :: IsJob(s, p.id, p.request)
  {
  }

  /** A timer that is armed always finds its job pending, so it stops the worker. */
  lemma FireTimerKeeps(lib: Libraries, contents: string -> (string, string, string), s: State, id: nat)
    requires Sound(lib, contents, s) && id in s.timers
    ensures Sound(lib, contents, FireTimer(s, id)) && Served(FireTimer(s, id))
    ensures FireTimer(s, id).pending == [] && FireTimer(s, id).worker.None?
  {
    hide Caches, Jobs, Callers, CacheKey, Settle;
    var p :| p in s.pending && p.id == id;
    LookupMeaning(s.pending, id);
    StopWorkerKeeps(lib, contents, s, TimedOut);
    StopWorkerFrame(lib, contents, s, TimedOut);
  }

  lemma StopWorkerFrame(lib: Libraries, contents: string -> (string, string, string), s: State, o: Outcome)
    requires Sound(lib, contents, s) && (o == Failed || o == TimedOut)
    ensures StopWorker(s, o).worker.None?
  {
    hide Sound, Settle;
    ConnectionFree(lib, contents, s, s.(worker := None));
    SettleAllKeeps(lib, contents, s.(worker := None), PendingIds(s.pending), o);
  }

  lemma PatchedKeeps(lib: Libraries, contents: string -> (string, string, string), s: State, run: InlineRun, patches: PatchCache)
    requires Sound(lib, contents, s) && PatchesTrue(lib, contents, patches) && |patches| <= PATCHES
    ensures Sound(lib, contents, s.(inline := s.inline - {run}, inlinePatches := patches))
  {
    hide OutcomesTrue, Coherent, CacheKey, PatchesTrue, Ledger, Honest;
    var t := s.(inline := s.inline - {run}, inlinePatches := patches);
    assert Ledger(t) by { LedgerFrame(s, t); }
    forall c <- t.calls ensures CallTrue(lib, contents, t, c) { assert CallTrue(lib, contents, s, c); }
    forall r <- t.inline ensures RunTrue(t, r) { assert RunTrue(s, r); }
  }

  lemma AnswerCallKeeps(lib: Libraries, contents: string -> (string, string, string), s: State, call: nat, r: Request, o: Outcome)
    requires Sound(lib, contents, s) && Coherent(contents, r) && Honest(lib, r, o)
    requires call < |s.calls| && s.calls[call] == Call(r, Inline) && ForCall(call, r) !in s.inline
    ensures Sound(lib, contents, s.(calls := s.calls[call := Call(r, Told(o))]))
  {
    hide OutcomesTrue, Coherent, CacheKey, PatchesTrue, Ledger, Honest;
    var t := s.(calls := s.calls[call := Call(r, Told(o))]);
    assert Ledger(t) by { LedgerFrame(s, t); }
    forall c <- t.calls ensures CallTrue(lib, contents, t, c) {
      if c != Call(r, Told(o)) { assert c in s.calls && CallTrue(lib, contents, s, c); }
    }
    forall run <- t.inline ensures RunTrue(t, run) { assert RunTrue(s, run); }
  }

  lemma FinishInlineKeeps(lib: Libraries, contents: string -> (string, string, string), s: State, run: InlineRun, loaded: bool)
    requires Sound(lib, contents, s) && Served(s) && run in s.inline
    ensures Sound(lib, contents, FinishInline(lib, s, run, loaded)) && Served(FinishInline(lib, s, run, loaded))
  {
    hide Sound, Settle, Compare, Remember, Coherent, CacheKey, PatchesTrue;
    InlineRequest(lib, contents, s, run);
    var (outcome, patches) := Compare(lib, s.inlinePatches, run.request);
    var result := if loaded then outcome else Failed;
    var kept := if loaded then patches else [];
    assert PatchesTrue(lib, contents, []) by { EmptyPatches(lib, contents); }
    CompareIsUncached(lib, contents, s.inlinePatches, run.request);
    var t := s.(inline := s.inline - {run}, inlinePatches := kept);
    PatchedKeeps(lib, contents, s, run, kept);
    match run {
      case ForJob(id, r) =>
        SettleKeeps(lib, contents, t, id, result);
        SettleRemoves(lib, contents, t, id, result);
      case ForCall(call, r) =>
        RememberKeeps(lib, contents, t, r, result);
        RememberFrame(t, CacheKey(r), result);
        AnswerCallKeeps(lib, contents, Remember(t, CacheKey(r), result), call, r, result);
    }
  }

  lemma EmptyPatches(lib: Libraries, contents: string -> (string, string, string))
    ensures PatchesTrue(lib, contents, [])
  {
  }

  lemma InlineRequest(lib: Libraries, contents: string -> (string, string, string), s: State, run: InlineRun)
    requires Sound(lib, contents, s) && run in s.inline
    ensures Coherent(contents, run.request) && RunTrue(s, run)
    ensures PatchesTrue(lib, contents, s.inlinePatches)
  {
    hide Ledger, Uncached, CacheKey, Coherent, PatchesTrue;
    assert RunTrue(s, run);
    if run.ForCall? { assert CallTrue(lib, contents, s, s.calls[run.call]); }
  }

  lemma ReleaseKeeps(lib: Libraries, contents: string -> (string, string, string), s: State, id: nat)
    requires Sound(lib, contents, s) && 0 < id <= |s.issued| && id in s.results
    ensures Sound(lib, contents, Release(s, id))
  {
    hide OutcomesTrue, Coherent, PatchesTrue, Honest, CacheKey;
    var t := Release(s, id);
    forall c <- t.calls ensures CallTrue(lib, contents, t, c) { assert CallTrue(lib, contents, s, c); }
    forall run <- t.inline ensures RunTrue(t, run) { assert RunTrue(s, run); }
  }

  lemma DisposeKeeps(lib: Libraries, contents: string -> (string, string, string), s: State)
    requires Sound(lib, contents, s)
    ensures var t := StopWorker(s, Failed).(disposed := true, outcomes := []);
            Sound(lib, contents, t) && Served(t)
  {
    hide Sound, StopWorker;
    StopWorkerKeeps(lib, contents, s, Failed);
    var u := StopWorker(s, Failed);
    ConnectionFree(lib, contents, u, u.(disposed := true));
    SameBooks(lib, contents, u.(disposed := true), u.(disposed := true, outcomes := []));
  }

  ghost predicate CoherentEvent(contents: string -> (string, string, string), e: Event) {
    match e
    case RenderCalled(r, _, _) => Coherent(contents, r)
    case Peeked(r) => Coherent(contents, r)
    case _ => true
  }

  lemma StepKeeps(lib: Libraries, contents: string -> (string, string, string), s: State, e: Event)
    requires Sound(lib, contents, s) && Served(s) && Enabled(s, e) && CoherentEvent(contents, e)
    ensures Sound(lib, contents, Step(lib, s, e)) && Served(Step(lib, s, e))
  {
    hide Sound, Coherent, RenderStep, RunWorker, TakeAnswer, FailWorker, FireTimer, FinishInline, Release, StopWorker;
    match e {
      case Peeked(r) => PeekKeeps(lib, contents, s, r);
      case RenderCalled(r, canCreate, canPost) => RenderKeeps(lib, contents, s, r, canCreate, canPost);
      case WorkerRan(w, threw) =>
        RunWorkerKeeps(lib, contents, s, w, threw);
        RunWorkerFrame(lib, s, w, threw);
      case Answered(w) => TakeAnswerKeeps(lib, contents, s, w);
      case Babbled(w) => ConnectionFree(lib, contents, s, s.(answered := true));
      case WorkerFailed(w) => FailWorkerKeeps(lib, contents, s, w);
      case TimerFired(id) => FireTimerKeeps(lib, contents, s, id);
      case InlineFinished(run, loaded) => FinishInlineKeeps(lib, contents, s, run, loaded);
      case Released(id) =>
        ReleaseKeeps(lib, contents, s, id);
        ReleaseFrame(s, id);
      case DisposeCalled => DisposeKeeps(lib, contents, s);
    }
  }

  lemma RunWorkerFrame(lib: Libraries, s: State, w: nat, threw: bool)
    requires Served(s) && w < |s.workers| && s.workers[w].jobs != []
    ensures Served(RunWorker(lib, s, w, threw))
  {
    hide Compare;
  }

  lemma ReleaseFrame(s: State, id: nat)
    requires Served(s) && 0 < id <= |s.issued|
    ensures Served(Release(s, id))
  {
    hide CacheKey;
  }

  // ----- whole runs

  ghost predicate Behaviour(lib: Libraries, contents: string -> (string, string, string), ss: seq<State>, es: seq<Event>) {
    |ss| == |es| + 1 && ss[0] == INITIAL && forall k :: 0 <= k < |es| ==> Follows(lib, contents, ss, es, k)
  }

  ghost predicate Follows(lib: Libraries, contents: string -> (string, string, string), ss: seq<State>, es: seq<Event>, k: nat)
    requires k < |es| && k + 1 < |ss|
  {
    CoherentEvent(contents, es[k]) && Enabled(ss[k], es[k]) && ss[k + 1] == Step(lib, ss[k], es[k])
  }

  lemma BeginsSound(lib: Libraries, contents: string -> (string, string, string), ss: seq<State>, es: seq<Event>)
    requires Behaviour(lib, contents, ss, es)
    ensures Sound(lib, contents, ss[0]) && Served(ss[0])
  {
    hide Follows;
  }

  lemma OneFollows(lib: Libraries, contents: string -> (string, string, string), ss: seq<State>, es: seq<Event>, k: nat)
    requires Behaviour(lib, contents, ss, es) && k < |es|
    ensures Enabled(ss[k], es[k]) && CoherentEvent(contents, es[k]) && ss[k + 1] == Step(lib, ss[k], es[k])
  {
    hide Enabled, CoherentEvent, Step;
    assert Follows(lib, contents, ss, es, k);
  }

  lemma {:induction false} AlwaysSound(lib: Libraries, contents: string -> (string, string, string), ss: seq<State>, es: seq<Event>, k: nat)
    requires Behaviour(lib, contents, ss, es) && k < |ss|
    ensures Sound(lib, contents, ss[k]) && Served(ss[k])
  {
    hide Sound, Served, Step, Enabled, CoherentEvent, Follows;
    if k == 0 {
      BeginsSound(lib, contents, ss, es);
    } else {
      AlwaysSound(lib, contents, ss, es, k - 1);
      OneFollows(lib, contents, ss, es, k - 1);
      StepKeeps(lib, contents, ss[k - 1], es[k - 1]);
    }
  }

  // ----- the promises

  /** Whatever workers, timers and caches did, a result a caller sees is the plain function's. */
  lemma RepliesAreUncached(lib: Libraries, contents: string -> (string, string, string), ss: seq<State>, es: seq<Event>, k: nat, i: nat)
    requires Behaviour(lib, contents, ss, es) && k < |ss| && i < |ss[k].calls| && ss[k].calls[i].reply.Told?
    requires var o := ss[k].calls[i].reply.outcome; o.Rendered? || o.Empty? || o.Limit?
    ensures ss[k].calls[i].reply.outcome == Uncached(lib, ss[k].calls[i].request)
  {
    hide Caches, Jobs, Ledger, Uncached, Coherent, Step;
    AlwaysSound(lib, contents, ss, es, k);
    assert CallTrue(lib, contents, ss[k], ss[k].calls[i]);
  }

  /** So is everything the outcome cache holds: at most eight entries, no timeout, no failure. */
  lemma CachesStayTrue(lib: Libraries, contents: string -> (string, string, string), ss: seq<State>, es: seq<Event>, k: nat, r: Request)
    requires Behaviour(lib, contents, ss, es) && k < |ss| && Coherent(contents, r)
    ensures |ss[k].outcomes| <= 8
    ensures Find(ss[k].outcomes, CacheKey(r)).Some? ==>
              var o := Find(ss[k].outcomes, CacheKey(r)).value;
              o == Uncached(lib, r) && o != Failed && o != TimedOut
    ensures |ss[k].inlinePatches| <= 6 && forall side <- ss[k].workers :: |side.patches| <= 6
  {
    hide Jobs, Ledger, Callers, Uncached, Coherent, Step, CacheKey;
    AlwaysSound(lib, contents, ss, es, k);
    FindMeaning(ss[k].outcomes, CacheKey(r));
  }

  lemma NoTwoPendingShareAKey(lib: Libraries, contents: string -> (string, string, string), ss: seq<State>, es: seq<Event>, k: nat, i: nat, j: nat)
    requires Behaviour(lib, contents, ss, es) && k < |ss| && i < j < |ss[k].pending|
    ensures CacheKey(ss[k].pending[i].request) != CacheKey(ss[k].pending[j].request)
  {
    hide Caches, Jobs, Callers, Step, CacheKey;
    AlwaysSound(lib, contents, ss, es, k);
    assert ss[k].pending[i] in ss[k].pending && ss[k].pending[j] in ss[k].pending;
  }

  /** Nobody waits in vain: a waiting call's job is being worked on, and its timer ends the wait. */
  lemma WaitingEnds(lib: Libraries, contents: string -> (string, string, string), ss: seq<State>, es: seq<Event>, k: nat, i: nat)
    requires Behaviour(lib, contents, ss, es) && k < |ss| && i < |ss[k].calls| && ss[k].calls[i].reply.Waiting?
    ensures var id := ss[k].calls[i].reply.id;
            id in ss[k].timers &&
            (ss[k].worker.Some? || exists run <- ss[k].inline :: run.ForJob? && run.id == id) &&
            i < |FireTimer(ss[k], id).calls| && !FireTimer(ss[k], id).calls[i].reply.Waiting?
  {
    hide Caches, Jobs, Uncached, Coherent, Step, CacheKey, FireTimer;
    AlwaysSound(lib, contents, ss, es, k);
    var s, id := ss[k], ss[k].calls[i].reply.id;
    assert CallTrue(lib, contents, s, s.calls[i]);
    var p :| p in s.pending && p.id == id;
    FireTimerKeeps(lib, contents, s, id);
    var t := FireTimer(s, id);
    FireTimerFrame(lib, contents, s, id);
    NothingWaits(lib, contents, t, i);
  }

  lemma FireTimerFrame(lib: Libraries, contents: string -> (string, string, string), s: State, id: nat)
    requires Sound(lib, contents, s) && id in s.timers
    ensures |FireTimer(s, id).calls| == |s.calls|
  {
    hide Caches, Jobs, Callers, Settle, CacheKey;
    if Lookup(s.pending, id).Some? {
      ConnectionFree(lib, contents, s, s.(worker := None));
      SettleAllKeeps(lib, contents, s.(worker := None), PendingIds(s.pending), TimedOut);
    }
  }

  lemma NothingWaits(lib: Libraries, contents: string -> (string, string, string), s: State, i: nat)
    requires Sound(lib, contents, s) && s.pending == [] && i < |s.calls|
    ensures !s.calls[i].reply.Waiting?
  {
    hide Caches, Jobs, Uncached, Coherent, CacheKey;
    assert CallTrue(lib, contents, s, s.calls[i]);
  }

  // ----- each call is told once

  ghost predicate ToldOnce(s: State, t: State) {
    |s.calls| <= |t.calls| &&
    forall i :: 0 <= i < |s.calls| ==>
      t.calls[i].request == s.calls[i].request && (s.calls[i].reply.Told? ==> t.calls[i] == s.calls[i])
  }

  lemma SettleToldOnce(s: State, id: nat, o: Outcome)
    ensures ToldOnce(s, Settle(s, id, o))
  {
    hide Remembered, CacheKey, Lookup, Discard;
  }

  lemma {:induction false} SettleAllToldOnce(s: State, ids: seq<nat>, o: Outcome)
    ensures ToldOnce(s, SettleAll(s, ids, o))
    decreases |ids|
  {
    if ids != [] {
      hide Settle;
      SettleToldOnce(s, ids[0], o);
      SettleAllToldOnce(Settle(s, ids[0], o), ids[1..], o);
    }
  }

  lemma IssueToldOnce(s: State, w: nat, r: Request, canPost: bool)
    requires w < |s.workers|
    ensures ToldOnce(s, Issue(s, w, r, canPost))
  {
    hide Settle, CacheKey;
    var id := |s.issued| + 1;
    var t := s.(issued := s.issued + [r], pending := s.pending + [Pending(id, r)], timers := s.timers + {id});
    SettleToldOnce(t, id, Failed);
  }

  lemma CallsFrame(s: State, r: Request, key: string, o: Outcome, canCreate: bool)
    ensures PeekStep(s, r).calls == s.calls && StartWorker(s, canCreate).calls == s.calls && Remember(s, key, o).calls == s.calls
  {
    hide Touch, Find, CacheKey;
  }

  /** Answering a new call leaves the others alone. */
  lemma ReplyToldOnce(s: State, u: State, t: State, r: Request, reply: Reply)
    requires u.calls == s.calls && ToldOnce(u, t)
    ensures ToldOnce(s, Reply1(t, r, reply)) && ToldOnce(s, Reply1(u, r, reply))
  {
  }

  lemma WorkerToldOnce(s: State, u: State, w: nat, r: Request, canPost: bool)
    requires u.calls == s.calls && w < |u.workers|
    ensures ToldOnce(s, RenderInWorker(u, w, r, canPost))
  {
    hide CacheKey, Issue, JoinOf, ToldOnce, Reply1;
    IssueToldOnce(u, w, r, canPost);
    ReplyToldOnce(s, u, Issue(u, w, r, canPost), r, JoinOf(Issue(u, w, r, canPost), |u.issued| + 1));
    if CacheKey(r) in u.inflight {
      ReplyToldOnce(s, u, Issue(u, w, r, canPost), r, JoinOf(u, u.inflight[CacheKey(r)]));
    }
  }

  lemma SameToldOnce(s: State)
    ensures ToldOnce(s, s)
  {
  }

  lemma RenderToldOnce(s: State, r: Request, canCreate: bool, canPost: bool)
    ensures ToldOnce(s, RenderStep(s, r, canCreate, canPost))
  {
    hide CacheKey, ExceedsLimits, Find, PeekStep, StartWorker, Remember, RenderInWorker, ToldOnce, Reply1;
    var cached, key, p := Find(s.outcomes, CacheKey(r)), CacheKey(r), PeekStep(s, r);
    CallsFrame(s, r, key, Empty, canCreate);
    CallsFrame(p, r, key, Empty, canCreate);
    CallsFrame(p, r, key, Limit, canCreate);
    SameToldOnce(s);
    if s.disposed {
      ReplyToldOnce(s, s, s, r, Told(Failed));
    } else if cached.Some? {
      ReplyTo(s, p, r, Told(cached.value));
    } else if r.source == r.target {
      ReplyTo(s, Remember(p, key, Empty), r, Told(Empty));
    } else if ExceedsLimits(r.source, r.target) {
      ReplyTo(s, Remember(p, key, Limit), r, Told(Limit));
    } else {
      var u := StartWorker(p, canCreate);
      if u.worker.Some? && u.worker.value < |u.workers| {
        WorkerToldOnce(s, u, u.worker.value, r, canPost);
      } else {
        ReplyTo(s, u.(inline := u.inline + {ForCall(|u.calls|, r)}), r, Inline);
      }
    }
  }

  lemma ReplyTo(s: State, u: State, r: Request, reply: Reply)
    requires u.calls == s.calls
    ensures ToldOnce(s, Reply1(u, r, reply))
  {
    SameToldOnce(u);
    ReplyToldOnce(s, u, u, r, reply);
  }

  lemma FinishToldOnce(lib: Libraries, contents: string -> (string, string, string), s: State, run: InlineRun, loaded: bool)
    requires Sound(lib, contents, s) && run in s.inline
    ensures ToldOnce(s, FinishInline(lib, s, run, loaded))
  {
    hide Caches, Jobs, Ledger, CacheKey, Compare, Settle, CallTrue;
    assert RunTrue(s, run);
    var (outcome, patches) := Compare(lib, s.inlinePatches, run.request);
    var result := if loaded then outcome else Failed;
    var t := s.(inline := s.inline - {run}, inlinePatches := if loaded then patches else []);
    if run.ForJob? { SettleToldOnce(t, run.id, result); }
    else { RememberFrame(t, CacheKey(run.request), result); }
  }

  lemma StepToldOnce(lib: Libraries, contents: string -> (string, string, string), s: State, e: Event)
    requires Sound(lib, contents, s) && Enabled(s, e)
    ensures ToldOnce(s, Step(lib, s, e))
  {
    hide Sound, Settle, RenderStep, FinishInline, SettleAll, Compare, CacheKey, Find, Touch, Lookup;
    match e {
      case RenderCalled(r, canCreate, canPost) => RenderToldOnce(s, r, canCreate, canPost);
      case Answered(w) =>
        var side := s.workers[w];
        var t := s.(workers := s.workers[w := side.(answers := side.answers[1..])], answered := true);
        SettleToldOnce(t, side.answers[0].0, side.answers[0].1);
      case WorkerFailed(_) => SettleAllToldOnce(s.(worker := None), PendingIds(s.pending), Failed);
      case TimerFired(_) => SettleAllToldOnce(s.(worker := None), PendingIds(s.pending), TimedOut);
      case InlineFinished(run, loaded) => FinishToldOnce(lib, contents, s, run, loaded);
      case DisposeCalled => SettleAllToldOnce(s.(worker := None), PendingIds(s.pending), Failed);
      case _ =>
    }
  }

  lemma BehaviourLength(lib: Libraries, contents: string -> (string, string, string), ss: seq<State>, es: seq<Event>)
    requires Behaviour(lib, contents, ss, es)
    ensures |ss| == |es| + 1
  {
    hide Follows;
  }

  /** Late answers, repeated answers, crashes and disposal never change what a caller was told. */
  lemma {:induction false} EachCallToldOnce(lib: Libraries, contents: string -> (string, string, string), ss: seq<State>, es: seq<Event>,
                                            j: nat, k: nat, i: nat)
    requires Behaviour(lib, contents, ss, es) && j <= k < |ss| && i < |ss[j].calls|
    ensures i < |ss[k].calls| && ss[k].calls[i].request == ss[j].calls[i].request
    ensures ss[j].calls[i].reply.Told? ==> ss[k].calls[i] == ss[j].calls[i]
  {
    if j < k {
      hide Sound, Served, Step, Enabled, CoherentEvent, Follows, Behaviour;
      BehaviourLength(lib, contents, ss, es);
      EachCallToldOnce(lib, contents, ss, es, j, k - 1, i);
      AlwaysSound(lib, contents, ss, es, k - 1);
      OneFollows(lib, contents, ss, es, k - 1);
      StepToldOnce(lib, contents, ss[k - 1], es[k - 1]);
      hide ToldOnce;
      CallToldOnce(ss[k - 1], ss[k], i);
    }
  }

  lemma CallToldOnce(s: State, t: State, i: nat)
    requires ToldOnce(s, t) && i < |s.calls|
    ensures i < |t.calls| && t.calls[i].request == s.calls[i].request && (s.calls[i].reply.Told? ==> t.calls[i] == s.calls[i])
  {
  }
}

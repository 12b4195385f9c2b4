/** The engine and the renderer with their maps changed in place. */
module HistoryDiffRenderer {
  import opened Basics
  import opened LruCache
  import opened HistoryDiff

  function IndexOfNewline(text: string, from: nat): (index: int)
    ensures index == -1 || from <= index < |text|
    decreases |text| - from
  {
    if from >= |text| then -1 else if text[from] == '\n' then from else IndexOfNewline(text, from + 1)
  }

  lemma {:induction false} NewlinesFrom(text: string, from: nat)
    requires from <= |text|
    ensures IndexOfNewline(text, from) == -1 ==> Newlines(text[from..]) == 0
    ensures IndexOfNewline(text, from) != -1 ==>
              Newlines(text[from..]) == 1 + Newlines(text[IndexOfNewline(text, from) + 1..])
    decreases |text| - from
  {
    if from < |text| {
      assert text[from..][1..] == text[from + 1..];
      NewlinesFrom(text, from + 1);
    }
  }

  /** Hop from newline to newline. */
  method CountTextLines(text: string) returns (lines: nat)
    ensures lines == CountLines(text)
  {
    if |text| == 0 {
      return 0;
    }
    lines := 1;
    var index := IndexOfNewline(text, 0);
    NewlinesFrom(text, 0);
    assert text[0..] == text;
    while index != -1
      invariant index == -1 || 0 <= index < |text|
      invariant CountLines(text) == lines + if index == -1 then 0 else 1 + Newlines(text[index + 1..])
      decreases if index == -1 then 0 else |text| - index
    {
      lines := lines + 1;
      NewlinesFrom(text, index + 1);
      index := IndexOfNewline(text, index + 1);
    }
  }

  /** `while (map.size > cap) delete the first key`. */
  method Evict<V>(m: Entries<string, V>, cap: nat) returns (kept: Entries<string, V>)
    ensures kept == Newest(m, cap)
  {
    kept := m;
    while |kept| > cap
      invariant |m| <= cap ==> kept == m
      invariant |m| > cap ==> |kept| >= cap && kept == m[|m| - |kept|..]
    {
      kept := kept[1..];
    }
  }

  class HistoryDiffEngine {
    const lib: Libraries
    const contents: string -> (string, string, string)
    var patches: PatchCache
    ghost var history: seq<string>

    /** The cache is right, and holds the six keys asked for last. */
    ghost predicate Valid()
      reads this
    {
      PatchesTrue(lib, contents, patches) && Keys(patches) == Newest(ByLastUse(history), PATCHES)
    }

    constructor (lib: Libraries, contents: string -> (string, string, string))
      ensures Valid() && this.lib == lib && this.contents == contents && history == [] && patches == []
    {
      this.lib, this.contents, patches, history := lib, contents, [], [];
    }

    method CompareTexts(r: Request) returns (outcome: Outcome)
      requires Valid() && Coherent(contents, r)
      modifies this`patches, this`history
      ensures Valid() && history == old(history) + [r.key]
      ensures outcome == Uncached(lib, r)
      ensures (outcome, patches) == Compare(lib, old(patches), r)
    {
      CompareIsUncached(lib, contents, patches, r);
      ByLastUseDistinct(history);
      TouchFollowsOrder(patches, r.key, PatchFor(lib, patches, r), PATCHES, ByLastUse(history));
      var found := Find(patches, r.key);
      var patch;
      if found.Some? {
        patch := found.value;
        patches := Remove(patches, r.key);
      } else {
        patch := ComputePatch(lib, r.path, r.source, r.target);
        RemoveAbsent(patches, r.key);
      }
      patches := patches + [(r.key, patch)];
      patches := Evict(patches, PATCHES);
      history := history + [r.key];
      assert history[..|history| - 1] == old(history);
      outcome := RenderPatch(lib, patch, r.format);
    }
  }

  class Renderer {
    const lib: Libraries
    var outcomes: Entries<string, Outcome>
    var pending: seq<Pending>
    var timers: set<nat>
    var inflight: map<string, nat>
    var results: map<nat, Outcome>
    var issued: seq<Request>
    var calls: seq<Call>
    var workers: seq<WorkerSide>
    var worker: Option<nat>
    var workerUnavailable: bool
    var workerAnswered: bool
    var inline: set<InlineRun>
    var inlinePatches: PatchCache
    var disposed: bool

    function Abs(): State
      reads this
    {
      State(outcomes, pending, timers, inflight, results, issued, calls, workers, worker, workerUnavailable,
            workerAnswered, inline, inlinePatches, disposed)
    }

    constructor (lib: Libraries)
      ensures Abs() == INITIAL && this.lib == lib
    {
      this.lib := lib;
      outcomes, pending, timers, inflight, results, issued, calls := [], [], {}, map[], map[], [], [];
      workers, worker, workerUnavailable, workerAnswered := [], None, false, false;
      inline, inlinePatches, disposed := {}, [], false;
    }

    method RememberOutcome(key: string, outcome: Outcome)
      modifies this`outcomes
      ensures Abs() == Remember(old(Abs()), key, outcome)
    {
      if outcome == TimedOut || outcome == Failed {
        return;
      }
      outcomes := Remove(outcomes, key) + [(key, outcome)];
      outcomes := Evict(outcomes, OUTCOMES);
    }

    method SettleJob(id: nat, outcome: Outcome)
      modifies this`outcomes, this`pending, this`timers, this`results, this`calls
      ensures Abs() == Settle(old(Abs()), id, outcome)
    {
      var entry := Lookup(pending, id);
      if entry.None? {
        return;
      }
      pending, timers := Discard(pending, id), timers - {id};
      RememberOutcome(CacheKey(entry.value), outcome);
      results, calls := results[id := outcome], Tell(calls, id, outcome);
    }

    /** Forget the worker, then settle every job that was pending. */
    method StopCurrentWorker(outcome: Outcome)
      modifies this`worker, this`outcomes, this`pending, this`timers, this`results, this`calls
      ensures Abs() == StopWorker(old(Abs()), outcome)
    {
      worker := None;
      var ids := PendingIds(pending);
      for i := 0 to |ids|
        invariant SettleAll(Abs(), ids[i..], outcome) == SettleAll(old(Abs()).(worker := None), ids, outcome)
      {
        assert ids[i..][1..] == ids[i + 1..];
        SettleJob(ids[i], outcome);
      }
    }

    method PeekOutcome(r: Request) returns (cached: Option<Outcome>)
      modifies this`outcomes
      ensures Abs() == PeekStep(old(Abs()), r)
      ensures cached == Find(old(outcomes), CacheKey(r))
    {
      cached := Find(outcomes, CacheKey(r));
      if cached.Some? {
        PeekBounded(outcomes, CacheKey(r), cached.value);
        outcomes := Remove(outcomes, CacheKey(r)) + [(CacheKey(r), cached.value)];
        outcomes := Evict(outcomes, OUTCOMES);
      }
    }

    method EnsureWorker(canCreate: bool)
      modifies this`worker, this`workers, this`workerUnavailable, this`workerAnswered
      ensures Abs() == StartWorker(old(Abs()), canCreate)
    {
      if worker.Some? || workerUnavailable {
        return;
      }
      if !canCreate {
        workerUnavailable := true;
        return;
      }
      worker := Some(|workers|);
      workers := workers + [WorkerSide([], [], [])];
      workerAnswered := false;
    }

    method PostJob(w: nat, r: Request, canPost: bool)
      requires w < |workers|
      modifies this
      ensures Abs() == Issue(old(Abs()), w, r, canPost)
    {
      hide CacheKey, Send, Enroll;
      var id := |issued| + 1;
      EnrollJob(r);
      SendJob(w, Pending(id, r), canPost);
      inflight := inflight[CacheKey(r) := id];
    }

    method EnrollJob(r: Request)
      modifies this`issued, this`pending, this`timers
      ensures Abs() == Enroll(old(Abs()), r)
    {
      var id := |issued| + 1;
      issued, pending, timers := issued + [r], pending + [Pending(id, r)], timers + {id};
    }

    /** postMessage, which may throw. */
    method SendJob(w: nat, job: Pending, canPost: bool)
      requires w < |workers|
      modifies this
      ensures Abs() == Send(old(Abs()), w, job, canPost)
    {
      hide CacheKey, Settle;
      if canPost {
        workers := workers[w := workers[w].(jobs := workers[w].jobs + [job])];
      } else {
        SettleJob(job.id, Failed);
      }
    }

    method ReplyWith(r: Request, reply: Reply)
      modifies this`calls
      ensures Abs() == Reply1(old(Abs()), r, reply)
    {
      calls := calls + [Call(r, reply)];
    }

    method RenderThrough(w: nat, r: Request, canPost: bool)
      requires w < |workers|
      modifies this
      ensures Abs() == RenderInWorker(old(Abs()), w, r, canPost)
    {
      hide Issue, CacheKey;
      if CacheKey(r) in inflight {
        ReplyWith(r, JoinOf(Abs(), inflight[CacheKey(r)]));
        return;
      }
      var id := |issued| + 1;
      PostJob(w, r, canPost);
      ReplyWith(r, JoinOf(Abs(), id));
    }

    method RenderRequest(r: Request, canCreate: bool, canPost: bool)
      modifies this
      ensures Abs() == RenderStep(old(Abs()), r, canCreate, canPost)
    {
      hide CacheKey, Issue, RenderInWorker, StartWorker, Remember, PeekStep, Touch, Find, ExceedsLimits;
      if disposed {
        ReplyWith(r, Told(Failed));
        return;
      }
      var cached := PeekOutcome(r);
      if cached.Some? {
        ReplyWith(r, Told(cached.value));
        return;
      }
      if r.source == r.target {
        RememberOutcome(CacheKey(r), Empty);
        ReplyWith(r, Told(Empty));
        return;
      }
      if ExceedsLimits(r.source, r.target) {
        RememberOutcome(CacheKey(r), Limit);
        ReplyWith(r, Told(Limit));
        return;
      }
      EnsureWorker(canCreate);
      if worker.None? || worker.value >= |workers| {
        inline := inline + {ForCall(|calls|, r)};
        ReplyWith(r, Inline);
        return;
      }
      RenderThrough(worker.value, r, canPost);
    }

    /** A message of worker `w` that carries an id and an outcome. */
    method OnMessage(w: nat)
      requires w < |workers| && workers[w].answers != []
      modifies this
      ensures Abs() == TakeAnswer(old(Abs()), w)
    {
      hide Settle;
      var answer := workers[w].answers[0];
      workers := workers[w := workers[w].(answers := workers[w].answers[1..])];
      if worker != Some(w) {
        return;
      }
      workerAnswered := true;
      SettleJob(answer.0, answer.1);
    }

    method OnError(w: nat)
      modifies this
      ensures Abs() == FailWorker(old(Abs()), w)
    {
      hide StopWorker;
      if worker != Some(w) {
        return;
      }
      if workerAnswered {
        StopCurrentWorker(Failed);
        return;
      }
      workerUnavailable, worker := true, None;
      for i := 0 to |pending|
        invariant pending == old(pending)
        invariant Abs() == old(Abs()).(unavailable := true, worker := None, inline := inline)
        invariant inline == old(inline) + set p | p in pending[..i] :: ForJob(p.id, p.request)
      {
        assert pending[..i + 1] == pending[..i] + [pending[i]];
        inline := inline + {ForJob(pending[i].id, pending[i].request)};
      }
      assert pending[..|pending|] == pending;
    }

    method OnTimeout(id: nat)
      modifies this
      ensures Abs() == FireTimer(old(Abs()), id)
    {
      hide StopWorker;
      if Lookup(pending, id).None? {
        timers := timers - {id};
        return;
      }
      StopCurrentWorker(TimedOut);
    }

    method OnInlineFinished(run: InlineRun, loaded: bool)
      modifies this
      ensures Abs() == FinishInline(lib, old(Abs()), run, loaded)
    {
      hide Settle, Remember, CacheKey, Compare;
      var (outcome, patches) := Compare(lib, inlinePatches, run.request);
      var result := if loaded then outcome else Failed;
      inline, inlinePatches := inline - {run}, if loaded then patches else [];
      match run {
        case ForJob(id, _) => SettleJob(id, result);
        case ForCall(call, r) =>
          RememberOutcome(CacheKey(r), result);
          if call < |calls| {
            calls := calls[call := calls[call].(reply := Told(result))];
          }
      }
    }

    method OnSettled(id: nat)
      requires 0 < id <= |issued|
      modifies this`inflight
      ensures Abs() == Release(old(Abs()), id)
    {
      var key := CacheKey(issued[id - 1]);
      if key in inflight && inflight[key] == id {
        inflight := inflight - {key};
      }
    }

    method DisposeRenderer()
      modifies this
      ensures Abs() == StopWorker(old(Abs()), Failed).(disposed := true, outcomes := [])
    {
      hide StopWorker;
      disposed := true;
      var live := Abs();
      StopCurrentWorker(Failed);
      DisposedFlag(live, live.(disposed := old(disposed)), Failed);
      outcomes := [];
    }
  }

  lemma PeekBounded(m: Entries<string, Outcome>, key: string, value: Outcome)
    requires Find(m, key) == Some(value)
    ensures Touch(m, key, value, OUTCOMES) == Newest(Remove(m, key) + [(key, value)], OUTCOMES)
  {
  }

  /** Settling does not look at the disposed flag. */
  lemma {:induction false} DisposedSettles(s: State, t: State, ids: seq<nat>, o: Outcome)
    requires s == t.(disposed := s.disposed)
    ensures SettleAll(s, ids, o) == SettleAll(t, ids, o).(disposed := s.disposed)
    decreases |ids|
  {
    if ids != [] {
      DisposedSettle(s, t, ids[0], o);
      DisposedSettles(Settle(s, ids[0], o), Settle(t, ids[0], o), ids[1..], o);
    }
  }

  lemma DisposedSettle(s: State, t: State, id: nat, o: Outcome)
    requires s == t.(disposed := s.disposed)
    ensures Settle(s, id, o) == Settle(t, id, o).(disposed := s.disposed)
    ensures Settle(s, id, o).disposed == s.disposed
  {
    hide CacheKey, Touch, Tell, Lookup, Discard, Remember;
    if Lookup(s.pending, id).Some? {
      var pending, timers := Discard(s.pending, id), s.timers - {id};
      DisposedRemember(s.(pending := pending, timers := timers), t.(pending := pending, timers := timers),
                       CacheKey(Lookup(s.pending, id).value), o);
    }
  }

  lemma DisposedRemember(s: State, t: State, key: string, o: Outcome)
    requires s == t.(disposed := s.disposed)
    ensures Remember(s, key, o) == Remember(t, key, o).(disposed := s.disposed)
  {
    hide Touch;
  }

  lemma DisposedFlag(s: State, t: State, o: Outcome)
    requires s == t.(disposed := s.disposed)
    ensures StopWorker(s, o) == StopWorker(t, o).(disposed := s.disposed)
  {
    DisposedSettles(s.(worker := None), t.(worker := None), PendingIds(s.pending), o);
  }
}

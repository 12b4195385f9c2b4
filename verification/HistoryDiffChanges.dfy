/**
  What a comparison means to the reader who asked for it, over the diff libraries and
  the two texts alone, and when each call is answered: told from the events of a run.
*/
module HistoryDiffChanges {
  import opened Basics
  import opened LruCache
  import opened HistoryDiff

  // ----- what a reply means

  lemma {:induction false} NewlinesAreCounted(text: string)
    ensures Newlines(text) == multiset(text)['\n']
  {
    if text != "" {
      NewlinesAreCounted(text[1..]);
      assert text == [text[0]] + text[1..];
    }
  }

  lemma CountLinesMeaning(text: string)
    ensures CountLines(text) == if text == "" then 0 else 1 + multiset(text)['\n']
  {
    NewlinesAreCounted(text);
  }

  /** The texts are too big to be compared at all. */
  ghost predicate TooBig(source: string, target: string) {
    |source| + |target| > 1_000_000 || CountLines(source) + CountLines(target) > 100_000
  }

  /** The libraries made a patch from source to target that is short enough to be shown. */
  ghost predicate Shows(lib: Libraries, r: Request, patch: string) {
    lib.createPatch("/" + r.path, r.source, r.target) == Made(patch) && CountLines(patch) <= 4_000
  }

  /** What a reader may conclude from an outcome. */
  ghost predicate Means(lib: Libraries, r: Request, o: Outcome) {
    match o
    case Empty => r.source == r.target
    case Rendered(html) =>
      r.source != r.target && !TooBig(r.source, r.target) &&
      exists patch :: Shows(lib, r, patch) && lib.html(patch, CountLines(patch) <= 200, r.format) == Some(html)
    case Limit =>
      r.source != r.target &&
      (TooBig(r.source, r.target) ||
       match lib.createPatch("/" + r.path, r.source, r.target)
       case Made(patch) => CountLines(patch) > 4_000
       case Undefined => true
       case Threw => false)
    case Failed => true
    case TimedOut => true
  }

  lemma UncachedMeans(lib: Libraries, r: Request)
    ensures Means(lib, r, Uncached(lib, r)) && Uncached(lib, r) != TimedOut
    ensures Uncached(lib, r) == Failed ==>
              r.source != r.target && !TooBig(r.source, r.target) &&
              match lib.createPatch("/" + r.path, r.source, r.target)
              case Made(patch) => CountLines(patch) <= 4_000 && lib.html(patch, CountLines(patch) <= 200, r.format).None?
              case Undefined => false
              case Threw => true
  {
    hide CountLines;
    match ComputePatch(lib, r.path, r.source, r.target)
    case Text(patch, _) => assert Shows(lib, r, patch);
    case NoPatch(_) =>
  }

  /**
    Whatever workers, timers and caches did, markup a caller is told is the libraries' markup of the patch from source
    to target, "empty" means equal texts, and "limit" means that a bound was exceeded.
  */
  lemma ToldMeaning(lib: Libraries, contents: string -> (string, string, string), ss: seq<State>, es: seq<Event>, k: nat, i: nat)
    requires Behaviour(lib, contents, ss, es) && k < |ss| && i < |ss[k].calls| && ss[k].calls[i].reply.Told?
    ensures var r := ss[k].calls[i].request;
            match ss[k].calls[i].reply.outcome
            case Empty => r.source == r.target
            case Rendered(html) =>
              exists patch ::
                lib.createPatch("/" + r.path, r.source, r.target) == Made(patch) && CountLines(patch) <= 4_000 &&
                lib.html(patch, CountLines(patch) <= 200, r.format) == Some(html)
            case Limit =>
              r.source != r.target &&
              (|r.source| + |r.target| > 1_000_000 || CountLines(r.source) + CountLines(r.target) > 100_000 ||
               lib.createPatch("/" + r.path, r.source, r.target).Undefined? ||
               exists patch ::
                 lib.createPatch("/" + r.path, r.source, r.target) == Made(patch) && CountLines(patch) > 4_000)
            case _ => true
  {
    hide Caches, Jobs, Ledger, Uncached, Coherent, Step, CountLines, Behaviour;
    var r, o := ss[k].calls[i].request, ss[k].calls[i].reply.outcome;
    if o.Rendered? || o.Empty? || o.Limit? {
      RepliesAreUncached(lib, contents, ss, es, k, i);
      UncachedMeans(lib, r);
      if o.Rendered? {
        var patch :| Shows(lib, r, patch) && lib.html(patch, CountLines(patch) <= 200, r.format) == Some(o.html);
      } else if o.Limit? && lib.createPatch("/" + r.path, r.source, r.target).Made? {
        assert lib.createPatch("/" + r.path, r.source, r.target) == Made(lib.createPatch("/" + r.path, r.source, r.target).patch);
      }
    }
  }

  // ----- when a call is answered

  /** The event gives up every job that is waited for. */
  function GivesUp(s: State, e: Event): Option<Outcome> {
    match e
    case TimerFired(_) => Some(TimedOut)
    case DisposeCalled => Some(Failed)
    case WorkerFailed(w) => if s.worker == Some(w) && s.answered then Some(Failed) else None
    case _ => None
  }

  /** The event answers job `id`: its worker's message, or its run on the page thread. */
  function AnswersJob(lib: Libraries, s: State, e: Event, id: nat): Option<Outcome>
    requires Enabled(s, e)
  {
    match e
    case Answered(w) =>
      if s.worker == Some(w) && s.workers[w].answers[0].0 == id then Some(s.workers[w].answers[0].1) else None
    case InlineFinished(ForJob(n, r), loaded) =>
      if n == id then Some(if loaded then Uncached(lib, r) else Failed) else None
    case _ => None
  }

  /** What an earlier call holds after the event. */
  function ReplyAfter(lib: Libraries, s: State, e: Event, i: nat): Reply
    requires Enabled(s, e) && i < |s.calls|
  {
    match s.calls[i].reply
    case Told(o) => Told(o)
    case Waiting(id) =>
      if GivesUp(s, e).Some? then Told(GivesUp(s, e).value)
      else if AnswersJob(lib, s, e, id).Some? then Told(AnswersJob(lib, s, e, id).value)
      else Waiting(id)
    case Inline =>
      match e
      case InlineFinished(ForCall(call, r), loaded) =>
        if call == i then Told(if loaded then Uncached(lib, r) else Failed) else Inline
      case _ => Inline
  }

  /** What a new call is given. */
  ghost function FirstReply(s: State, r: Request, canCreate: bool, canPost: bool): Reply {
    var key := CacheKey(r);
    if s.disposed then Told(Failed)
    else if Find(s.outcomes, key).Some? then Told(Find(s.outcomes, key).value)
    else if r.source == r.target then Told(Empty)
    else if TooBig(r.source, r.target) then Told(Limit)
    else if s.worker.None? && (s.unavailable || !canCreate) then Inline
    else if key in s.inflight then
      (if s.inflight[key] in s.results then Told(s.results[s.inflight[key]]) else Waiting(s.inflight[key]))
    else if canPost then Waiting(|s.issued| + 1)
    else Told(Failed)
  }

  ghost predicate ReplyLaw(lib: Libraries, s: State, e: Event, t: State)
    requires Enabled(s, e)
  {
    |t.calls| == |s.calls| + (if e.RenderCalled? then 1 else 0) &&
    (forall i: nat :: i < |s.calls| ==> t.calls[i] == Call(s.calls[i].request, ReplyAfter(lib, s, e, i))) &&
    (e.RenderCalled? ==> t.calls[|s.calls|] == Call(e.request, FirstReply(s, e.request, e.canCreate, e.canPost)))
  }

  // settling

  /** Every waiting call's job is pending. */
  lemma WaitingIsPending(lib: Libraries, contents: string -> (string, string, string), s: State, i: nat)
    requires Sound(lib, contents, s) && i < |s.calls| && s.calls[i].reply.Waiting?
    ensures Lookup(s.pending, s.calls[i].reply.id).Some?
  {
    hide Caches, Jobs, Coherent, CacheKey;
    assert CallTrue(lib, contents, s, s.calls[i]);
    LookupMeaning(s.pending, s.calls[i].reply.id);
  }

  lemma SettleTells(s: State, id: nat, o: Outcome)
    ensures |Settle(s, id, o).calls| == |s.calls|
    ensures forall i :: 0 <= i < |s.calls| ==>
              Settle(s, id, o).calls[i] ==
              if s.calls[i].reply == Waiting(id) && Lookup(s.pending, id).Some? then s.calls[i].(reply := Told(o)) else s.calls[i]
  {
    hide Remembered, CacheKey, Discard, Lookup;
  }

  lemma {:induction false} SettleAllTells(s: State, ids: seq<nat>, o: Outcome)
    ensures |SettleAll(s, ids, o).calls| == |s.calls|
    ensures forall i :: 0 <= i < |s.calls| ==>
              SettleAll(s, ids, o).calls[i] == s.calls[i] ||
              (s.calls[i].reply.Waiting? && SettleAll(s, ids, o).calls[i] == s.calls[i].(reply := Told(o)))
    decreases |ids|
  {
    if ids != [] {
      hide Settle;
      SettleTells(s, ids[0], o);
      SettleAllTells(Settle(s, ids[0], o), ids[1..], o);
    }
  }

  /** Giving up tells every waiting call, and no other. */
  lemma StopTells(lib: Libraries, contents: string -> (string, string, string), s: State, o: Outcome)
    requires Sound(lib, contents, s) && (o == Failed || o == TimedOut)
    ensures var t := StopWorker(s, o);
            |t.calls| == |s.calls| &&
            forall i :: 0 <= i < |s.calls| ==>
              t.calls[i] == if s.calls[i].reply.Waiting? then s.calls[i].(reply := Told(o)) else s.calls[i]
  {
    hide Sound, SettleAll, StopWorker;
    var t := StopWorker(s, o);
    StopWorkerKeeps(lib, contents, s, o);
    assert |t.calls| == |s.calls| && forall i :: 0 <= i < |s.calls| ==>
             t.calls[i] == s.calls[i] || (s.calls[i].reply.Waiting? && t.calls[i] == s.calls[i].(reply := Told(o))) by {
      StopIsSettleAll(s, o);
      SettleAllTells(s.(worker := None), PendingIds(s.pending), o);
    }
    forall i | 0 <= i < |s.calls| && s.calls[i].reply.Waiting? ensures t.calls[i] != s.calls[i] {
      NothingWaits(lib, contents, t, i);
    }
  }

  lemma StopIsSettleAll(s: State, o: Outcome)
    ensures StopWorker(s, o) == SettleAll(s.(worker := None), PendingIds(s.pending), o)
  {
  }

  lemma StoppedReplies(lib: Libraries, contents: string -> (string, string, string), s: State, e: Event)
    requires Sound(lib, contents, s) && Enabled(s, e) && (e.WorkerFailed? || e.TimerFired? || e.DisposeCalled?)
    ensures ReplyLaw(lib, s, e, Step(lib, s, e))
  {
    hide Sound, StopWorker, SettleAll;
    if GivesUp(s, e).Some? { StopTells(lib, contents, s, GivesUp(s, e).value); }
    if e.TimerFired? { TimerIsPending(lib, contents, s, e.id); }
  }

  lemma TimerIsPending(lib: Libraries, contents: string -> (string, string, string), s: State, id: nat)
    requires Sound(lib, contents, s) && id in s.timers
    ensures Lookup(s.pending, id).Some?
  {
    hide Caches, Jobs, Callers;
    LookupMeaning(s.pending, id);
  }

  lemma AnsweredReplies(lib: Libraries, contents: string -> (string, string, string), s: State, e: Event)
    requires Sound(lib, contents, s) && Enabled(s, e) && e.Answered?
    ensures ReplyLaw(lib, s, e, Step(lib, s, e))
  {
    hide Sound, Settle, Lookup;
    var side := s.workers[e.w];
    var t := s.(workers := s.workers[e.w := side.(answers := side.answers[1..])]).(answered := true);
    SettleTells(t, side.answers[0].0, side.answers[0].1);
    forall i | 0 <= i < |s.calls| && s.calls[i].reply.Waiting? ensures Lookup(s.pending, s.calls[i].reply.id).Some? {
      WaitingIsPending(lib, contents, s, i);
    }
  }

  /** The page thread's run as one state update. */
  function Ran(lib: Libraries, s: State, run: InlineRun, loaded: bool): State {
    s.(inline := s.inline - {run}, inlinePatches := if loaded then Compare(lib, s.inlinePatches, run.request).1 else [])
  }

  function RunOutcome(lib: Libraries, run: InlineRun, loaded: bool): Outcome {
    if loaded then Uncached(lib, run.request) else Failed
  }

  lemma FinishExactly(lib: Libraries, contents: string -> (string, string, string), s: State, run: InlineRun, loaded: bool)
    requires Sound(lib, contents, s) && run in s.inline
    ensures FinishInline(lib, s, run, loaded) ==
            if run.ForJob? then Settle(Ran(lib, s, run, loaded), run.id, RunOutcome(lib, run, loaded))
            else Remember(Ran(lib, s, run, loaded), CacheKey(run.request), RunOutcome(lib, run, loaded)).(
                   calls := s.calls[run.call := Call(run.request, Told(RunOutcome(lib, run, loaded)))])
    ensures run.ForCall? ==> run.call < |s.calls| && s.calls[run.call] == Call(run.request, Inline)
    ensures Sound(lib, contents, Ran(lib, s, run, loaded)) && RunTrue(s, run)
  {
    hide Sound, CacheKey, Compare, Settle, Remembered, Uncached, Coherent, PatchesTrue;
    InlineRequest(lib, contents, s, run);
    InlineIsUncached(lib, contents, s, run);
    EmptyPatches(lib, contents);
    CompareIsUncached(lib, contents, s.inlinePatches, run.request);
    PatchedKeeps(lib, contents, s, run, Ran(lib, s, run, loaded).inlinePatches);
  }

  lemma InlineReplies(lib: Libraries, contents: string -> (string, string, string), s: State, e: Event)
    requires Sound(lib, contents, s) && Enabled(s, e) && e.InlineFinished?
    ensures ReplyLaw(lib, s, e, Step(lib, s, e))
  {
    hide Sound, CacheKey, Compare, Settle, FinishInline, Uncached, Lookup, Remembered;
    FinishExactly(lib, contents, s, e.run, e.loaded);
    if e.run.ForJob? {
      SettleTells(Ran(lib, s, e.run, e.loaded), e.run.id, RunOutcome(lib, e.run, e.loaded));
      forall i | 0 <= i < |s.calls| && s.calls[i].reply.Waiting? ensures Lookup(s.pending, s.calls[i].reply.id).Some? {
        WaitingIsPending(lib, contents, s, i);
      }
    }
  }

  lemma InlineIsUncached(lib: Libraries, contents: string -> (string, string, string), s: State, run: InlineRun)
    requires Sound(lib, contents, s) && Coherent(contents, run.request)
    ensures Compare(lib, s.inlinePatches, run.request).0 == Uncached(lib, run.request)
  {
    CompareIsUncached(lib, contents, s.inlinePatches, run.request);
  }

  lemma QuietReplies(lib: Libraries, s: State, e: Event)
    requires Enabled(s, e) && (e.Peeked? || e.WorkerRan? || e.Babbled? || e.Released?)
    ensures ReplyLaw(lib, s, e, Step(lib, s, e))
  {
    hide CacheKey, Compare, Find, Touch;
  }

  // asking for a comparison

  /** No earlier outcome, no short answer: the request needs an engine. */
  ghost predicate Needs(s: State, e: Event) {
    e.RenderCalled? && !s.disposed && Find(s.outcomes, CacheKey(e.request)).None? &&
    e.request.source != e.request.target && !TooBig(e.request.source, e.request.target)
  }

  predicate NoWorker(s: State, e: Event) {
    e.RenderCalled? && s.worker.None? && (s.unavailable || !e.canCreate)
  }

  /** A first job for its key. */
  ghost predicate NewJob(s: State, e: Event) {
    Needs(s, e) && !NoWorker(s, e) && CacheKey(e.request) !in s.inflight
  }

  /** The state in which a request finds or starts its worker. */
  lemma NeedsExactly(s: State, r: Request, canCreate: bool, canPost: bool)
    requires Served(s)
    ensures var e := RenderCalled(r, canCreate, canPost);
            if Needs(s, e) then
              var u := StartWorker(s, canCreate);
              RenderStep(s, r, canCreate, canPost) ==
              if NoWorker(s, e) then Reply1(u.(inline := u.inline + {ForCall(|s.calls|, r)}), r, Inline)
              else if u.worker.Some? && u.worker.value < |u.workers| then RenderInWorker(u, u.worker.value, r, canPost)
              else s
            else
              RenderStep(s, r, canCreate, canPost) ==
              s.(calls := s.calls + [Call(r, FirstReply(s, r, canCreate, canPost))],
                 outcomes :=
                   if s.disposed then s.outcomes
                   else if Find(s.outcomes, CacheKey(r)).Some?
                   then Touch(s.outcomes, CacheKey(r), Find(s.outcomes, CacheKey(r)).value, 8)
                   else Touch(s.outcomes, CacheKey(r), if r.source == r.target then Empty else Limit, 8))
    ensures var e := RenderCalled(r, canCreate, canPost);
            Needs(s, e) && !NoWorker(s, e) ==>
              StartWorker(s, canCreate).worker.Some? && StartWorker(s, canCreate).worker.value < |StartWorker(s, canCreate).workers|
  {
    hide CacheKey, Find, Touch, RenderInWorker, CountLines;
  }

  lemma StartExactly(s: State, canCreate: bool)
    ensures StartWorker(s, canCreate) ==
            if s.worker.Some? || s.unavailable then s
            else if canCreate then
              s.(workers := s.workers + [WorkerSide([], [], [])], worker := Some(|s.workers|), answered := false)
            else s.(unavailable := true)
  {
  }

  /** The request that is posted, and the one that cannot be. */
  lemma IssueExactly(lib: Libraries, contents: string -> (string, string, string), s: State, w: nat, r: Request, canPost: bool)
    requires Sound(lib, contents, s) && w < |s.workers| && Coherent(contents, r) && CacheKey(r) !in s.inflight
    ensures var id, t := |s.issued| + 1, RenderInWorker(s, w, r, canPost);
            t == s.(issued := s.issued + [r], inflight := s.inflight[CacheKey(r) := id],
                    calls := s.calls + [Call(r, if canPost then Waiting(id) else Told(Failed))],
                    pending := t.pending, timers := t.timers, results := t.results, workers := t.workers) &&
            (forall p :: p in t.pending <==> p in s.pending || (canPost && p == Pending(id, r))) &&
            t.results == (if canPost then s.results else s.results[id := Failed]) &&
            t.workers == if canPost then s.workers[w := s.workers[w].(jobs := s.workers[w].jobs + [Pending(id, r)])] else s.workers
  {
    hide Sound, CacheKey, Coherent, Touch, Settle;
    ResultsBelow(lib, contents, s);
    NoneWaits(lib, contents, s);
    OpenedKeeps(lib, contents, s, r);
    assert forall p :: p in Opened(s, r).pending <==> p in s.pending || p == Pending(|s.issued| + 1, r);
    if !canPost {
      IssueRefused(s, w, r);
      RefusedExactly(lib, contents, s, r);
    }
  }

  /** Nobody waits for a job that has not been issued. */
  lemma NoneWaits(lib: Libraries, contents: string -> (string, string, string), s: State)
    requires Sound(lib, contents, s)
    ensures forall i :: 0 <= i < |s.calls| ==> s.calls[i].reply != Waiting(|s.issued| + 1)
    ensures forall p <- s.pending :: p.id <= |s.issued|
  {
    hide Caches, Jobs, CacheKey, Coherent;
    forall i | 0 <= i < |s.calls| ensures s.calls[i].reply != Waiting(|s.issued| + 1) {
      assert CallTrue(lib, contents, s, s.calls[i]);
    }
  }

  lemma RefusedExactly(lib: Libraries, contents: string -> (string, string, string), s: State, r: Request)
    requires Sound(lib, contents, s) && Coherent(contents, r) && CacheKey(r) !in s.inflight
    ensures var id := |s.issued| + 1;
            var o, t := Opened(s, r), Settle(Opened(s, r), |s.issued| + 1, Failed);
            t == o.(pending := t.pending, timers := t.timers, results := s.results[id := Failed]) &&
            forall p :: p in t.pending <==> p in s.pending
  {
    hide Caches, Jobs, Callers, CacheKey, Coherent, Touch;
    var id, o := |s.issued| + 1, Opened(s, r);
    OpenedKeeps(lib, contents, s, r);
    SettleLedger(o, id, Failed);
    NoneWaits(lib, contents, s);
    assert Tell(o.calls, id, Failed) == o.calls;
    assert forall p :: p in o.pending <==> p in s.pending || p == Pending(id, r);
  }

  lemma WorkerReplies(lib: Libraries, contents: string -> (string, string, string), s: State, w: nat, r: Request, canPost: bool)
    requires Sound(lib, contents, s) && w < |s.workers| && Coherent(contents, r)
    ensures RenderInWorker(s, w, r, canPost).calls ==
            s.calls + [Call(r, if CacheKey(r) in s.inflight then
                                 (if s.inflight[CacheKey(r)] in s.results then Told(s.results[s.inflight[CacheKey(r)]])
                                  else Waiting(s.inflight[CacheKey(r)]))
                               else if canPost then Waiting(|s.issued| + 1) else Told(Failed))]
  {
    hide Sound, CacheKey, Coherent, Issue;
    if CacheKey(r) !in s.inflight { IssueExactly(lib, contents, s, w, r, canPost); }
  }

  lemma RenderCalls(lib: Libraries, contents: string -> (string, string, string), s: State, e: Event)
    requires Sound(lib, contents, s) && Served(s) && e.RenderCalled? && Coherent(contents, e.request)
    ensures RenderStep(s, e.request, e.canCreate, e.canPost).calls ==
            s.calls + [Call(e.request, FirstReply(s, e.request, e.canCreate, e.canPost))]
  {
    hide Sound, Served, CacheKey, Coherent, RenderInWorker, RenderStep, Find, Touch, Needs, NoWorker, StartWorker, FirstReply;
    var r, u := e.request, StartWorker(s, e.canCreate);
    NeedsExactly(s, r, e.canCreate, e.canPost);
    StartExactly(s, e.canCreate);
    if Needs(s, e) {
      NeedsReply(s, e);
      if !NoWorker(s, e) {
        StartWorkerKeeps(lib, contents, s, e.canCreate);
        WorkerReplies(lib, contents, u, u.worker.value, r, e.canPost);
      }
    }
  }

  lemma RenderReplies(lib: Libraries, contents: string -> (string, string, string), s: State, e: Event)
    requires Sound(lib, contents, s) && Served(s) && e.RenderCalled? && Coherent(contents, e.request)
    ensures ReplyLaw(lib, s, e, Step(lib, s, e))
  {
    hide Sound, Served, Coherent, RenderStep, FirstReply;
    RenderCalls(lib, contents, s, e);
  }

  lemma NeedsReply(s: State, e: Event)
    requires Needs(s, e)
    ensures FirstReply(s, e.request, e.canCreate, e.canPost) ==
            if NoWorker(s, e) then Inline
            else if CacheKey(e.request) in s.inflight then
              (if s.inflight[CacheKey(e.request)] in s.results then Told(s.results[s.inflight[CacheKey(e.request)]])
               else Waiting(s.inflight[CacheKey(e.request)]))
            else if e.canPost then Waiting(|s.issued| + 1)
            else Told(Failed)
  {
    hide CacheKey, TooBig;
  }

  lemma StepReplies(lib: Libraries, contents: string -> (string, string, string), s: State, e: Event)
    requires Sound(lib, contents, s) && Served(s) && Enabled(s, e) && CoherentEvent(contents, e)
    ensures ReplyLaw(lib, s, e, Step(lib, s, e))
  {
    hide Sound, Served, Enabled, Step, ReplyLaw, Coherent;
    if e.RenderCalled? {
      RenderReplies(lib, contents, s, e);
    } else if e.WorkerFailed? || e.TimerFired? || e.DisposeCalled? {
      StoppedReplies(lib, contents, s, e);
    } else if e.Answered? {
      AnsweredReplies(lib, contents, s, e);
    } else if e.InlineFinished? {
      InlineReplies(lib, contents, s, e);
    } else {
      QuietReplies(lib, s, e);
    }
  }

  /**
    In every run a call is answered at once from the cache, for equal or oversized texts, or when the renderer is
    disposed; it waits for its key's job otherwise, and is told exactly when that job is answered or given up.
  */
  lemma RepliesExactly(lib: Libraries, contents: string -> (string, string, string), ss: seq<State>, es: seq<Event>, k: nat)
    requires Behaviour(lib, contents, ss, es) && k < |es|
    ensures |ss| == |es| + 1 && Enabled(ss[k], es[k]) && ReplyLaw(lib, ss[k], es[k], ss[k + 1])
  {
    hide Sound, Served, Step, Enabled, CoherentEvent, ReplyLaw, Behaviour;
    BehaviourLength(lib, contents, ss, es);
    AlwaysSound(lib, contents, ss, es, k);
    OneFollows(lib, contents, ss, es, k);
    StepReplies(lib, contents, ss[k], es[k]);
  }

  // ----- jobs and workers

  /** The event ends the pending job `id` with an outcome. */
  function Ends(lib: Libraries, s: State, e: Event, id: nat): Option<Outcome>
    requires Enabled(s, e)
  {
    if GivesUp(s, e).Some? then GivesUp(s, e) else AnswersJob(lib, s, e, id)
  }

  ghost predicate PendingId(s: State, id: nat) {
    exists p <- s.pending :: p.id == id
  }

  /** Which jobs are pending and what the ended ones gave, which job a key is running, how many there have been. */
  ghost predicate JobLaw(lib: Libraries, s: State, e: Event, t: State)
    requires Enabled(s, e)
  {
    var id := |s.issued| + 1;
    t.issued == s.issued + (if NewJob(s, e) then [e.request] else []) &&
    (forall p :: p in t.pending <==>
       (p in s.pending && Ends(lib, s, e, p.id).None?) || (NewJob(s, e) && e.canPost && p == Pending(id, e.request))) &&
    (forall p <- s.pending :: Ends(lib, s, e, p.id).Some? ==>
       p.id in t.results && t.results[p.id] == Ends(lib, s, e, p.id).value) &&
    (forall n <- s.results :: n in t.results && t.results[n] == s.results[n]) &&
    (NewJob(s, e) && !e.canPost ==> id in t.results && t.results[id] == Failed) &&
    (forall n <- t.results :: n in s.results || (NewJob(s, e) && !e.canPost && n == id) || PendingId(s, n)) &&
    t.inflight ==
    if NewJob(s, e) then s.inflight[CacheKey(e.request) := id]
    else if e.Released? && CacheKey(s.issued[e.id - 1]) in s.inflight && s.inflight[CacheKey(s.issued[e.id - 1])] == e.id
    then s.inflight - {CacheKey(s.issued[e.id - 1])}
    else s.inflight
  }

  /** A worker is started, used and given up; without one the page thread takes over. */
  ghost predicate WorkerLaw(lib: Libraries, s: State, e: Event, t: State)
    requires Enabled(s, e)
  {
    var starts := Needs(s, e) && s.worker.None? && !s.unavailable && e.canCreate;
    var breaks := e.WorkerFailed? && s.worker == Some(e.w) && !s.answered;
    t.worker == (if GivesUp(s, e).Some? || breaks then None else if starts then Some(|s.workers|) else s.worker) &&
    (t.unavailable <==> s.unavailable || breaks || (Needs(s, e) && s.worker.None? && !e.canCreate)) &&
    (t.answered <==> if starts then false else s.answered || ((e.Answered? || e.Babbled?) && s.worker == Some(e.w))) &&
    (t.disposed <==> s.disposed || e.DisposeCalled?) &&
    (forall run :: run in t.inline <==>
       (run in s.inline && !(e.InlineFinished? && e.run == run)) ||
       (Needs(s, e) && NoWorker(s, e) && run == ForCall(|s.calls|, e.request)) ||
       (breaks && run.ForJob? && Pending(run.id, run.request) in s.pending)) &&
    |t.workers| == |s.workers| + (if starts then 1 else 0) &&
    forall w: nat :: w < |t.workers| ==> SideLaw(lib, s, e, t, w)
  }

  /** The jobs posted to one worker, and the answers it has under way. */
  ghost predicate SideLaw(lib: Libraries, s: State, e: Event, t: State, w: nat)
    requires Enabled(s, e) && w < |t.workers|
  {
    var side := if w < |s.workers| then s.workers[w] else WorkerSide([], [], []);
    t.workers[w].jobs ==
      (if e.WorkerRan? && e.w == w then side.jobs[1..]
       else if NewJob(s, e) && e.canPost && t.worker == Some(w) then side.jobs + [Pending(|s.issued| + 1, e.request)]
       else side.jobs) &&
    t.workers[w].answers ==
      if e.WorkerRan? && e.w == w
      then side.answers + [(side.jobs[0].id, if e.threw then Failed else Uncached(lib, side.jobs[0].request))]
      else if e.Answered? && e.w == w then side.answers[1..]
      else side.answers
  }

  /** Ending one job: it leaves the queue with its result, and every other job is left alone. */
  lemma SettleExactly(lib: Libraries, contents: string -> (string, string, string), s: State, id: nat, o: Outcome)
    requires Sound(lib, contents, s)
    ensures var t := Settle(s, id, o);
            t == s.(pending := t.pending, timers := t.timers, outcomes := t.outcomes, calls := t.calls,
                    results := if PendingId(s, id) then s.results[id := o] else s.results) &&
            (forall p :: p in t.pending <==> p in s.pending && p.id != id) &&
            (PendingId(s, id) ==> id !in s.results) &&
            (t.outcomes == s.outcomes || (o != Failed && o != TimedOut))
  {
    hide Caches, Jobs, Callers, CacheKey, Touch, Tell;
    LookupMeaning(s.pending, id);
    if Lookup(s.pending, id).Some? { SettleLedger(s, id, o); }
  }

  /** Some pending jobs have been given up with outcome `o`; nothing else has happened. */
  ghost predicate GivenUp(s: State, t: State, o: Outcome) {
    t == s.(pending := t.pending, timers := t.timers, calls := t.calls, results := t.results) &&
    (forall n <- s.results :: n in t.results && t.results[n] == s.results[n]) &&
    (forall p <- t.pending :: p in s.pending) &&
    (forall p <- s.pending :: p in t.pending || (p.id in t.results && t.results[p.id] == o)) &&
    (forall n <- t.results :: n in s.results || PendingId(s, n))
  }

  lemma GivenUpOnce(lib: Libraries, contents: string -> (string, string, string), s: State, id: nat, o: Outcome)
    requires Sound(lib, contents, s) && (o == Failed || o == TimedOut)
    ensures GivenUp(s, Settle(s, id, o), o)
  {
    hide Sound, Settle;
    SettleExactly(lib, contents, s, id, o);
  }

  lemma GivenUpTwice(s: State, t: State, u: State, o: Outcome)
    requires GivenUp(s, t, o) && GivenUp(t, u, o)
    ensures GivenUp(s, u, o)
  {
  }

  lemma GivenUpNone(s: State, o: Outcome)
    ensures GivenUp(s, s, o)
  {
  }

  lemma {:induction false} SettleAllExactly(lib: Libraries, contents: string -> (string, string, string), s: State, ids: seq<nat>, o: Outcome)
    requires Sound(lib, contents, s) && (o == Failed || o == TimedOut)
    ensures GivenUp(s, SettleAll(s, ids, o), o)
    decreases |ids|
  {
    hide Sound, Settle, GivenUp, Honest;
    if ids == [] {
      GivenUpNone(s, o);
    } else {
      var t := Settle(s, ids[0], o);
      GivenUpOnce(lib, contents, s, ids[0], o);
      FailureIsHonest(lib, s, ids[0], o);
      SettleKeeps(lib, contents, s, ids[0], o);
      SettleAllExactly(lib, contents, t, ids[1..], o);
      GivenUpTwice(s, t, SettleAll(t, ids[1..], o), o);
    }
  }

  lemma FailureIsHonest(lib: Libraries, s: State, id: nat, o: Outcome)
    requires o == Failed || o == TimedOut
    ensures 0 < id <= |s.issued| ==> Honest(lib, s.issued[id - 1], o)
  {
    hide Uncached;
  }

  lemma StopExactly(lib: Libraries, contents: string -> (string, string, string), s: State, o: Outcome)
    requires Sound(lib, contents, s) && (o == Failed || o == TimedOut)
    ensures var t := StopWorker(s, o);
            t == s.(worker := None, pending := [], timers := t.timers, calls := t.calls, results := t.results) &&
            (forall n <- s.results :: n in t.results && t.results[n] == s.results[n]) &&
            (forall p <- s.pending :: p.id in t.results && t.results[p.id] == o) &&
            (forall n <- t.results :: n in s.results || PendingId(s, n))
  {
    hide Sound, SettleAll;
    StopWorkerKeeps(lib, contents, s, o);
    ConnectionFree(lib, contents, s, s.(worker := None));
    SettleAllExactly(lib, contents, s.(worker := None), PendingIds(s.pending), o);
  }

  lemma StoppedJobs(lib: Libraries, contents: string -> (string, string, string), s: State, e: Event)
    requires Sound(lib, contents, s) && Enabled(s, e) && (e.WorkerFailed? || e.TimerFired? || e.DisposeCalled?)
    ensures JobLaw(lib, s, e, Step(lib, s, e)) && WorkerLaw(lib, s, e, Step(lib, s, e))
  {
    hide Sound, StopWorker, SettleAll;
    if GivesUp(s, e).Some? { StopExactly(lib, contents, s, GivesUp(s, e).value); }
    if e.TimerFired? { TimerIsPending(lib, contents, s, e.id); }
  }

  lemma AnsweredJobs(lib: Libraries, contents: string -> (string, string, string), s: State, e: Event)
    requires Sound(lib, contents, s) && Enabled(s, e) && e.Answered?
    ensures JobLaw(lib, s, e, Step(lib, s, e)) && WorkerLaw(lib, s, e, Step(lib, s, e))
  {
    hide Sound, Settle, Lookup;
    var side := s.workers[e.w];
    var popped := s.(workers := s.workers[e.w := side.(answers := side.answers[1..])]);
    PopAnswerKeeps(lib, contents, s, e.w);
    if s.worker == Some(e.w) {
      ConnectionFree(lib, contents, popped, popped.(answered := true));
      SettleExactly(lib, contents, popped.(answered := true), side.answers[0].0, side.answers[0].1);
    }
  }

  lemma InlineSettles(lib: Libraries, contents: string -> (string, string, string), s: State, e: Event)
    requires Sound(lib, contents, s) && Enabled(s, e) && e.InlineFinished?
    ensures var t := Step(lib, s, e);
            var id := if e.run.ForJob? then Some(e.run.id) else None;
            t == s.(inline := s.inline - {e.run}, inlinePatches := t.inlinePatches, outcomes := t.outcomes, calls := t.calls,
                    pending := t.pending, timers := t.timers, results := t.results) &&
            (forall p :: p in t.pending <==> p in s.pending && Some(p.id) != id) &&
            t.results == if id.Some? && PendingId(s, id.value)
                         then s.results[id.value := if e.loaded then Uncached(lib, e.run.request) else Failed] else s.results
    ensures e.run.ForJob? && PendingId(s, e.run.id) ==> e.run.id !in s.results
  {
    hide Sound, Settle, Compare, Remembered, CacheKey, FinishInline, Uncached;
    FinishExactly(lib, contents, s, e.run, e.loaded);
    if e.run.ForJob? {
      SettleExactly(lib, contents, Ran(lib, s, e.run, e.loaded), e.run.id, RunOutcome(lib, e.run, e.loaded));
    }
  }

  lemma InlineJobs(lib: Libraries, contents: string -> (string, string, string), s: State, e: Event)
    requires Sound(lib, contents, s) && Enabled(s, e) && e.InlineFinished?
    ensures JobLaw(lib, s, e, Step(lib, s, e)) && WorkerLaw(lib, s, e, Step(lib, s, e))
  {
    hide Sound, Step, Uncached;
    InlineSettles(lib, contents, s, e);
  }

  /** No job begins or ends. */
  lemma SameJobs(lib: Libraries, s: State, e: Event, t: State)
    requires Enabled(s, e) && (e.RenderCalled? || e.Peeked? || e.Babbled? || e.WorkerRan?) && !NewJob(s, e)
    requires t.issued == s.issued && t.pending == s.pending && t.results == s.results && t.inflight == s.inflight
    ensures JobLaw(lib, s, e, t)
  {
    hide CacheKey, Needs;
  }

  lemma QuietJobs(lib: Libraries, contents: string -> (string, string, string), s: State, e: Event)
    requires Sound(lib, contents, s) && Enabled(s, e) && (e.Peeked? || e.Babbled?)
    ensures JobLaw(lib, s, e, Step(lib, s, e)) && WorkerLaw(lib, s, e, Step(lib, s, e))
  {
    hide Sound, CacheKey, Find, Touch, JobLaw;
    SameJobs(lib, s, e, Step(lib, s, e));
  }

  lemma ReleasedJobs(lib: Libraries, s: State, e: Event)
    requires Enabled(s, e) && e.Released?
    ensures JobLaw(lib, s, e, Step(lib, s, e)) && WorkerLaw(lib, s, e, Step(lib, s, e))
  {
    hide CacheKey;
  }

  lemma RanJobs(lib: Libraries, contents: string -> (string, string, string), s: State, e: Event)
    requires Sound(lib, contents, s) && Enabled(s, e) && e.WorkerRan?
    ensures JobLaw(lib, s, e, Step(lib, s, e)) && WorkerLaw(lib, s, e, Step(lib, s, e))
  {
    hide Sound, CacheKey, Compare, Uncached, Coherent, PatchesTrue, JobLaw;
    WorkerIsUncached(lib, contents, s, e.w);
    SameJobs(lib, s, e, Step(lib, s, e));
  }

  lemma WorkerIsUncached(lib: Libraries, contents: string -> (string, string, string), s: State, w: nat)
    requires Sound(lib, contents, s) && w < |s.workers| && s.workers[w].jobs != []
    ensures var job := s.workers[w].jobs[0]; Compare(lib, s.workers[w].patches, job.request).0 == Uncached(lib, job.request)
  {
    hide Ledger, Callers, CacheKey, Compare, Uncached, Coherent, PatchesTrue, OutcomesTrue, Honest;
    var side := s.workers[w];
    assert side in s.workers && side.jobs[0] in side.jobs;
    assert s.issued[side.jobs[0].id - 1] in s.issued;
    CompareIsUncached(lib, contents, side.patches, side.jobs[0].request);
  }

  /** The worker a request finds or starts; nothing else changes yet. */
  lemma StartedWorkers(lib: Libraries, s: State, e: Event, t: State)
    requires Served(s) && e.RenderCalled? && Needs(s, e) && !NewJob(s, e)
    requires var u := StartWorker(s, e.canCreate);
             t == u.(calls := t.calls, inline := if NoWorker(s, e) then s.inline + {ForCall(|s.calls|, e.request)} else s.inline)
    ensures WorkerLaw(lib, s, e, t)
  {
    hide Needs, Served, NewJob;
    StartExactly(s, e.canCreate);
  }

  lemma ShortJobs(lib: Libraries, s: State, e: Event, t: State)
    requires e.RenderCalled? && !Needs(s, e) && t == s.(calls := t.calls, outcomes := t.outcomes)
    ensures JobLaw(lib, s, e, t) && WorkerLaw(lib, s, e, t)
  {
    hide Needs, JobLaw;
    SameJobs(lib, s, e, t);
  }

  lemma NewJobs(lib: Libraries, contents: string -> (string, string, string), s: State, e: Event, w: nat)
    requires Sound(lib, contents, s) && Served(s) && e.RenderCalled? && Coherent(contents, e.request) && NewJob(s, e)
    requires var u := StartWorker(s, e.canCreate); u.worker == Some(w) && w < |u.workers|
    ensures JobLaw(lib, s, e, RenderInWorker(StartWorker(s, e.canCreate), w, e.request, e.canPost))
  {
    hide Sound, Coherent, CacheKey, RenderInWorker, StartWorker, Needs, Served;
    StartExactly(s, e.canCreate);
    StartWorkerKeeps(lib, contents, s, e.canCreate);
    IssueExactly(lib, contents, StartWorker(s, e.canCreate), w, e.request, e.canPost);
    ResultsBelow(lib, contents, s);
  }

  lemma NewWorkers(lib: Libraries, contents: string -> (string, string, string), s: State, e: Event, w: nat)
    requires Sound(lib, contents, s) && Served(s) && e.RenderCalled? && Coherent(contents, e.request) && NewJob(s, e)
    requires var u := StartWorker(s, e.canCreate); u.worker == Some(w) && w < |u.workers|
    ensures WorkerLaw(lib, s, e, RenderInWorker(StartWorker(s, e.canCreate), w, e.request, e.canPost))
  {
    hide Sound, Coherent, CacheKey, RenderInWorker, StartWorker, Needs;
    StartExactly(s, e.canCreate);
    StartWorkerKeeps(lib, contents, s, e.canCreate);
    IssueExactly(lib, contents, StartWorker(s, e.canCreate), w, e.request, e.canPost);
  }

  lemma RenderJobs(lib: Libraries, contents: string -> (string, string, string), s: State, e: Event)
    requires Sound(lib, contents, s) && Served(s) && e.RenderCalled? && Coherent(contents, e.request)
    ensures JobLaw(lib, s, e, RenderStep(s, e.request, e.canCreate, e.canPost))
    ensures WorkerLaw(lib, s, e, RenderStep(s, e.request, e.canCreate, e.canPost))
  {
    hide Sound, Served, CacheKey, Coherent, RenderStep, Find, Touch, StartWorker, FirstReply, Issue, JobLaw, WorkerLaw, Needs,
         NoWorker, TooBig;
    var r, u, t := e.request, StartWorker(s, e.canCreate), RenderStep(s, e.request, e.canCreate, e.canPost);
    NeedsExactly(s, r, e.canCreate, e.canPost);
    if !Needs(s, e) {
      ShortJobs(lib, s, e, t);
    } else if NewJob(s, e) {
      NewJobs(lib, contents, s, e, u.worker.value);
      NewWorkers(lib, contents, s, e, u.worker.value);
    } else {
      StartExactly(s, e.canCreate);
      StartedWorkers(lib, s, e, t);
      SameJobs(lib, s, e, t);
    }
  }

  lemma StepJobs(lib: Libraries, contents: string -> (string, string, string), s: State, e: Event)
    requires Sound(lib, contents, s) && Served(s) && Enabled(s, e) && CoherentEvent(contents, e)
    ensures JobLaw(lib, s, e, Step(lib, s, e)) && WorkerLaw(lib, s, e, Step(lib, s, e))
  {
    hide Sound, Served, Enabled, JobLaw, WorkerLaw, Coherent, RenderStep, RunWorker, TakeAnswer, FailWorker, FireTimer,
         FinishInline, Release, StopWorker, PeekStep;
    match e {
      case RenderCalled(_, _, _) => RenderJobs(lib, contents, s, e);
      case WorkerFailed(_) => StoppedJobs(lib, contents, s, e);
      case TimerFired(_) => StoppedJobs(lib, contents, s, e);
      case DisposeCalled => StoppedJobs(lib, contents, s, e);
      case Answered(_) => AnsweredJobs(lib, contents, s, e);
      case InlineFinished(_, _) => InlineJobs(lib, contents, s, e);
      case WorkerRan(_, _) => RanJobs(lib, contents, s, e);
      case Released(_) => ReleasedJobs(lib, s, e);
      case Peeked(_) => QuietJobs(lib, contents, s, e);
      case Babbled(_) => QuietJobs(lib, contents, s, e);
    }
  }

  /**
    A job begins exactly for a request that needs an engine, has a worker, and whose key is not running; it ends exactly
    when it is answered or given up. A worker is started only where there is none, and one that breaks before its first
    answer hands every pending job to the page thread.
  */
  lemma JobsExactly(lib: Libraries, contents: string -> (string, string, string), ss: seq<State>, es: seq<Event>, k: nat)
    requires Behaviour(lib, contents, ss, es) && k < |es|
    ensures |ss| == |es| + 1 && Enabled(ss[k], es[k])
    ensures JobLaw(lib, ss[k], es[k], ss[k + 1]) && WorkerLaw(lib, ss[k], es[k], ss[k + 1])
  {
    hide Sound, Served, Step, Enabled, CoherentEvent, JobLaw, WorkerLaw, Behaviour;
    BehaviourLength(lib, contents, ss, es);
    AlwaysSound(lib, contents, ss, es, k);
    OneFollows(lib, contents, ss, es, k);
    StepJobs(lib, contents, ss[k], es[k]);
  }

  // ----- what is remembered

  /** The outcome a comparison has brought: of a pending job, or of a call of its own. */
  ghost predicate Brings(lib: Libraries, s: State, e: Event, r: Request, o: Outcome)
    requires Enabled(s, e)
  {
    || (exists p <- s.pending :: p.request == r && AnswersJob(lib, s, e, p.id) == Some(o))
    || (e.InlineFinished? && e.run.ForCall? && e.run.request == r && o == if e.loaded then Uncached(lib, r) else Failed)
    || (e.RenderCalled? && !s.disposed && e.request == r && Find(s.outcomes, CacheKey(r)).None? &&
        ((r.source == r.target && o == Empty) || (r.source != r.target && TooBig(r.source, r.target) && o == Limit)))
  }

  /** A reader asks again for a remembered outcome. */
  ghost predicate Revisits(s: State, e: Event, r: Request, o: Outcome) {
    (e == Peeked(r) || (e.RenderCalled? && e.request == r && !s.disposed)) && Find(s.outcomes, CacheKey(r)) == Some(o)
  }

  /** New outcomes other than failures become the newest of eight, revisited ones again; disposal forgets all. */
  ghost predicate MemoryLaw(lib: Libraries, s: State, e: Event, t: State)
    requires Enabled(s, e)
  {
    (forall r, o :: Brings(lib, s, e, r, o) && o != Failed && o != TimedOut ==> t.outcomes == Touch(s.outcomes, CacheKey(r), o, 8)) &&
    (forall r, o :: Revisits(s, e, r, o) ==> t.outcomes == Touch(s.outcomes, CacheKey(r), o, 8)) &&
    (t.outcomes == s.outcomes || e.DisposeCalled? ||
     exists r, o :: Revisits(s, e, r, o) || (Brings(lib, s, e, r, o) && o != Failed && o != TimedOut)) &&
    (e.DisposeCalled? ==> t.outcomes == [])
  }

  lemma AskedMemory(lib: Libraries, contents: string -> (string, string, string), s: State, e: Event)
    requires Sound(lib, contents, s) && Served(s) && e.RenderCalled? && Coherent(contents, e.request)
    ensures MemoryLaw(lib, s, e, RenderStep(s, e.request, e.canCreate, e.canPost))
  {
    hide Sound, Served, CacheKey, Coherent, RenderStep, RenderInWorker, Find, Touch, StartWorker, FirstReply, TooBig, NoWorker;
    var r, u := e.request, StartWorker(s, e.canCreate);
    NeedsExactly(s, r, e.canCreate, e.canPost);
    StartExactly(s, e.canCreate);
    if Needs(s, e) {
      if !NoWorker(s, e) {
        StartWorkerKeeps(lib, contents, s, e.canCreate);
        JobMemory(lib, contents, u, u.worker.value, r, e.canPost);
      }
    } else if !s.disposed {
      if Find(s.outcomes, CacheKey(r)).Some? {
        assert Revisits(s, e, r, Find(s.outcomes, CacheKey(r)).value);
      } else {
        assert Brings(lib, s, e, r, if r.source == r.target then Empty else Limit);
      }
    }
  }

  lemma JobMemory(lib: Libraries, contents: string -> (string, string, string), s: State, w: nat, r: Request, canPost: bool)
    requires Sound(lib, contents, s) && w < |s.workers| && Coherent(contents, r)
    ensures RenderInWorker(s, w, r, canPost).outcomes == s.outcomes
  {
    hide Sound, CacheKey, Coherent, Issue;
    if CacheKey(r) !in s.inflight { IssueExactly(lib, contents, s, w, r, canPost); }
  }

  lemma PeekedMemory(lib: Libraries, s: State, e: Event)
    requires e.Peeked?
    ensures MemoryLaw(lib, s, e, PeekStep(s, e.request))
  {
    hide CacheKey, Touch, Find;
    var r := e.request;
    if Find(s.outcomes, CacheKey(r)).Some? { assert Revisits(s, e, r, Find(s.outcomes, CacheKey(r)).value); }
  }

  /** The answer of one job, whether it is still pending or not. */
  lemma SettleMemory(s: State, id: nat, o: Outcome)
    requires forall i, j :: 0 <= i < j < |s.pending| ==> s.pending[i].id != s.pending[j].id
    ensures forall p <- s.pending :: p.id == id && o != Failed && o != TimedOut ==>
              Settle(s, id, o).outcomes == Touch(s.outcomes, CacheKey(p.request), o, 8)
    ensures Settle(s, id, o).outcomes == s.outcomes ||
            (o != Failed && o != TimedOut && PendingId(s, id))
  {
    hide CacheKey, Touch, Tell, Discard;
    LookupMeaning(s.pending, id);
  }

  lemma AnsweredMemory(lib: Libraries, contents: string -> (string, string, string), s: State, e: Event)
    requires Sound(lib, contents, s) && Enabled(s, e) && e.Answered?
    ensures MemoryLaw(lib, s, e, Step(lib, s, e))
  {
    hide Caches, Jobs, Callers, Settle, Lookup, CacheKey, Touch;
    var side := s.workers[e.w];
    var popped := s.(workers := s.workers[e.w := side.(answers := side.answers[1..])]).(answered := true);
    var id, o := side.answers[0].0, side.answers[0].1;
    if s.worker == Some(e.w) {
      SettleMemory(popped, id, o);
      if PendingId(s, id) {
        var p :| p in s.pending && p.id == id;
        assert AnswersJob(lib, s, e, p.id) == Some(o);
        assert Brings(lib, s, e, p.request, o);
      }
    }
  }

  lemma InlineMemory(lib: Libraries, contents: string -> (string, string, string), s: State, e: Event)
    requires Sound(lib, contents, s) && Enabled(s, e) && e.InlineFinished?
    ensures MemoryLaw(lib, s, e, Step(lib, s, e))
  {
    hide Caches, Jobs, Callers, Settle, Lookup, CacheKey, Touch, Compare, Uncached, FinishInline;
    var run, o := e.run, RunOutcome(lib, e.run, e.loaded);
    FinishExactly(lib, contents, s, run, e.loaded);
    if run.ForJob? {
      JobRunMemory(lib, s, e, Ran(lib, s, run, e.loaded), o);
    } else {
      assert Brings(lib, s, e, run.request, o);
    }
  }

  lemma JobRunMemory(lib: Libraries, s: State, e: Event, t: State, o: Outcome)
    requires Ledger(s) && Enabled(s, e) && e.InlineFinished? && e.run.ForJob?
    requires t == s.(inline := t.inline, inlinePatches := t.inlinePatches) && o == if e.loaded then Uncached(lib, e.run.request) else Failed
    requires IsJob(s, e.run.id, e.run.request)
    ensures MemoryLaw(lib, s, e, Settle(t, e.run.id, o))
  {
    hide Settle, Lookup, CacheKey, Touch, Uncached;
    SettleMemory(t, e.run.id, o);
    if PendingId(s, e.run.id) {
      var p :| p in s.pending && p.id == e.run.id;
      assert AnswersJob(lib, s, e, p.id) == Some(o);
      assert Brings(lib, s, e, p.request, o);
    }
  }

  lemma StoppedMemory(lib: Libraries, contents: string -> (string, string, string), s: State, e: Event)
    requires Sound(lib, contents, s) && Enabled(s, e) && (e.WorkerFailed? || e.TimerFired? || e.DisposeCalled?)
    ensures MemoryLaw(lib, s, e, Step(lib, s, e))
  {
    hide Sound, StopWorker, SettleAll, CacheKey, Touch, Find;
    if GivesUp(s, e).Some? { StopExactly(lib, contents, s, GivesUp(s, e).value); }
  }

  lemma QuietMemory(lib: Libraries, s: State, e: Event)
    requires Enabled(s, e) && (e.WorkerRan? || e.Babbled? || e.Released?)
    ensures MemoryLaw(lib, s, e, Step(lib, s, e))
  {
    hide CacheKey, Compare, Find, Touch;
  }

  lemma StepMemory(lib: Libraries, contents: string -> (string, string, string), s: State, e: Event)
    requires Sound(lib, contents, s) && Served(s) && Enabled(s, e) && CoherentEvent(contents, e)
    ensures MemoryLaw(lib, s, e, Step(lib, s, e))
  {
    hide Sound, Served, Enabled, MemoryLaw, Coherent, RenderStep, RunWorker, TakeAnswer, FailWorker, FireTimer, FinishInline,
         Release, StopWorker, PeekStep;
    match e {
      case Peeked(_) => PeekedMemory(lib, s, e);
      case RenderCalled(_, _, _) => AskedMemory(lib, contents, s, e);
      case Answered(_) => AnsweredMemory(lib, contents, s, e);
      case InlineFinished(_, _) => InlineMemory(lib, contents, s, e);
      case WorkerFailed(_) => StoppedMemory(lib, contents, s, e);
      case TimerFired(_) => StoppedMemory(lib, contents, s, e);
      case DisposeCalled => StoppedMemory(lib, contents, s, e);
      case WorkerRan(_, _) => QuietMemory(lib, s, e);
      case Babbled(_) => QuietMemory(lib, s, e);
      case Released(_) => QuietMemory(lib, s, e);
    }
  }

  /** In every run the outcome cache holds what was brought or revisited last, and never a failure. */
  lemma RemembersExactly(lib: Libraries, contents: string -> (string, string, string), ss: seq<State>, es: seq<Event>, k: nat)
    requires Behaviour(lib, contents, ss, es) && k < |es|
    ensures |ss| == |es| + 1 && Enabled(ss[k], es[k]) && MemoryLaw(lib, ss[k], es[k], ss[k + 1])
  {
    hide Sound, Served, Step, Enabled, CoherentEvent, MemoryLaw, Behaviour;
    BehaviourLength(lib, contents, ss, es);
    AlwaysSound(lib, contents, ss, es, k);
    OneFollows(lib, contents, ss, es, k);
    StepMemory(lib, contents, ss[k], es[k]);
  }

  /** The engine keeps the patch it used as the newest of six, and computes none it still has. */
  lemma CompareRemembers(lib: Libraries, m: PatchCache, r: Request)
    ensures var patch := if Find(m, r.key).Some? then Find(m, r.key).value else ComputePatch(lib, r.path, r.source, r.target);
            Compare(lib, m, r).1 == Touch(m, r.key, patch, 6)
    ensures Find(Compare(lib, m, r).1, r.key).Some?
  {
    hide ComputePatch;
    var t := Compare(lib, m, r).1;
    TouchMeaning(m, r.key, PatchFor(lib, m, r), PATCHES);
    FindMeaning(t, r.key);
    assert t[|t| - 1] in t;
  }
}

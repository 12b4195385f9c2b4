/**
  The event stream of one agent run: its cursor, its ready boundary and the handler calls it makes.
  Parsing a frame is a parameter: None is what the schema or JSON.parse refuses.
*/
module RunStream {
  import opened Basics
  import Decimal

  datatype Phase = Replay | Live

  datatype Context = Context(ownerId: int, sessionId: string, runId: string)

  datatype Boundary = Boundary(ownerId: int, sessionId: string, runId: string, replayThrough: int)

  /** `ownerId` and `sessionId` belong to memory events only. */
  datatype Payload = Payload(kind: string, runId: string, sequence: int, ownerId: int, sessionId: string)

  /**
    What the event source may dispatch. `throws` says that the handler called for it throws, `resetThrows` that
    the reset handler throws if the stream fails on it. A reset handler that throws on opening changes nothing.
  */
  datatype Event =
    | Opened
    | ReadyFrame(lastEventId: string, boundary: Option<Boundary>, throws: bool, resetThrows: bool)
    | DataFrame(kind: string, lastEventId: string, payload: Option<Payload>, throws: bool, resetThrows: bool)
    | Broken(resetThrows: bool)

  datatype Call = Reset | Ready(boundary: Boundary) | Deliver(payload: Payload, phase: Phase) | Close | Error

  datatype Stream = Stream(ready: Option<Boundary>, cursor: nat, failed: bool, calls: seq<Call>)

  // ----- one event

  function SequenceOf(lastEventId: string): Option<nat> {
    if lastEventId != "" && '1' <= lastEventId[0] <= '9' then Decimal.SafeNumber(lastEventId) else None
  }

  function Cleared(s: Stream): Stream {
    s.(ready := None, calls := s.calls + [Reset])
  }

  /** A reset handler that throws leaves the stream failed, but neither closed nor told. */
  function Failed(s: Stream, resetThrows: bool): Stream {
    if s.failed then s else Stream(None, s.cursor, true, s.calls + if resetThrows then [Reset] else [Reset, Close, Error])
  }

  predicate GoodBoundary(ctx: Context, s: Stream, lastEventId: string, b: Boundary) {
    (lastEventId == "" || lastEventId == Decimal.ToDigits(s.cursor)) && s.ready.None? &&
    b.ownerId == ctx.ownerId && b.sessionId == ctx.sessionId && b.runId == ctx.runId && b.replayThrough >= s.cursor
  }

  predicate GoodPayload(ctx: Context, s: Stream, kind: string, lastEventId: string, p: Payload) {
    s.ready.Some? && SequenceOf(lastEventId) == Some(p.sequence) && kind == p.kind && p.runId == ctx.runId &&
    (p.kind == "memory.contextIncluded" || p.kind == "memory.saved" ==>
       p.ownerId == ctx.ownerId && p.sessionId == ctx.sessionId)
  }

  function Step(ctx: Context, s: Stream, e: Event): Stream {
    match e
    case Opened => Cleared(s)
    case Broken(resetThrows) => Failed(s, resetThrows)
    case ReadyFrame(id, boundary, throws, resetThrows) =>
      if s.failed then s
      else if boundary.None? || !GoodBoundary(ctx, s, id, boundary.value) then Failed(s, resetThrows)
      else
        var told := s.(ready := boundary, calls := s.calls + [Ready(boundary.value)]);
        if throws then Failed(told, resetThrows) else told
    case DataFrame(kind, id, payload, throws, resetThrows) =>
      if s.failed then s
      else if payload.None? || !GoodPayload(ctx, s, kind, id, payload.value) then Failed(s, resetThrows)
      else
        var p := payload.value;
        var told := s.(cursor := if s.cursor < p.sequence then p.sequence else s.cursor,
                       calls := s.calls + [Deliver(p, if p.sequence <= s.ready.value.replayThrough then Replay else Live)]);
        if throws then Failed(told, resetThrows) else told
  }

  function Run(ctx: Context, after: nat, events: seq<Event>): Stream {
    if events == [] then Stream(None, after, false, [])
    else Step(ctx, Run(ctx, after, events[..|events| - 1]), events[|events| - 1])
  }

  class AgentRunStream {
    const ctx: Context
    var ready: Option<Boundary>
    var cursor: nat
    var failed: bool
    var calls: seq<Call>

    function Abs(): Stream
      reads this
    {
      Stream(ready, cursor, failed, calls)
    }

    constructor (ctx: Context, after: nat)
      ensures this.ctx == ctx && Abs() == Run(ctx, after, [])
    {
      this.ctx := ctx;
      ready, cursor, failed, calls := None, after, false, [];
    }

    method OnOpen()
      modifies this
      ensures Abs() == Step(ctx, old(Abs()), Opened)
    {
      ready := None;
      calls := calls + [Reset];
    }

    method Fail(resetThrows: bool)
      modifies this
      ensures Abs() == Failed(old(Abs()), resetThrows)
    {
      if failed {
        return;
      }
      failed := true;
      OnOpen();
      if resetThrows {
        return;
      }
      calls := calls + [Close];
      calls := calls + [Error];
    }

    method OnReady(lastEventId: string, boundary: Option<Boundary>, throws: bool, resetThrows: bool)
      modifies this
      ensures Abs() == Step(ctx, old(Abs()), ReadyFrame(lastEventId, boundary, throws, resetThrows))
    {
      if failed {
        return;
      }
      if boundary.None? {
        Fail(resetThrows);
        return;
      }
      if lastEventId != "" && lastEventId != Decimal.ToDigits(cursor) {
        Fail(resetThrows);
        return;
      }
      var b := boundary.value;
      if ready.Some? || b.ownerId != ctx.ownerId || b.sessionId != ctx.sessionId || b.runId != ctx.runId ||
         b.replayThrough < cursor {
        Fail(resetThrows);
        return;
      }
      ready := boundary;
      calls := calls + [Ready(b)];
      if throws {
        Fail(resetThrows);
      }
    }

    method OnData(kind: string, lastEventId: string, payload: Option<Payload>, throws: bool, resetThrows: bool)
      modifies this
      ensures Abs() == Step(ctx, old(Abs()), DataFrame(kind, lastEventId, payload, throws, resetThrows))
    {
      if failed {
        return;
      }
      if payload.None? {
        Fail(resetThrows);
        return;
      }
      var p := payload.value;
      var sequence := SequenceOf(lastEventId);
      if ready.None? || sequence.None? || sequence.value != p.sequence || kind != p.kind || p.runId != ctx.runId {
        Fail(resetThrows);
        return;
      }
      if (p.kind == "memory.contextIncluded" || p.kind == "memory.saved") &&
         (p.ownerId != ctx.ownerId || p.sessionId != ctx.sessionId) {
        Fail(resetThrows);
        return;
      }
      if cursor < sequence.value {
        cursor := sequence.value;
      }
      calls := calls + [Deliver(p, if sequence.value <= ready.value.replayThrough then Replay else Live)];
      if throws {
        Fail(resetThrows);
      }
    }

    method OnError(resetThrows: bool)
      modifies this
      ensures Abs() == Step(ctx, old(Abs()), Broken(resetThrows))
    {
      Fail(resetThrows);
    }
  }

  /** The event source is opened only at a safe, non-negative cursor; null is the refused call. */
  method SubscribeAgentRun(ctx: Context, after: int) returns (stream: AgentRunStream?)
    ensures stream == null <==> after < 0 || after > Decimal.MAX_SAFE
    ensures stream != null ==> fresh(stream) && stream.ctx == ctx && stream.Abs() == Run(ctx, after, [])
  {
    if after < 0 || after > Decimal.MAX_SAFE {
      return null;
    }
    stream := new AgentRunStream(ctx, after);
  }

  // ----- what the calls alone say

  /** The boundary told last, unless a reset came after it. */
  function OpenBoundary(calls: seq<Call>): Option<Boundary> {
    if calls == [] then None
    else
      match calls[|calls| - 1]
      case Reset => None
      case Ready(b) => Some(b)
      case _ => OpenBoundary(calls[..|calls| - 1])
  }

  /** The highest sequence delivered, and at least `after`. */
  function Highest(calls: seq<Call>, after: int): int {
    if calls == [] then after
    else
      var h := Highest(calls[..|calls| - 1], after);
      match calls[|calls| - 1]
      case Deliver(p, _) => if h < p.sequence then p.sequence else h
      case _ => h
  }

  /** Call `j` is right, given the calls before it. */
  predicate RightCall(calls: seq<Call>, after: nat, j: nat)
    requires j < |calls|
  {
    var before := calls[..j];
    match calls[j]
    case Deliver(p, phase) =>
      Error !in before && OpenBoundary(before).Some? &&
      (phase == Replay <==> p.sequence <= OpenBoundary(before).value.replayThrough)
    case Ready(b) =>
      Error !in before && OpenBoundary(before).None? && Highest(before, after) <= b.replayThrough
    case Error => Error !in before
    case _ => true
  }

  ghost predicate Right(calls: seq<Call>, after: nat) {
    forall j: nat :: j < |calls| ==> RightCall(calls, after, j)
  }

  ghost predicate Sound(s: Stream, after: nat) {
    Right(s.calls, after) && s.ready == OpenBoundary(s.calls) && s.cursor == Highest(s.calls, after) &&
    (Error in s.calls ==> s.failed) && (Close in s.calls <==> Error in s.calls) && (s.failed ==> s.ready.None?)
  }

  lemma OneMoreCall(calls: seq<Call>, after: nat, c: Call)
    requires Right(calls, after) && RightCall(calls + [c], after, |calls|)
    ensures Right(calls + [c], after)
  {
    forall j: nat | j < |calls| + 1 ensures RightCall(calls + [c], after, j) {
      if j < |calls| {
        assert RightCall(calls, after, j) && (calls + [c])[..j] == calls[..j];
      }
    }
  }

  lemma Latest(calls: seq<Call>, after: nat, c: Call)
    ensures (calls + [c])[..|calls|] == calls
    ensures OpenBoundary(calls + [c]) == match c case Reset => None case Ready(b) => Some(b) case _ => OpenBoundary(calls)
    ensures Highest(calls + [c], after) ==
            match c case Deliver(p, _) => (if Highest(calls, after) < p.sequence then p.sequence else Highest(calls, after))
                    case _ => Highest(calls, after)
  {
    assert (calls + [c])[..|calls|] == calls;
  }

  lemma FailedIsSound(s: Stream, after: nat, resetThrows: bool)
    requires Sound(s, after)
    ensures Sound(Failed(s, resetThrows), after)
  {
    if !s.failed {
      var c1 := s.calls + [Reset];
      Latest(s.calls, after, Reset);
      OneMoreCall(s.calls, after, Reset);
      if !resetThrows {
        var c2 := c1 + [Close];
        Latest(c1, after, Close);
        OneMoreCall(c1, after, Close);
        Latest(c2, after, Error);
        OneMoreCall(c2, after, Error);
        assert s.calls + [Reset, Close, Error] == c2 + [Error];
      }
    }
  }

  lemma StepIsSound(ctx: Context, s: Stream, e: Event, after: nat)
    requires Sound(s, after)
    ensures Sound(Step(ctx, s, e), after)
  {
    hide Right, RightCall, OpenBoundary, Highest, Failed;
    match e
    case Opened =>
      AddCall(s, after, Reset);
    case Broken(resetThrows) =>
      FailedIsSound(s, after, resetThrows);
    case ReadyFrame(id, boundary, throws, resetThrows) =>
      if !s.failed {
        if boundary.Some? && GoodBoundary(ctx, s, id, boundary.value) {
          AddCall(s, after, Ready(boundary.value));
          FailedIsSound(s.(ready := boundary, calls := s.calls + [Ready(boundary.value)]), after, resetThrows);
        } else {
          FailedIsSound(s, after, resetThrows);
        }
      }
    case DataFrame(kind, id, payload, throws, resetThrows) =>
      if !s.failed {
        if payload.Some? && GoodPayload(ctx, s, kind, id, payload.value) {
          var p := payload.value;
          var c := Deliver(p, if p.sequence <= s.ready.value.replayThrough then Replay else Live);
          AddCall(s, after, c);
          FailedIsSound(s.(cursor := if s.cursor < p.sequence then p.sequence else s.cursor, calls := s.calls + [c]), after, resetThrows);
        } else {
          FailedIsSound(s, after, resetThrows);
        }
      }
  }

  lemma AddCall(s: Stream, after: nat, c: Call)
    requires Sound(s, after) && c != Error && c != Close
    requires c.Deliver? ==> !s.failed && s.ready.Some? && (c.phase == Replay <==> c.payload.sequence <= s.ready.value.replayThrough)
    requires c.Ready? ==> !s.failed && s.ready.None? && s.cursor <= c.boundary.replayThrough
    ensures Right(s.calls + [c], after) && (Error in s.calls + [c] ==> s.failed) && (Close in s.calls + [c] <==> Error in s.calls + [c])
    ensures OpenBoundary(s.calls + [c]) == match c case Reset => None case Ready(b) => Some(b) case _ => s.ready
    ensures Highest(s.calls + [c], after) ==
            match c case Deliver(p, _) => (if s.cursor < p.sequence then p.sequence else s.cursor) case _ => s.cursor
  {
    Latest(s.calls, after, c);
    OneMoreCall(s.calls, after, c);
  }

  /** Every run's calls are right, and cursor, boundary and failure can be read off them. */
  lemma {:induction false} AlwaysSound(ctx: Context, after: nat, events: seq<Event>)
    ensures Sound(Run(ctx, after, events), after)
  {
    if events != [] {
      AlwaysSound(ctx, after, events[..|events| - 1]);
      StepIsSound(ctx, Run(ctx, after, events[..|events| - 1]), events[|events| - 1], after);
    }
  }

  // ----- the theorems, for every sequence of events

  /** The cursor never goes back, and nothing already called is called away. */
  lemma {:induction false} CursorGrows(ctx: Context, after: nat, events: seq<Event>, m: nat, n: nat)
    requires m <= n <= |events|
    ensures Run(ctx, after, events[..m]).cursor <= Run(ctx, after, events[..n]).cursor
    ensures Run(ctx, after, events[..m]).calls <= Run(ctx, after, events[..n]).calls
    decreases n
  {
    if m < n {
      CursorGrows(ctx, after, events, m, n - 1);
      assert events[..n][..n - 1] == events[..n - 1];
    }
  }

  lemma {:induction false} HighestBounds(calls: seq<Call>, after: int, i: nat)
    requires i < |calls| && calls[i].Deliver?
    ensures calls[i].payload.sequence <= Highest(calls, after)
  {
    if i < |calls| - 1 { HighestBounds(calls[..|calls| - 1], after, i); }
  }

  /** A boundary accepted later covers everything delivered earlier. */
  lemma BoundaryCoversDelivered(ctx: Context, after: nat, events: seq<Event>, i: nat, k: nat)
    requires var calls := Run(ctx, after, events).calls; i < k < |calls| && calls[i].Deliver? && calls[k].Ready?
    ensures var calls := Run(ctx, after, events).calls; calls[i].payload.sequence <= calls[k].boundary.replayThrough
  {
    hide Run, OpenBoundary, Highest;
    var calls := Run(ctx, after, events).calls;
    AlwaysSound(ctx, after, events);
    assert RightCall(calls, after, k);
    HighestBounds(calls[..k], after, i);
  }

  /** Where the open boundary was told. */
  lemma {:induction false} WhereOpened(calls: seq<Call>) returns (k: nat)
    requires OpenBoundary(calls).Some?
    ensures k < |calls| && calls[k] == Ready(OpenBoundary(calls).value)
    ensures forall r :: k < r < |calls| ==> calls[r] != Reset
  {
    var last := calls[|calls| - 1];
    if last.Ready? {
      k := |calls| - 1;
    } else {
      assert last != Reset;
      k := WhereOpened(calls[..|calls| - 1]);
    }
  }

  /** An event is delivered only under a boundary told since the last reset, which fixes its phase. */
  lemma DeliveredUnderBoundary(ctx: Context, after: nat, events: seq<Event>, j: nat) returns (k: nat)
    requires var calls := Run(ctx, after, events).calls; j < |calls| && calls[j].Deliver?
    ensures var calls := Run(ctx, after, events).calls;
            k < j && calls[k].Ready? && (forall r :: k < r < j ==> calls[r] != Reset) &&
            (calls[j].phase == Replay <==> calls[j].payload.sequence <= calls[k].boundary.replayThrough)
  {
    hide Run, OpenBoundary, Highest;
    var calls := Run(ctx, after, events).calls;
    AlwaysSound(ctx, after, events);
    assert RightCall(calls, after, j);
    k := WhereOpened(calls[..j]);
    assert forall r :: k < r < j ==> calls[r] == calls[..j][r];
  }

  /** After a reconnect, what was delivered before comes again only as replay. */
  lemma RedeliveryIsReplay(ctx: Context, after: nat, events: seq<Event>, i: nat, r: nat, j: nat)
    requires var calls := Run(ctx, after, events).calls;
             i < r < j < |calls| && calls[i].Deliver? && calls[r] == Reset && calls[j].Deliver? &&
             calls[j].payload.sequence <= calls[i].payload.sequence
    ensures Run(ctx, after, events).calls[j].phase == Replay
  {
    hide Run;
    var k := DeliveredUnderBoundary(ctx, after, events, j);
    BoundaryCoversDelivered(ctx, after, events, i, k);
  }

  /** Between two resets at most one boundary is told. */
  lemma OneBoundaryPerConnection(ctx: Context, after: nat, events: seq<Event>, i: nat, j: nat)
    requires var calls := Run(ctx, after, events).calls; i < j < |calls| && calls[i].Ready? && calls[j].Ready?
    ensures exists r :: i < r < j && Run(ctx, after, events).calls[r] == Reset
  {
    hide Run, Highest;
    var calls := Run(ctx, after, events).calls;
    AlwaysSound(ctx, after, events);
    assert RightCall(calls, after, j);
    if forall r :: i < r < j ==> calls[r] != Reset {
      StaysOpen(calls[..j], i);
      assert false;
    }
  }

  lemma {:induction false} StaysOpen(calls: seq<Call>, i: nat)
    requires i < |calls| && calls[i].Ready? && (forall r :: i < r < |calls| ==> calls[r] != Reset)
    ensures OpenBoundary(calls).Some?
  {
    if i < |calls| - 1 { StaysOpen(calls[..|calls| - 1], i); }
  }

  /** The stream fails on event `m`. */
  predicate FailsAt(ctx: Context, after: nat, events: seq<Event>, m: nat) {
    m < |events| && !Run(ctx, after, events[..m]).failed && Run(ctx, after, events[..m + 1]).failed
  }

  /** What a stream that has not failed does not survive. */
  predicate Refused(ctx: Context, s: Stream, e: Event) {
    match e
    case Opened => false
    case Broken(_) => true
    case ReadyFrame(id, boundary, throws, _) => throws || boundary.None? || !GoodBoundary(ctx, s, id, boundary.value)
    case DataFrame(kind, id, payload, throws, _) => throws || payload.None? || !GoodPayload(ctx, s, kind, id, payload.value)
  }

  lemma FailedStep(ctx: Context, s: Stream, e: Event)
    requires s.failed
    ensures Step(ctx, s, e).failed && Step(ctx, s, e).calls == s.calls + if e.Opened? then [Reset] else []
  {
  }

  /** After a failure nothing is called any more, except that an opening still resets. */
  lemma {:induction false} FailureIsFinal(ctx: Context, after: nat, events: seq<Event>, m: nat, n: nat)
    requires m <= n <= |events| && Run(ctx, after, events[..m]).failed
    ensures var early, late := Run(ctx, after, events[..m]).calls, Run(ctx, after, events[..n]).calls;
            Run(ctx, after, events[..n]).failed && early <= late && forall i :: |early| <= i < |late| ==> late[i] == Reset
    decreases n
  {
    hide Run, Step;
    if m < n {
      FailureIsFinal(ctx, after, events, m, n - 1);
      OneStep(ctx, after, events, n - 1);
      FailedStep(ctx, Run(ctx, after, events[..n - 1]), events[n - 1]);
    }
  }

  /** Two failures would be one after the other. */
  lemma FailsOnce(ctx: Context, after: nat, events: seq<Event>, m: nat, n: nat)
    requires FailsAt(ctx, after, events, m) && FailsAt(ctx, after, events, n)
    ensures m == n
  {
    hide Run;
    if m < n { FailureIsFinal(ctx, after, events, m + 1, n); }
    if n < m { FailureIsFinal(ctx, after, events, n + 1, m); }
  }

  lemma {:induction false} WhereFailed(ctx: Context, after: nat, events: seq<Event>) returns (m: nat)
    requires Run(ctx, after, events).failed
    ensures FailsAt(ctx, after, events, m)
  {
    hide Step;
    var n := |events| - 1;
    assert events != [] && events[..n + 1] == events;
    if Run(ctx, after, events[..n]).failed {
      m := WhereFailed(ctx, after, events[..n]);
      assert events[..n][..m] == events[..m] && events[..n][..m + 1] == events[..m + 1];
    } else {
      m := n;
    }
  }

  lemma FailingStep(ctx: Context, s: Stream, e: Event, after: nat)
    requires !s.failed && Sound(s, after)
    ensures var t := Step(ctx, s, e);
            (t.failed <==> Refused(ctx, s, e)) &&
            (t.failed ==> !e.Opened? && (Error in t.calls <==> !e.resetThrows))
  {
    hide GoodBoundary, GoodPayload, Right;
  }

  /**
    The stream fails exactly once, on the first event it does not survive; the failure is told, and the source
    closed, if and only if the reset handler returned.
  */
  lemma FailureIsTold(ctx: Context, after: nat, events: seq<Event>)
    ensures forall m: nat :: FailsAt(ctx, after, events, m) <==>
              (m < |events| && !Run(ctx, after, events[..m]).failed && Refused(ctx, Run(ctx, after, events[..m]), events[m]))
    ensures Run(ctx, after, events).failed <==> exists m: nat :: FailsAt(ctx, after, events, m)
    ensures forall m: nat, n: nat :: FailsAt(ctx, after, events, m) && FailsAt(ctx, after, events, n) ==> m == n
    ensures forall m: nat :: FailsAt(ctx, after, events, m) ==>
              !events[m].Opened? && (Error in Run(ctx, after, events).calls <==> !events[m].resetThrows)
    ensures Close in Run(ctx, after, events).calls <==> Error in Run(ctx, after, events).calls
    ensures Error in Run(ctx, after, events).calls ==> Run(ctx, after, events).failed
  {
    hide Run, Step, Refused, Right;
    var end := Run(ctx, after, events);
    AlwaysSound(ctx, after, events);
    assert events[..|events|] == events;
    forall m: nat | m < |events| && !Run(ctx, after, events[..m]).failed
      ensures FailsAt(ctx, after, events, m) <==> Refused(ctx, Run(ctx, after, events[..m]), events[m])
      ensures FailsAt(ctx, after, events, m) ==> end.failed && !events[m].Opened? && (Error in end.calls <==> !events[m].resetThrows)
    {
      AlwaysSound(ctx, after, events[..m]);
      OneStep(ctx, after, events, m);
      FailingStep(ctx, Run(ctx, after, events[..m]), events[m], after);
      if Run(ctx, after, events[..m + 1]).failed { ToldForGood(ctx, after, events, m + 1); }
    }
    if end.failed { var m := WhereFailed(ctx, after, events); }
    forall m: nat, n: nat | FailsAt(ctx, after, events, m) && FailsAt(ctx, after, events, n) ensures m == n {
      FailsOnce(ctx, after, events, m, n);
    }
  }

  lemma ToldForGood(ctx: Context, after: nat, events: seq<Event>, m: nat)
    requires m <= |events| && Run(ctx, after, events[..m]).failed
    ensures Run(ctx, after, events).failed
    ensures Error in Run(ctx, after, events).calls <==> Error in Run(ctx, after, events[..m]).calls
  {
    hide Run;
    FailureIsFinal(ctx, after, events, m, |events|);
    assert events[..|events|] == events;
    var early, late := Run(ctx, after, events[..m]).calls, Run(ctx, after, events).calls;
    assert late == early + late[|early|..];
  }

  /** A failure is told at most once, and nothing is delivered or told ready after it. */
  lemma ErrorIsLast(ctx: Context, after: nat, events: seq<Event>, i: nat, j: nat)
    requires var calls := Run(ctx, after, events).calls; i < j < |calls| && calls[i] == Error
    ensures var calls := Run(ctx, after, events).calls;
            calls[j] != Error && !calls[j].Deliver? && !calls[j].Ready?
  {
    hide Run, OpenBoundary, Highest;
    var calls := Run(ctx, after, events).calls;
    AlwaysSound(ctx, after, events);
    assert RightCall(calls, after, j);
    assert calls[..j][i] == Error;
  }

  /** A broken connection whose reset handler throws: the stream has failed, and nobody is told. */
  lemma SilentFailure(ctx: Context)
    ensures Run(ctx, 0, [Broken(true)]) == Stream(None, 0, true, [Reset])
  {
    assert [Broken(true)][..0] == [] && [] + [Reset] == [Reset];
    assert Run(ctx, 0, []) == Stream(None, 0, false, []);
  }

  // ----- when a live event is delivered twice

  /** Event `m` of the run is a data frame that passes every check. */
  predicate Accepted(ctx: Context, after: nat, events: seq<Event>, m: nat) {
    m < |events| && events[m].DataFrame? && events[m].payload.Some? &&
    var s := Run(ctx, after, events[..m]);
    !s.failed && GoodPayload(ctx, s, events[m].kind, events[m].lastEventId, events[m].payload.value)
  }

  lemma AcceptedEarlier(ctx: Context, after: nat, events: seq<Event>, n: nat, m: nat)
    requires m < n <= |events|
    ensures Accepted(ctx, after, events[..n], m) <==> Accepted(ctx, after, events, m)
    ensures Run(ctx, after, events[..n][..m]) == Run(ctx, after, events[..m])
  {
    assert events[..n][..m] == events[..m];
  }

  lemma OneStep(ctx: Context, after: nat, events: seq<Event>, m: nat)
    requires m < |events|
    ensures Run(ctx, after, events[..m + 1]) == Step(ctx, Run(ctx, after, events[..m]), events[m])
  {
    assert events[..m + 1][..m] == events[..m];
  }

  /** What one step adds to the calls. */
  lemma StepCalls(ctx: Context, s: Stream, e: Event, i: nat)
    requires |s.calls| <= i < |Step(ctx, s, e).calls|
    ensures Step(ctx, s, e).calls[..|s.calls|] == s.calls
    ensures Step(ctx, s, e).calls[i].Deliver? ==>
              i == |s.calls| && e.DataFrame? && !s.failed && e.payload.Some? &&
              GoodPayload(ctx, s, e.kind, e.lastEventId, e.payload.value) &&
              Step(ctx, s, e).calls[i].payload == e.payload.value
  {
  }

  /** Each delivery goes back to one accepted frame. */
  lemma {:induction false} WhoDelivered(ctx: Context, after: nat, events: seq<Event>, i: nat) returns (m: nat)
    requires var calls := Run(ctx, after, events).calls; i < |calls| && calls[i].Deliver?
    ensures Accepted(ctx, after, events, m) && |Run(ctx, after, events[..m]).calls| == i
    ensures Run(ctx, after, events).calls[i].payload == events[m].payload.value
    decreases |events|
  {
    hide Step;
    var n := |events| - 1;
    var before := Run(ctx, after, events[..n]);
    CursorGrows(ctx, after, events, n, n + 1);
    assert events[..n + 1] == events;
    if i < |before.calls| {
      m := WhoDelivered(ctx, after, events[..n], i);
      AcceptedEarlier(ctx, after, events, n, m);
    } else {
      StepCalls(ctx, before, events[n], i);
      m := n;
    }
  }

  lemma Delivers(ctx: Context, after: nat, events: seq<Event>, m: nat)
    requires Accepted(ctx, after, events, m)
    ensures var s, p := Run(ctx, after, events[..m]), events[m].payload.value;
            var calls := Run(ctx, after, events[..m + 1]).calls;
            |s.calls| < |calls| && s.ready.Some? &&
            calls[|s.calls|] == Deliver(p, if p.sequence <= s.ready.value.replayThrough then Replay else Live)
  {
    OneStep(ctx, after, events, m);
  }

  lemma OpeningResets(ctx: Context, after: nat, events: seq<Event>, r: nat)
    requires r < |events| && events[r] == Opened
    ensures Run(ctx, after, events[..r + 1]).calls == Run(ctx, after, events[..r]).calls + [Reset]
  {
    OneStep(ctx, after, events, r);
  }

  /**
    A live event repeats a sequence that was delivered before if and only if a frame with that sequence was
    accepted on the same connection: since the last opening. What was delivered before a reset is never repeated live.
  */
  lemma LiveRepeatsExactly(ctx: Context, after: nat, events: seq<Event>, n: nat)
    requires Accepted(ctx, after, events, n)
    requires events[n].payload.value.sequence > Run(ctx, after, events[..n]).ready.value.replayThrough
    ensures var p, calls := events[n].payload.value, Run(ctx, after, events[..n]).calls;
            calls + [Deliver(p, Live)] <= Run(ctx, after, events[..n + 1]).calls &&
            (forall i, r :: 0 <= i < r < |calls| && calls[i].Deliver? && calls[i].payload.sequence >= p.sequence ==> calls[r] != Reset) &&
            ((exists i :: 0 <= i < |calls| && calls[i].Deliver? && calls[i].payload.sequence == p.sequence) <==>
             exists m: nat :: m < n && Accepted(ctx, after, events, m) && events[m].payload.value.sequence == p.sequence &&
                              forall r :: m < r < n ==> events[r] != Opened)
  {
    hide Run, GoodPayload;
    var p, calls, later := events[n].payload.value, Run(ctx, after, events[..n]).calls, Run(ctx, after, events[..n + 1]).calls;
    Delivers(ctx, after, events, n);
    CursorGrows(ctx, after, events, n, n + 1);
    forall i, r | 0 <= i < r < |calls| && calls[i].Deliver? && calls[i].payload.sequence >= p.sequence ensures calls[r] != Reset {
      if calls[r] == Reset { RedeliveryIsReplay(ctx, after, events[..n + 1], i, r, |calls|); }
    }
    if i :| 0 <= i < |calls| && calls[i].Deliver? && calls[i].payload.sequence == p.sequence {
      var m := FrameOfRepeat(ctx, after, events, n, i);
    }
    if m: nat :| m < n && Accepted(ctx, after, events, m) && events[m].payload.value.sequence == p.sequence {
      Delivers(ctx, after, events, m);
      CursorGrows(ctx, after, events, m + 1, n);
      assert calls[|Run(ctx, after, events[..m]).calls|].Deliver?;
    }
  }

  lemma FrameOfRepeat(ctx: Context, after: nat, events: seq<Event>, n: nat, i: nat) returns (m: nat)
    requires n < |events|
    requires var calls := Run(ctx, after, events[..n]).calls;
             i < |calls| && calls[i].Deliver? && forall r :: i < r < |calls| ==> calls[r] != Reset
    ensures m < n && Accepted(ctx, after, events, m) && (forall r :: m < r < n ==> events[r] != Opened)
    ensures Run(ctx, after, events[..n]).calls[i].payload == events[m].payload.value
  {
    hide Run, Accepted;
    var calls := Run(ctx, after, events[..n]).calls;
    m := WhoDelivered(ctx, after, events[..n], i);
    AcceptedInside(ctx, after, events[..n], m);
    AcceptedEarlier(ctx, after, events, n, m);
    Delivers(ctx, after, events, m);
    forall r | m < r < n ensures events[r] != Opened {
      if events[r] == Opened { ResetBetween(ctx, after, events, m, r, n); }
    }
  }

  lemma ResetBetween(ctx: Context, after: nat, events: seq<Event>, m: nat, r: nat, n: nat)
    requires m < r < n <= |events| && events[r] == Opened
    requires |Run(ctx, after, events[..m]).calls| < |Run(ctx, after, events[..m + 1]).calls|
    ensures var before, calls := Run(ctx, after, events[..m]).calls, Run(ctx, after, events[..n]).calls;
            exists at :: |before| < at < |calls| && calls[at] == Reset
  {
    hide Run;
    OpeningResets(ctx, after, events, r);
    CursorGrows(ctx, after, events, m + 1, r);
    CursorGrows(ctx, after, events, r + 1, n);
    var at := |Run(ctx, after, events[..r]).calls|;
    assert Run(ctx, after, events[..r + 1]).calls[at] == Reset;
  }

  lemma AcceptedInside(ctx: Context, after: nat, events: seq<Event>, m: nat)
    requires Accepted(ctx, after, events, m)
    ensures m < |events|
  {
  }

  /** An instance: the cursor is not consulted within a connection. */
  lemma LiveCanRepeat(ctx: Context)
    ensures var p := Payload("run.queued", ctx.runId, 1, 0, "");
            var frame := DataFrame("run.queued", "1", Some(p), false, false);
            var ready := ReadyFrame("", Some(Boundary(ctx.ownerId, ctx.sessionId, ctx.runId, 0)), false, false);
            Run(ctx, 0, [ready, frame, frame]).calls == [Ready(ready.boundary.value), Deliver(p, Live), Deliver(p, Live)]
  {
    var p := Payload("run.queued", ctx.runId, 1, 0, "");
    var frame := DataFrame("run.queued", "1", Some(p), false, false);
    var b := Boundary(ctx.ownerId, ctx.sessionId, ctx.runId, 0);
    var ready := ReadyFrame("", Some(b), false, false);
    assert Decimal.NumberOf("1") == 1 by { assert "1"[..0] == ""; }
    assert SequenceOf("1") == Some(1);
    var s0 := Stream(None, 0, false, []);
    assert Run(ctx, 0, []) == s0;
    assert [ready][..0] == [] && [ready, frame][..1] == [ready] && [ready, frame, frame][..2] == [ready, frame];
    var s1 := Step(ctx, s0, ready);
    assert s1 == Stream(Some(b), 0, false, [Ready(b)]) && Run(ctx, 0, [ready]) == s1;
    var s2 := Step(ctx, s1, frame);
    assert Run(ctx, 0, [ready, frame]) == s2;
    assert Run(ctx, 0, [ready, frame, frame]) == Step(ctx, s2, frame);
  }
}

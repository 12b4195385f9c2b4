/**
  Which frames of an agent run's event stream are accepted, read off the frame, the
  context and the handler calls made so far.
*/
module RunStreamFrames {
  import opened Basics
  import opened Decimal
  import opened Numerals
  import opened RunStream

  // ----- which ids are sequences

  /** The ids a data frame may carry are the numerals of the positive safe integers. */
  lemma SequenceIsNumeral(id: string, n: int)
    ensures SequenceOf(id) == Some(n) <==> 0 < n <= 9_007_199_254_740_991 && Numeral(id, n)
  {
    assert NumberOf("0") == 0;
    if id != "" && forall c <- id :: IsDigit(c) {
      assert IsDigit(id[0]);
      if id[0] != '0' && NumberOf(id) == 0 { NumeralSize(id, 0); }
    }
  }

  // ----- what the calls say

  /** A boundary is open exactly when it was told and neither a reset nor another boundary came after it. */
  lemma {:induction false} OpenBoundaryExactly(calls: seq<Call>, b: Boundary)
    ensures OpenBoundary(calls) == Some(b) <==>
              exists i :: 0 <= i < |calls| && calls[i] == Ready(b) &&
                          forall j :: i < j < |calls| ==> !calls[j].Reset? && !calls[j].Ready?
    decreases |calls|
  {
    if calls != [] {
      var init, last := calls[..|calls| - 1], calls[|calls| - 1];
      OpenBoundaryExactly(init, b);
      if last == Ready(b) {
        assert calls[|calls| - 1] == Ready(b);
      } else if !last.Reset? && !last.Ready? && OpenBoundary(init) == Some(b) {
        var i :| 0 <= i < |init| && init[i] == Ready(b) && forall j :: i < j < |init| ==> !init[j].Reset? && !init[j].Ready?;
        assert calls[i] == Ready(b);
      } else if i :| 0 <= i < |calls| && calls[i] == Ready(b) && forall j :: i < j < |calls| ==> !calls[j].Reset? && !calls[j].Ready? {
        assert init[i] == Ready(b);
      }
    }
  }

  /** The highest sequence delivered, or the cursor the stream was opened with where that is higher. */
  lemma {:induction false} HighestExactly(calls: seq<Call>, after: int)
    ensures after <= Highest(calls, after)
    ensures forall c <- calls :: c.Deliver? ==> c.payload.sequence <= Highest(calls, after)
    ensures Highest(calls, after) == after || exists c <- calls :: c.Deliver? && c.payload.sequence == Highest(calls, after)
    decreases |calls|
  {
    if calls != [] {
      var init, last := calls[..|calls| - 1], calls[|calls| - 1];
      HighestExactly(init, after);
      assert calls == init + [last];
    }
  }

  // ----- which frames are accepted

  /** The boundary names the run the stream was opened for. */
  ghost predicate NamesRun(ctx: Context, b: Boundary) {
    b.ownerId == ctx.ownerId && b.sessionId == ctx.sessionId && b.runId == ctx.runId
  }

  /**
    A ready frame is accepted when it names the run, comes first on its connection, covers what was delivered, and
    carries no id or that of the last delivered event.
  */
  ghost predicate ReadyFits(ctx: Context, after: nat, calls: seq<Call>, id: string, boundary: Option<Boundary>) {
    boundary.Some? && NamesRun(ctx, boundary.value) && OpenBoundary(calls).None? &&
    Highest(calls, after) <= boundary.value.replayThrough &&
    (id == "" || (Highest(calls, after) >= 0 && Numeral(id, Highest(calls, after))))
  }

  /**
    A data frame is accepted under an open boundary, when its id is the numeral of its sequence and it belongs to the
    run; what an agent remembered must also belong to the owner's session.
  */
  ghost predicate DataFits(ctx: Context, calls: seq<Call>, kind: string, id: string, payload: Option<Payload>) {
    payload.Some? && OpenBoundary(calls).Some? && kind == payload.value.kind && payload.value.runId == ctx.runId &&
    0 < payload.value.sequence <= 9_007_199_254_740_991 && Numeral(id, payload.value.sequence) &&
    (kind == "memory.contextIncluded" || kind == "memory.saved" ==>
       payload.value.ownerId == ctx.ownerId && payload.value.sessionId == ctx.sessionId)
  }

  /** What a failure calls. */
  function FailureCalls(resetThrows: bool): seq<Call> {
    if resetThrows then [Reset] else [Reset, Close, Error]
  }

  lemma GoodBoundaryFits(ctx: Context, after: nat, s: Stream, id: string, b: Boundary)
    requires Sound(s, after)
    ensures GoodBoundary(ctx, s, id, b) <==> ReadyFits(ctx, after, s.calls, id, Some(b))
  {
    hide Right, Numeral, OpenBoundary, Highest, ToDigits;
    ToDigitsIsNumeral(s.cursor);
    if Numeral(id, s.cursor) { NumeralIsUnique(id, ToDigits(s.cursor), s.cursor); }
  }

  lemma GoodPayloadFits(ctx: Context, after: nat, s: Stream, kind: string, id: string, p: Payload)
    requires Sound(s, after)
    ensures GoodPayload(ctx, s, kind, id, p) <==> DataFits(ctx, s.calls, kind, id, Some(p))
  {
    hide Right, Numeral, OpenBoundary, SequenceOf;
    SequenceIsNumeral(id, p.sequence);
  }

  /** What one event makes an unfailed stream call. */
  ghost function CallsOf(ctx: Context, after: nat, calls: seq<Call>, e: Event): seq<Call> {
    match e
    case Opened => [Reset]
    case Broken(resetThrows) => FailureCalls(resetThrows)
    case ReadyFrame(id, boundary, throws, resetThrows) =>
      if !ReadyFits(ctx, after, calls, id, boundary) then FailureCalls(resetThrows)
      else if throws then [Ready(boundary.value)] + FailureCalls(resetThrows)
      else [Ready(boundary.value)]
    case DataFrame(kind, id, payload, throws, resetThrows) =>
      if !DataFits(ctx, calls, kind, id, payload) then FailureCalls(resetThrows)
      else
        var phase := if payload.value.sequence <= OpenBoundary(calls).value.replayThrough then Replay else Live;
        if throws then [Deliver(payload.value, phase)] + FailureCalls(resetThrows) else [Deliver(payload.value, phase)]
  }

  lemma StepCallsExactly(ctx: Context, after: nat, s: Stream, e: Event)
    requires Sound(s, after) && !s.failed
    ensures Step(ctx, s, e).calls == s.calls + CallsOf(ctx, after, s.calls, e)
  {
    hide Right, GoodBoundary, GoodPayload, ReadyFits, DataFits, OpenBoundary, Highest;
    match e
    case ReadyFrame(id, boundary, _, _) =>
      if boundary.Some? { GoodBoundaryFits(ctx, after, s, id, boundary.value); } else { NothingFits(ctx, after, s.calls, "", id); }
    case DataFrame(kind, id, payload, _, _) =>
      if payload.Some? {
        GoodPayloadFits(ctx, after, s, kind, id, payload.value);
      } else {
        NothingFits(ctx, after, s.calls, kind, id);
      }
    case _ =>
  }

  /** A frame that does not parse is never accepted. */
  lemma NothingFits(ctx: Context, after: nat, calls: seq<Call>, kind: string, id: string)
    ensures !ReadyFits(ctx, after, calls, id, None) && !DataFits(ctx, calls, kind, id, None)
  {
  }

  /** In every run the calls grow by what the event asks for, judged by the calls alone. */
  lemma CallsExactly(ctx: Context, after: nat, events: seq<Event>, m: nat)
    requires m < |events| && !Run(ctx, after, events[..m]).failed
    ensures Run(ctx, after, events[..m + 1]).calls ==
            Run(ctx, after, events[..m]).calls + CallsOf(ctx, after, Run(ctx, after, events[..m]).calls, events[m])
  {
    hide Run, Step, Sound;
    AlwaysSound(ctx, after, events[..m]);
    OneStep(ctx, after, events, m);
    StepCallsExactly(ctx, after, Run(ctx, after, events[..m]), events[m]);
  }

  /**
    A ready frame whose handler returns is told, and nothing else happens, if and only if it parses to a boundary of
    this run that comes first on its connection and covers what was delivered, with no id or the numeral of the
    highest sequence delivered.
  */
  lemma ReadyExactly(ctx: Context, after: nat, events: seq<Event>, m: nat, b: Boundary)
    requires m < |events| && !Run(ctx, after, events[..m]).failed && events[m].ReadyFrame? && !events[m].throws
    ensures var calls, e := Run(ctx, after, events[..m]).calls, events[m];
            Run(ctx, after, events[..m + 1]).calls == calls + [Ready(b)] <==>
              e.boundary == Some(b) &&
              b.ownerId == ctx.ownerId && b.sessionId == ctx.sessionId && b.runId == ctx.runId &&
              OpenBoundary(calls).None? && Highest(calls, after) <= b.replayThrough &&
              (e.lastEventId == "" || (Highest(calls, after) >= 0 && Numeral(e.lastEventId, Highest(calls, after))))
  {
    hide Run, OpenBoundary, Highest, Numeral;
    CallsExactly(ctx, after, events, m);
    var calls := Run(ctx, after, events[..m]).calls;
    Grown(calls, CallsOf(ctx, after, calls, events[m]), [Ready(b)]);
  }

  /**
    A data frame whose handler returns is delivered in a phase, and nothing else happens, if and only if it parses to
    an event of this run under an open boundary, its id is the numeral of its sequence, and the phase is what the
    boundary says.
  */
  lemma DataExactly(ctx: Context, after: nat, events: seq<Event>, m: nat, p: Payload, phase: RunStream.Phase)
    requires m < |events| && !Run(ctx, after, events[..m]).failed && events[m].DataFrame? && !events[m].throws
    ensures var calls, e := Run(ctx, after, events[..m]).calls, events[m];
            Run(ctx, after, events[..m + 1]).calls == calls + [Deliver(p, phase)] <==>
              e.payload == Some(p) && e.kind == p.kind && p.runId == ctx.runId &&
              OpenBoundary(calls).Some? &&
              0 < p.sequence <= 9_007_199_254_740_991 && Numeral(e.lastEventId, p.sequence) &&
              (p.kind == "memory.contextIncluded" || p.kind == "memory.saved" ==>
                 p.ownerId == ctx.ownerId && p.sessionId == ctx.sessionId) &&
              (phase == Replay <==> p.sequence <= OpenBoundary(calls).value.replayThrough)
  {
    hide Run, OpenBoundary, Highest, Numeral;
    CallsExactly(ctx, after, events, m);
    var calls := Run(ctx, after, events[..m]).calls;
    Grown(calls, CallsOf(ctx, after, calls, events[m]), [Deliver(p, phase)]);
  }

  lemma Grown<T>(s: seq<T>, a: seq<T>, b: seq<T>)
    ensures s + a == s + b <==> a == b
  {
    if s + a == s + b {
      assert a == (s + a)[|s|..] && b == (s + b)[|s|..];
    }
  }

  /** Failure, too, can be read off the calls: it is any growth but one reset of an opening or one accepted frame. */
  lemma FailsExactly(ctx: Context, after: nat, events: seq<Event>, m: nat)
    requires m < |events| && !Run(ctx, after, events[..m]).failed
    ensures Run(ctx, after, events[..m + 1]).failed <==>
              var calls, e := Run(ctx, after, events[..m]).calls, events[m];
              match e
              case Opened => false
              case Broken(_) => true
              case ReadyFrame(id, boundary, throws, _) => throws || !ReadyFits(ctx, after, calls, id, boundary)
              case DataFrame(kind, id, payload, throws, _) => throws || !DataFits(ctx, calls, kind, id, payload)
  {
    hide Run, OpenBoundary, Highest, ReadyFits, DataFits, GoodBoundary, GoodPayload, Right;
    var s, e := Run(ctx, after, events[..m]), events[m];
    AlwaysSound(ctx, after, events[..m]);
    OneStep(ctx, after, events, m);
    FailingStep(ctx, s, e, after);
    match e
    case ReadyFrame(id, boundary, _, _) =>
      if boundary.Some? { GoodBoundaryFits(ctx, after, s, id, boundary.value); } else { NothingFits(ctx, after, s.calls, "", id); }
    case DataFrame(kind, id, payload, _, _) =>
      if payload.Some? {
        GoodPayloadFits(ctx, after, s, kind, id, payload.value);
      } else {
        NothingFits(ctx, after, s.calls, kind, id);
      }
    case _ =>
  }

  /** A failed stream calls nothing but the reset of each opening. */
  lemma FailedCallsExactly(ctx: Context, after: nat, events: seq<Event>, m: nat)
    requires m < |events| && Run(ctx, after, events[..m]).failed
    ensures Run(ctx, after, events[..m + 1]).failed
    ensures Run(ctx, after, events[..m + 1]).calls ==
            Run(ctx, after, events[..m]).calls + if events[m].Opened? then [Reset] else []
  {
    hide Run, Step;
    OneStep(ctx, after, events, m);
    FailedStep(ctx, Run(ctx, after, events[..m]), events[m]);
  }
}

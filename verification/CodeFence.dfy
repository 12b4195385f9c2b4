/** Fenced code blocks: one whole-source scanner and one line-at-a-time state, which agree on every line. */
module CodeFence {
  import opened Basics

  /** A line's text is `source[start..end]`; the next line starts at `next`. */
  datatype Line = Line(start: nat, end: nat, next: nat)

  datatype Marker = Marker(marker: char, length: nat, rest: nat)

  datatype FenceState = FenceState(marker: char, length: nat)

  datatype Fence = Fence(marker: char, length: nat, info: string, content: string, closed: bool)

  /** Line numbers of a fence: its opening line, and its closing line or the number of lines. */
  datatype Span = Span(opening: nat, closing: nat)

  // ----- lines

  predicate IsBreak(c: char) {
    c == '\n' || c == '\r'
  }

  function LineEnd(source: string, i: nat): (end: nat)
    requires i <= |source|
    ensures i <= end <= |source|
    ensures forall j :: i <= j < end ==> !IsBreak(source[j])
    ensures end < |source| ==> IsBreak(source[end])
    decreases |source| - i
  {
    if i < |source| && !IsBreak(source[i]) then LineEnd(source, i + 1) else i
  }

  /** A line break is LF, CR or CR LF. */
  function BreakEnd(source: string, end: nat): nat
    requires end <= |source|
  {
    var next := if end < |source| && source[end] == '\r' then end + 1 else end;
    if next < |source| && source[next] == '\n' then next + 1 else next
  }

  function LineAt(source: string, start: nat): Line
    requires start <= |source|
  {
    var end := LineEnd(source, start);
    Line(start, end, BreakEnd(source, end))
  }

  method MarkdownLineAt(source: string, start: nat) returns (line: Line)
    requires start <= |source|
    ensures line == LineAt(source, start)
    ensures line.start <= line.end <= line.next <= |source| && (start < |source| ==> line.next > start)
    ensures line.end < |source| ==> IsBreak(source[line.end])
  {
    var end := start;
    while end < |source| && source[end] != '\n' && source[end] != '\r'
      invariant start <= end <= |source|
      invariant LineEnd(source, start) == LineEnd(source, end)
    {
      end := end + 1;
    }
    var next := end;
    if next < |source| && source[next] == '\r' {
      next := next + 1;
    }
    if next < |source| && source[next] == '\n' {
      next := next + 1;
    }
    line := Line(start, end, next);
  }

  function LinesFrom(source: string, start: nat): (lines: seq<Line>)
    requires start <= |source|
    decreases |source| - start
  {
    if start == |source| then [] else [LineAt(source, start)] + LinesFrom(source, LineAt(source, start).next)
  }

  function Text(source: string, line: Line): string
    requires line.start <= line.end <= |source|
  {
    source[line.start..line.end]
  }

  ghost predicate Chained(source: string, lines: seq<Line>, start: nat) {
    (forall k :: 0 <= k < |lines| ==> lines[k].start < |source| && lines[k] == LineAt(source, lines[k].start)) &&
    (forall k :: 0 <= k < |lines| - 1 ==> lines[k].next == lines[k + 1].start) &&
    (lines == [] ==> start == |source|) &&
    (lines != [] ==> lines[0].start == start && lines[|lines| - 1].next == |source|)
  }

  lemma {:induction false} LinesChain(source: string, start: nat)
    requires start <= |source|
    ensures Chained(source, LinesFrom(source, start), start)
    decreases |source| - start
  {
    if start < |source| {
      var line := LineAt(source, start);
      LinesChain(source, line.next);
      var rest := LinesFrom(source, line.next);
      assert forall k :: 1 <= k < |rest| + 1 ==> ([line] + rest)[k] == rest[k - 1];
    }
  }

  // ----- fence markers

  predicate IsMarker(c: char) {
    c == '`' || c == '~'
  }

  /** The cursor after at most three columns of indentation; a tab stops at a multiple of four. */
  function SkipIndent(source: string, cursor: nat, end: nat, indentation: nat): (r: Option<nat>)
    requires cursor <= end <= |source|
    ensures r.Some? ==> cursor <= r.value <= end
    decreases end - cursor
  {
    if cursor == end || (source[cursor] != ' ' && source[cursor] != '\t') then Some(cursor)
    else
      var next := if source[cursor] == ' ' then indentation + 1 else indentation + 4 - indentation % 4;
      if next > 3 then None else SkipIndent(source, cursor + 1, end, next)
  }

  function RunEnd(source: string, cursor: nat, end: nat, marker: char): (r: nat)
    requires cursor <= end <= |source|
    ensures cursor <= r <= end
    ensures forall j :: cursor <= j < r ==> source[j] == marker
    ensures r < end ==> source[r] != marker
    decreases end - cursor
  {
    if cursor < end && source[cursor] == marker then RunEnd(source, cursor + 1, end, marker) else cursor
  }

  function MarkerAt(source: string, line: Line): (r: Option<Marker>)
    requires line.start <= line.end <= |source|
    ensures r.Some? ==> line.start <= r.value.rest <= line.end && r.value.length >= 3 && IsMarker(r.value.marker)
  {
    match SkipIndent(source, line.start, line.end, 0)
    case None => None
    case Some(cursor) =>
      if cursor == line.end || !IsMarker(source[cursor]) then None
      else
        var rest := RunEnd(source, cursor, line.end, source[cursor]);
        if rest - cursor >= 3 then Some(Marker(source[cursor], rest - cursor, rest)) else None
  }

  method FenceMarkerAt(source: string, line: Line) returns (r: Option<Marker>)
    requires line.start <= line.end <= |source|
    requires line.end < |source| ==> IsBreak(source[line.end])
    ensures r == MarkerAt(source, line)
  {
    var cursor, indentation: nat := line.start, 0;
    while cursor < line.end
      invariant line.start <= cursor <= line.end
      invariant SkipIndent(source, line.start, line.end, 0) == SkipIndent(source, cursor, line.end, indentation)
      decreases line.end - cursor
    {
      if source[cursor] == ' ' {
        indentation := indentation + 1;
      } else if source[cursor] == '\t' {
        indentation := indentation + 4 - indentation % 4;
      } else {
        break;
      }
      if indentation > 3 {
        return None;
      }
      cursor := cursor + 1;
    }
    if cursor >= |source| || !IsMarker(source[cursor]) {
      return None;
    }
    var marker, markerStart := source[cursor], cursor;
    while cursor < line.end && source[cursor] == marker
      invariant markerStart <= cursor <= line.end
      invariant RunEnd(source, markerStart, line.end, marker) == RunEnd(source, cursor, line.end, marker)
    {
      cursor := cursor + 1;
    }
    return if cursor - markerStart >= 3 then Some(Marker(marker, cursor - markerStart, cursor)) else None;
  }

  /** Section 4.5 of CommonMark 0.31.2: up to three spaces, then a maximal run of three or more markers. */
  lemma MarkerMeaning(source: string, line: Line, m: Marker)
    requires line.start <= line.end <= |source|
    ensures MarkerAt(source, line) == Some(m) <==>
              IsMarker(m.marker) && m.length >= 3 && m.length <= m.rest <= line.end &&
              line.start <= m.rest - m.length <= line.start + 3 &&
              (forall j :: line.start <= j < m.rest - m.length ==> source[j] == ' ') &&
              (forall j :: m.rest - m.length <= j < m.rest ==> source[j] == m.marker) &&
              (m.rest < line.end ==> source[m.rest] != m.marker)
  {
    IndentMeaning(source, line.start, line.end, 0);
    var skipped := SkipIndent(source, line.start, line.end, 0);
    if IsMarker(m.marker) && m.length >= 3 && m.length <= m.rest <= line.end &&
       line.start <= m.rest - m.length <= line.start + 3 &&
       (forall j :: line.start <= j < m.rest - m.length ==> source[j] == ' ') &&
       (forall j :: m.rest - m.length <= j < m.rest ==> source[j] == m.marker) &&
       (m.rest < line.end ==> source[m.rest] != m.marker)
    {
      IndentOf(source, line.start, line.end, 0, m.rest - m.length);
      RunOf(source, m.rest - m.length, line.end, m.marker, m.rest);
    }
  }

  lemma {:induction false} IndentMeaning(source: string, cursor: nat, end: nat, indentation: nat)
    requires cursor <= end <= |source| && indentation <= 3
    ensures var r := SkipIndent(source, cursor, end, indentation);
            r.Some? ==> r.value - cursor <= 3 - indentation && forall j :: cursor <= j < r.value ==> source[j] == ' '
    decreases end - cursor
  {
    if cursor < end && source[cursor] == ' ' && indentation < 3 {
      IndentMeaning(source, cursor + 1, end, indentation + 1);
    }
  }

  lemma {:induction false} IndentOf(source: string, cursor: nat, end: nat, indentation: nat, stop: nat)
    requires cursor <= stop < end <= |source| && stop - cursor + indentation <= 3
    requires (forall j :: cursor <= j < stop ==> source[j] == ' ') && IsMarker(source[stop])
    ensures SkipIndent(source, cursor, end, indentation) == Some(stop)
    decreases stop - cursor
  {
    if cursor < stop { IndentOf(source, cursor + 1, end, indentation + 1, stop); }
  }

  lemma {:induction false} RunOf(source: string, cursor: nat, end: nat, marker: char, stop: nat)
    requires cursor <= stop <= end <= |source|
    requires (forall j :: cursor <= j < stop ==> source[j] == marker) && (stop < end ==> source[stop] != marker)
    ensures RunEnd(source, cursor, end, marker) == stop
    decreases stop - cursor
  {
    if cursor < stop { RunOf(source, cursor + 1, end, marker, stop); }
  }

  predicate IsBlank(source: string, from: nat, to: nat)
    requires from <= to <= |source|
  {
    forall j :: from <= j < to ==> source[j] == ' ' || source[j] == '\t'
  }

  predicate Closes(source: string, line: Line, marker: char, length: nat)
    requires line.start <= line.end <= |source|
  {
    var candidate := MarkerAt(source, line);
    candidate.Some? && candidate.value.marker == marker && candidate.value.length >= length &&
    IsBlank(source, candidate.value.rest, line.end)
  }

  method IsClosingFence(source: string, line: Line, marker: char, length: nat) returns (closing: bool)
    requires line.start <= line.end <= |source|
    requires line.end < |source| ==> IsBreak(source[line.end])
    ensures closing == Closes(source, line, marker, length)
  {
    var candidate := FenceMarkerAt(source, line);
    if candidate.None? || candidate.value.marker != marker || candidate.value.length < length {
      return false;
    }
    for cursor := candidate.value.rest to line.end
      invariant IsBlank(source, candidate.value.rest, cursor)
    {
      if source[cursor] != ' ' && source[cursor] != '\t' {
        return false;
      }
    }
    return true;
  }

  /** A backtick fence may not have a backtick in its info string. */
  predicate Opens(source: string, line: Line)
    requires line.start <= line.end <= |source|
  {
    var m := MarkerAt(source, line);
    m.Some? && !(m.value.marker == '`' && '`' in source[m.value.rest..line.end])
  }

  // ----- the incremental form

  function Advance(line: string, state: Option<FenceState>): Option<FenceState> {
    var whole := LineAt(line, 0);
    match state
    case Some(fence) => if Closes(line, whole, fence.marker, fence.length) then None else state
    case None =>
      if Opens(line, whole) then
        var m := MarkerAt(line, whole).value;
        Some(FenceState(m.marker, m.length))
      else None
  }

  /** The fence state after the first `k` lines, one at a time. */
  function StateAfter(source: string, lines: seq<Line>, k: nat): Option<FenceState>
    requires k <= |lines| && forall line <- lines :: line.start <= line.end <= |source|
  {
    if k == 0 then None else Advance(Text(source, lines[k - 1]), StateAfter(source, lines, k - 1))
  }

  // ----- a line inside the source and the same line on its own

  lemma {:induction false} SkipIndentShift(source: string, line: Line, cursor: nat, indentation: nat)
    requires line.start <= line.end <= |source| && cursor <= line.end - line.start
    ensures var here := SkipIndent(source, line.start + cursor, line.end, indentation);
            var alone := SkipIndent(Text(source, line), cursor, line.end - line.start, indentation);
            (here.None? <==> alone.None?) && (here.Some? ==> here.value == line.start + alone.value)
    decreases line.end - line.start - cursor
  {
    if line.start + cursor < line.end && (source[line.start + cursor] == ' ' || source[line.start + cursor] == '\t') {
      var next := if source[line.start + cursor] == ' ' then indentation + 1 else indentation + 4 - indentation % 4;
      SkipIndentShift(source, line, cursor + 1, next);
    }
  }

  lemma {:induction false} RunEndShift(source: string, line: Line, cursor: nat, marker: char)
    requires line.start <= line.end <= |source| && cursor <= line.end - line.start
    ensures RunEnd(source, line.start + cursor, line.end, marker) ==
            line.start + RunEnd(Text(source, line), cursor, line.end - line.start, marker)
    decreases line.end - line.start - cursor
  {
    if cursor < line.end - line.start && source[line.start + cursor] == marker {
      RunEndShift(source, line, cursor + 1, marker);
    }
  }

  lemma AloneLine(source: string, line: Line)
    requires line.start <= |source| && line == LineAt(source, line.start)
    ensures LineAt(Text(source, line), 0) == Line(0, line.end - line.start, line.end - line.start)
  {
    var text := Text(source, line);
    assert forall j :: 0 <= j < |text| ==> text[j] == source[line.start + j];
  }

  lemma MarkerShift(source: string, line: Line)
    requires line.start <= |source| && line == LineAt(source, line.start)
    ensures var text := Text(source, line);
            var alone, here := MarkerAt(text, LineAt(text, 0)), MarkerAt(source, line);
            (alone.None? <==> here.None?) &&
            (here.Some? ==> here.value == alone.value.(rest := line.start + alone.value.rest))
  {
    var text, n := Text(source, line), line.end - line.start;
    AloneLine(source, line);
    SkipIndentShift(source, line, 0, 0);
    var skipped := SkipIndent(text, 0, n, 0);
    if skipped.Some? && skipped.value < n {
      RunEndShift(source, line, skipped.value, text[skipped.value]);
    }
  }

  lemma RestShift(source: string, line: Line, rest: nat)
    requires line.start <= line.end <= |source| && rest <= line.end - line.start
    ensures var text, n := Text(source, line), line.end - line.start;
            text[rest..n] == source[line.start + rest..line.end] &&
            (IsBlank(text, rest, n) <==> IsBlank(source, line.start + rest, line.end))
  {
    var text, n := Text(source, line), line.end - line.start;
    assert forall j :: rest <= j < n ==> text[j] == source[line.start + j];
    assert forall j :: line.start + rest <= j < line.end ==> source[j] == text[j - line.start];
  }

  /** `Advance` on the text of a line decides what the scanner decides in place. */
  lemma AdvanceInPlace(source: string, line: Line, state: Option<FenceState>)
    requires line.start <= |source| && line == LineAt(source, line.start)
    ensures Advance(Text(source, line), state) ==
            match state
            case Some(fence) => if Closes(source, line, fence.marker, fence.length) then None else state
            case None =>
              if Opens(source, line)
              then Some(FenceState(MarkerAt(source, line).value.marker, MarkerAt(source, line).value.length))
              else None
  {
    var text := Text(source, line);
    var m := MarkerAt(text, LineAt(text, 0));
    hide MarkerAt, IsBlank, LineAt;
    AloneLine(source, line);
    MarkerShift(source, line);
    if m.Some? { RestShift(source, line, m.value.rest); }
  }

  // ----- the whole-source scanner

  predicate InLines(source: string, lines: seq<Line>) {
    forall line <- lines :: line.start <= line.end <= |source|
  }

  /** Fence `f` covers lines `s`: it opens there, and its content is what lies between its two lines. */
  ghost predicate Covers(source: string, lines: seq<Line>, f: Fence, s: Span) {
    InLines(source, lines) && s.opening < s.closing <= |lines| && (f.closed <==> s.closing < |lines|) &&
    Opens(source, lines[s.opening]) &&
    var m := MarkerAt(source, lines[s.opening]).value;
    f.marker == m.marker && f.length == m.length &&
    f.info == source[m.rest..lines[s.opening].end] &&
    lines[s.opening].next <= |source| &&
    var stop := if f.closed then lines[s.closing].start else |source|;
    lines[s.opening].next <= stop && f.content == source[lines[s.opening].next..stop]
  }

  /** The state the list of fences says holds after line `k`. */
  ghost predicate OpenIn(fences: seq<Fence>, spans: seq<Span>, k: nat, state: FenceState)
    requires |fences| == |spans|
  {
    exists i :: 0 <= i < |spans| && spans[i].opening <= k < spans[i].closing &&
                state == FenceState(fences[i].marker, fences[i].length)
  }

  ghost predicate OpenSomewhere(spans: seq<Span>, k: nat) {
    exists i :: 0 <= i < |spans| && spans[i].opening <= k < spans[i].closing
  }

  ghost predicate AgreeAt(source: string, lines: seq<Line>, fences: seq<Fence>, spans: seq<Span>, k: nat)
    requires |fences| == |spans| && k < |lines| && InLines(source, lines)
  {
    match StateAfter(source, lines, k + 1)
    case None => !OpenSomewhere(spans, k)
    case Some(state) => OpenSomewhere(spans, k) && OpenIn(fences, spans, k, state)
  }

  /** Up to line `n` the fences found so far tell the incremental state of every line. */
  ghost predicate Agree(source: string, lines: seq<Line>, fences: seq<Fence>, spans: seq<Span>, n: nat)
    requires |fences| == |spans| && n <= |lines| && InLines(source, lines)
  {
    forall k :: 0 <= k < n ==> AgreeAt(source, lines, fences, spans, k)
  }

  ghost predicate Before(spans: seq<Span>, n: nat) {
    forall s <- spans :: s.closing < n
  }

  ghost predicate AllCovered(source: string, lines: seq<Line>, fences: seq<Fence>, spans: seq<Span>) {
    |fences| == |spans| && forall i :: 0 <= i < |fences| ==> Covers(source, lines, fences[i], spans[i])
  }

  lemma NoSpans(source: string, lines: seq<Line>)
    requires InLines(source, lines)
    ensures Agree(source, lines, [], [], 0) && Ordered([]) && AllCovered(source, lines, [], []) && Before([], 0)
  {
  }

  lemma ChainStep(source: string, lines: seq<Line>, n: nat)
    requires Chained(source, lines, 0) && n < |lines|
    ensures lines[n] == LineAt(source, lines[n].start) && lines[n].start < |source| && lines[n].start < lines[n].next
    ensures lines[n].next == if n + 1 < |lines| then lines[n + 1].start else |source|
  {
  }

  lemma CoversNew(source: string, lines: seq<Line>, n: nat, c: nat, f: Fence)
    requires InLines(source, lines) && n < c <= |lines| && Opens(source, lines[n]) && lines[n].next <= |source|
    requires f.closed <==> c < |lines|
    requires var m := MarkerAt(source, lines[n]).value;
             f.marker == m.marker && f.length == m.length && f.info == source[m.rest..lines[n].end]
    requires var stop := if f.closed then lines[c].start else |source|;
             lines[n].next <= stop && f.content == source[lines[n].next..stop]
    ensures Covers(source, lines, f, Span(n, c))
  {
  }

  lemma SpansGrow(source: string, lines: seq<Line>, fences: seq<Fence>, spans: seq<Span>, f: Fence, s: Span)
    requires AllCovered(source, lines, fences, spans) && Covers(source, lines, f, s)
    requires Ordered(spans) && Before(spans, s.opening)
    ensures AllCovered(source, lines, fences + [f], spans + [s]) && Ordered(spans + [s])
    ensures s.opening < s.closing ==> Before(spans + [s], s.closing + 1)
  {
    hide Covers;
    assert forall i :: 0 <= i < |spans| ==> spans[i] in spans;
  }

  ghost predicate Ordered(spans: seq<Span>) {
    forall i, j :: 0 <= i < j < |spans| ==> spans[i].closing < spans[j].opening
  }

  lemma LineEnds(source: string, lines: seq<Line>)
    requires Chained(source, lines, 0)
    ensures InLines(source, lines)
  {
  }

  lemma AgreeExtends(source: string, lines: seq<Line>, fences: seq<Fence>, spans: seq<Span>, n: nat)
    requires |fences| == |spans| && n < |lines| && InLines(source, lines) && Agree(source, lines, fences, spans, n)
    requires StateAfter(source, lines, n + 1) == None && Before(spans, n + 1)
    ensures Agree(source, lines, fences, spans, n + 1)
  {
    assert forall i :: 0 <= i < |spans| ==> spans[i] in spans;
    assert AgreeAt(source, lines, fences, spans, n);
  }

  lemma AgreeBefore(source: string, lines: seq<Line>, fences: seq<Fence>, spans: seq<Span>, f: Fence, s: Span, k: nat)
    requires |fences| == |spans| && InLines(source, lines) && k < |lines| && AgreeAt(source, lines, fences, spans, k)
    requires k < s.opening
    ensures AgreeAt(source, lines, fences + [f], spans + [s], k)
  {
    var fs, ss := fences + [f], spans + [s];
    assert forall i :: 0 <= i < |spans| ==> ss[i] == spans[i] && fs[i] == fences[i];
    if OpenSomewhere(ss, k) {
      var i :| 0 <= i < |ss| && ss[i].opening <= k < ss[i].closing;
      assert spans[i].opening <= k < spans[i].closing;
    }
    var after := StateAfter(source, lines, k + 1);
    if after.Some? {
      var i :| 0 <= i < |spans| && spans[i].opening <= k < spans[i].closing &&
               after.value == FenceState(fences[i].marker, fences[i].length);
      assert ss[i].opening <= k < ss[i].closing && after.value == FenceState(fs[i].marker, fs[i].length);
    }
  }

  /** A new fence speaks for the lines from its opening to before its closing. */
  lemma AgreeWithFence(source: string, lines: seq<Line>, fences: seq<Fence>, spans: seq<Span>, n: nat, f: Fence, s: Span)
    requires |fences| == |spans| && InLines(source, lines) && n == s.opening < s.closing <= |lines|
    requires Agree(source, lines, fences, spans, n)
    requires forall k :: s.opening < k <= s.closing ==> StateAfter(source, lines, k) == Some(FenceState(f.marker, f.length))
    ensures Agree(source, lines, fences + [f], spans + [s], s.closing)
  {
    var fs, ss := fences + [f], spans + [s];
    forall k | 0 <= k < s.closing ensures AgreeAt(source, lines, fs, ss, k) {
      if k < n {
        AgreeBefore(source, lines, fences, spans, f, s, k);
      } else {
        assert ss[|spans|] == s && fs[|spans|] == f;
        assert StateAfter(source, lines, k + 1) == Some(FenceState(f.marker, f.length));
      }
    }
  }

  /** A marker that may open a fence: no backtick behind backticks. */
  method OpeningMarkerAt(source: string, line: Line) returns (opening: Option<Marker>)
    requires line.start <= line.end <= |source|
    requires line.end < |source| ==> IsBreak(source[line.end])
    ensures opening == if Opens(source, line) then MarkerAt(source, line) else None
    ensures Opens(source, line) <==> opening.Some?
  {
    hide MarkerAt, Opens;
    opening := FenceMarkerAt(source, line);
    OpensMeaning(source, line);
    if opening.Some? && opening.value.marker == '`' && '`' in source[opening.value.rest..line.end] {
      return None;
    }
  }

  /**
    The fences of a text: ordered spans of lines, each fence holding what lies in its span,
    and a line is in a span exactly when the incremental state, fed the same lines, is open.
  */
  ghost predicate Scanned(source: string, fences: seq<Fence>, spans: seq<Span>) {
    var lines := LinesFrom(source, 0);
    && |fences| == |spans|
    && Chained(source, lines, 0)
    && InLines(source, lines)
    && Agree(source, lines, fences, spans, |lines|)
    && Ordered(spans)
    && AllCovered(source, lines, fences, spans)
  }

  /** What the scanner knows before line `n`, outside any fence. */
  ghost predicate ScannedTo(source: string, lines: seq<Line>, fences: seq<Fence>, spans: seq<Span>, n: nat) {
    && |fences| == |spans|
    && n <= |lines|
    && Chained(source, lines, 0)
    && InLines(source, lines)
    && StateAfter(source, lines, n) == None
    && Before(spans, n)
    && Agree(source, lines, fences, spans, n)
    && Ordered(spans)
    && AllCovered(source, lines, fences, spans)
  }

  ghost function StartOf(source: string, lines: seq<Line>, n: nat): nat {
    if n < |lines| then lines[n].start else |source|
  }

  /** The line ahead, and where the next one starts. */
  lemma LineAhead(source: string, lines: seq<Line>, n: nat)
    requires Chained(source, lines, 0) && n <= |lines|
    ensures StartOf(source, lines, n) < |source| <==> n < |lines|
    ensures n < |lines| ==>
              lines[n] == LineAt(source, lines[n].start) && lines[n].start < lines[n].next == StartOf(source, lines, n + 1)
  {
    if n < |lines| { ChainStep(source, lines, n); }
  }

  lemma ScanBegins(source: string)
    ensures ScannedTo(source, LinesFrom(source, 0), [], [], 0) && StartOf(source, LinesFrom(source, 0), 0) == 0
  {
    LinesChain(source, 0);
    LineEnds(source, LinesFrom(source, 0));
    NoSpans(source, LinesFrom(source, 0));
  }

  lemma ScanSkips(source: string, lines: seq<Line>, fences: seq<Fence>, spans: seq<Span>, n: nat)
    requires ScannedTo(source, lines, fences, spans, n) && n < |lines| && StateAfter(source, lines, n + 1) == None
    ensures ScannedTo(source, lines, fences, spans, n + 1)
  {
    hide Agree, Ordered, Chained, AllCovered, StateAfter;
    AgreeExtends(source, lines, fences, spans, n);
  }

  lemma ScanFinds(source: string, lines: seq<Line>, fences: seq<Fence>, spans: seq<Span>, f: Fence, s: Span)
    requires ScannedTo(source, lines, fences, spans, s.opening) && Covers(source, lines, f, s)
    requires forall k :: s.opening < k <= s.closing ==> StateAfter(source, lines, k) == Some(FenceState(f.marker, f.length))
    ensures f.closed && StateAfter(source, lines, s.closing + 1) == None ==>
              ScannedTo(source, lines, fences + [f], spans + [s], s.closing + 1)
    ensures !f.closed && lines == LinesFrom(source, 0) ==> Scanned(source, fences + [f], spans + [s])
  {
    CoversSpan(source, lines, f, s);
    hide Agree, Ordered, Chained, AllCovered, StateAfter, Covers;
    SpansGrow(source, lines, fences, spans, f, s);
    AgreeWithFence(source, lines, fences, spans, s.opening, f, s);
    if f.closed && StateAfter(source, lines, s.closing + 1) == None {
      AgreeExtends(source, lines, fences + [f], spans + [s], s.closing);
    }
  }

  lemma CoversSpan(source: string, lines: seq<Line>, f: Fence, s: Span)
    requires Covers(source, lines, f, s)
    ensures s.opening < s.closing <= |lines| && (f.closed <==> s.closing < |lines|)
  {
  }

  lemma ScanEnds(source: string, fences: seq<Fence>, spans: seq<Span>)
    requires ScannedTo(source, LinesFrom(source, 0), fences, spans, |LinesFrom(source, 0)|)
    ensures Scanned(source, fences, spans)
  {
  }

  method ParseMarkdownCodeFences(source: string) returns (fences: seq<Fence>)
    ensures exists spans :: Scanned(source, fences, spans)
  {
    hide MarkerAt, LineAt, Opens, Closes, Advance, Covers, Agree, Ordered, Chained, AllCovered, LinesFrom, Before, Scanned;
    ghost var lines := LinesFrom(source, 0);
    fences := [];
    ghost var spans: seq<Span> := [];
    ScanBegins(source);
    var lineStart := 0;
    ghost var n := 0;
    while lineStart < |source|
      invariant ScannedTo(source, lines, fences, spans, n)
      invariant lineStart == StartOf(source, lines, n)
      decreases |source| - lineStart
    {
      LineAhead(source, lines, n);
      var openingLine := MarkdownLineAt(source, lineStart);
      AdvanceInPlace(source, lines[n], None);
      var opening := OpeningMarkerAt(source, openingLine);
      if opening.None? {
        ScanSkips(source, lines, fences, spans, n);
        lineStart := openingLine.next;
        n := n + 1;
        continue;
      }
      var info := source[opening.value.rest..openingLine.end];
      var closing;
      ghost var c;
      closing, c := FindClosing(source, openingLine.next, opening.value.marker, opening.value.length, lines, n + 1);
      var stop := if closing.Some? then closing.value.start else |source|;
      var fence := Fence(opening.value.marker, opening.value.length, info, source[openingLine.next..stop], closing.Some?);
      CoversNew(source, lines, n, c, fence);
      ScanFinds(source, lines, fences, spans, fence, Span(n, c));
      fences, spans := fences + [fence], spans + [Span(n, c)];
      if closing.None? {
        return;
      }
      LineAhead(source, lines, c);
      AdvanceInPlace(source, lines[c], Some(FenceState(fence.marker, fence.length)));
      assert StateAfter(source, lines, c + 1) == None;
      lineStart := closing.value.next;
      n := c + 1;
    }
    LineAhead(source, lines, n);
    ScanEnds(source, fences, spans);
  }

  lemma OpensMeaning(source: string, line: Line)
    requires line.start <= line.end <= |source|
    ensures var m := MarkerAt(source, line);
            Opens(source, line) <==> m.Some? && !(m.value.marker == '`' && '`' in source[m.value.rest..line.end])
  {
  }

  /** The inner loop: the first later line that closes the fence. */
  method FindClosing(source: string, contentStart: nat, marker: char, length: nat, ghost lines: seq<Line>, ghost first: nat)
    returns (closing: Option<Line>, ghost c: nat)
    requires Chained(source, lines, 0) && InLines(source, lines) && 0 < first <= |lines|
    requires contentStart == if first < |lines| then lines[first].start else |source|
    requires StateAfter(source, lines, first) == Some(FenceState(marker, length))
    ensures first <= c <= |lines| && contentStart <= |source|
    ensures forall k :: first <= k <= c ==> StateAfter(source, lines, k) == Some(FenceState(marker, length))
    ensures closing.None? <==> c == |lines|
    ensures closing.Some? ==> closing.value == lines[c] && Closes(source, lines[c], marker, length) && contentStart <= lines[c].start
  {
    hide MarkerAt, LineAt, Opens, Closes, Advance;
    var start := contentStart;
    c := first;
    while start < |source|
      invariant first <= c <= |lines| && contentStart <= start
      invariant start == if c < |lines| then lines[c].start else |source|
      invariant forall k :: first <= k <= c ==> StateAfter(source, lines, k) == Some(FenceState(marker, length))
      decreases |source| - start
    {
      var candidate := MarkdownLineAt(source, start);
      assert candidate == lines[c];
      AdvanceInPlace(source, lines[c], Some(FenceState(marker, length)));
      var closes := IsClosingFence(source, candidate, marker, length);
      if closes {
        return Some(candidate), c;
      }
      start := candidate.next;
      c := c + 1;
    }
    return None, c;
  }

  // ----- the scan leaves no freedom

  ghost predicate Proper(spans: seq<Span>) {
    Ordered(spans) && forall i :: 0 <= i < |spans| ==> spans[i].opening < spans[i].closing
  }

  /** The span that opens first, or of two that open together the one that closes last. */
  ghost predicate Sooner(s: Span, t: Span) {
    s.opening < t.opening || (s.opening == t.opening && t.closing < s.closing)
  }

  lemma OpenBefore(ss: seq<Span>, ts: seq<Span>, i: nat)
    requires Proper(ss) && Proper(ts) && i < |ss| && i <= |ts| && forall j :: 0 <= j < i ==> ss[j] == ts[j]
    requires i < |ts| ==> ss[i].opening < ts[i].opening
    ensures OpenSomewhere(ss, ss[i].opening) && !OpenSomewhere(ts, ss[i].opening)
  {
    var k := ss[i].opening;
    assert ss[i].opening <= k < ss[i].closing;
    forall j | 0 <= j < |ts| ensures !(ts[j].opening <= k < ts[j].closing) {
      if j < i { assert ts[j] == ss[j]; }
    }
  }

  lemma OpenBehind(ss: seq<Span>, ts: seq<Span>, i: nat)
    requires Proper(ts) && i < |ss| && i < |ts|
    requires ss[i].opening <= ts[i].closing < ss[i].closing
    ensures OpenSomewhere(ss, ts[i].closing) && !OpenSomewhere(ts, ts[i].closing)
  {
    var k := ts[i].closing;
    assert ss[i].opening <= k < ss[i].closing;
    forall j | 0 <= j < |ts| ensures !(ts[j].opening <= k < ts[j].closing) {
      if j < i { assert ts[j].closing < ts[i].opening; }
    }
  }

  /** The first span in which two lists differ opens or closes a line that only one of them has open. */
  lemma SpansDiffer(ss: seq<Span>, ts: seq<Span>, i: nat)
    requires Proper(ss) && Proper(ts) && i < |ss| && i <= |ts| && forall j :: 0 <= j < i ==> ss[j] == ts[j]
    requires i == |ts| || Sooner(ss[i], ts[i])
    ensures exists k: nat :: OpenSomewhere(ss, k) && !OpenSomewhere(ts, k)
  {
    if i < |ts| && ss[i].opening == ts[i].opening {
      OpenBehind(ss, ts, i);
    } else {
      OpenBefore(ss, ts, i);
    }
  }

  lemma {:induction false} SameSpans(ss: seq<Span>, ts: seq<Span>, i: nat)
    requires Proper(ss) && Proper(ts) && i <= |ss| && i <= |ts| && forall j :: 0 <= j < i ==> ss[j] == ts[j]
    requires forall k: nat :: OpenSomewhere(ss, k) <==> OpenSomewhere(ts, k)
    ensures ss == ts
    decreases |ss| - i
  {
    if i < |ss| && i < |ts| && ss[i] == ts[i] {
      SameSpans(ss, ts, i + 1);
    } else if i < |ss| && (i == |ts| || Sooner(ss[i], ts[i])) {
      SpansDiffer(ss, ts, i);
    } else if i < |ts| {
      SpansDiffer(ts, ss, i);
    }
  }

  /** The contract of the scanner has one answer. */
  lemma ScanIsUnique(source: string, fs: seq<Fence>, ss: seq<Span>, gs: seq<Fence>, ts: seq<Span>)
    requires Scanned(source, fs, ss) && Scanned(source, gs, ts)
    ensures fs == gs && ss == ts
  {
    var lines := LinesFrom(source, 0);
    assert forall i :: 0 <= i < |fs| ==> Covers(source, lines, fs[i], ss[i]);
    assert forall i :: 0 <= i < |gs| ==> Covers(source, lines, gs[i], ts[i]);
    forall k: nat ensures OpenSomewhere(ss, k) <==> OpenSomewhere(ts, k) {
      if k < |lines| {
        assert AgreeAt(source, lines, fs, ss, k) && AgreeAt(source, lines, gs, ts, k);
      }
    }
    SameSpans(ss, ts, 0);
  }
}

/**
  Fenced code blocks told by their characters: what a line is, which lines open and close
  a fence, and which fences a text therefore has.
*/
module FenceMeaning {
  import opened Basics
  import opened CodeFence

  /** A line ends at the first LF or CR, or with the text; LF, CR and CR LF each end one line. */
  lemma LineMeaning(source: string, start: nat)
    requires start <= |source|
    ensures var line := LineAt(source, start);
            line.start == start && start <= line.end <= line.next <= |source| &&
            '\n' !in source[start..line.end] && '\r' !in source[start..line.end] &&
            match source[line.end..line.next]
            case "" => line.end == |source|
            case "\n" => true
            case "\r" => line.next < |source| ==> source[line.next] != '\n'
            case brk => brk == "\r\n"
  {
    var line := LineAt(source, start);
    if line.next == line.end + 1 {
      assert source[line.end..line.next] == [source[line.end]];
    } else if line.next == line.end + 2 {
      assert source[line.end..line.next] == [source[line.end], source[line.end + 1]];
    }
  }

  /** At most three spaces, then `source[i..j]`, a maximal run of at least three of `marker`. */
  ghost predicate Fenced(source: string, line: Line, marker: char, i: nat, j: nat) {
    line.start <= i <= line.start + 3 && i + 3 <= j <= line.end <= |source| &&
    (forall k :: line.start <= k < i ==> source[k] == ' ') &&
    (forall k :: i <= k < j ==> source[k] == marker) &&
    (j < line.end ==> source[j] != marker)
  }

  lemma FencedIsMarker(source: string, line: Line, marker: char, i: nat, j: nat)
    requires line.start <= line.end <= |source| && (marker == '`' || marker == '~')
    ensures Fenced(source, line, marker, i, j) <==> i <= j && MarkerAt(source, line) == Some(Marker(marker, j - i, j))
  {
    if i <= j { MarkerMeaning(source, line, Marker(marker, j - i, j)); }
  }

  /** A line opens a fence by a run of backticks or tildes; no backtick may follow backticks. */
  lemma OpensExactly(source: string, line: Line)
    requires line.start <= line.end <= |source|
    ensures Opens(source, line) <==>
              exists i: nat, j: nat ::
                Fenced(source, line, '~', i, j) || (Fenced(source, line, '`', i, j) && '`' !in source[j..line.end])
  {
    hide Fenced;
    var m := MarkerAt(source, line);
    forall i: nat, j: nat
      ensures Fenced(source, line, '~', i, j) ==> m.Some? && m.value.marker == '~'
      ensures Fenced(source, line, '`', i, j) ==> i <= j && m == Some(Marker('`', j - i, j))
    {
      FencedIsMarker(source, line, '~', i, j);
      FencedIsMarker(source, line, '`', i, j);
    }
    if m.Some? {
      MarkerMeaning(source, line, m.value);
      FencedIsMarker(source, line, m.value.marker, m.value.rest - m.value.length, m.value.rest);
    }
  }

  /** A line closes a fence by a run of its marker, at least as long, with nothing but blanks behind it. */
  lemma ClosesExactly(source: string, line: Line, marker: char, length: nat)
    requires line.start <= line.end <= |source| && (marker == '`' || marker == '~')
    ensures Closes(source, line, marker, length) <==>
              exists i: nat, j: nat ::
                Fenced(source, line, marker, i, j) && j - i >= length &&
                forall k :: j <= k < line.end ==> source[k] == ' ' || source[k] == '\t'
  {
    hide Fenced;
    var m := MarkerAt(source, line);
    forall i: nat, j: nat ensures Fenced(source, line, marker, i, j) <==> i <= j && m == Some(Marker(marker, j - i, j)) {
      FencedIsMarker(source, line, marker, i, j);
    }
    if Closes(source, line, marker, length) {
      MarkerMeaning(source, line, m.value);
      assert Fenced(source, line, marker, m.value.rest - m.value.length, m.value.rest);
    }
  }

  // ----- the fences of a text

  ghost predicate Inside(spans: seq<Span>, k: nat) {
    exists i :: 0 <= i < |spans| && spans[i].opening <= k <= spans[i].closing
  }

  lemma StateOf(source: string, fences: seq<Fence>, spans: seq<Span>, k: nat, i: nat)
    requires Scanned(source, fences, spans) && k < |LinesFrom(source, 0)| && i < |spans| && spans[i].opening <= k < spans[i].closing
    ensures StateAfter(source, LinesFrom(source, 0), k + 1) == Some(FenceState(fences[i].marker, fences[i].length))
  {
    hide Covers, Chained, StateAfter;
    var lines := LinesFrom(source, 0);
    assert AgreeAt(source, lines, fences, spans, k);
    assert OpenSomewhere(spans, k);
    var state := StateAfter(source, lines, k + 1).value;
    var j :| 0 <= j < |spans| && spans[j].opening <= k < spans[j].closing && state == FenceState(fences[j].marker, fences[j].length);
    assert i == j;
  }

  lemma StateOutside(source: string, fences: seq<Fence>, spans: seq<Span>, k: nat)
    requires Scanned(source, fences, spans) && k < |LinesFrom(source, 0)| && !OpenSomewhere(spans, k)
    ensures StateAfter(source, LinesFrom(source, 0), k + 1) == None
  {
    hide Covers, Chained, StateAfter, Ordered;
    assert AgreeAt(source, LinesFrom(source, 0), fences, spans, k);
  }

  /** One line of the incremental form, in place. */
  lemma StateStep(source: string, k: nat)
    requires k < |LinesFrom(source, 0)|
    ensures Chained(source, LinesFrom(source, 0), 0) && InLines(source, LinesFrom(source, 0))
    ensures var lines := LinesFrom(source, 0);
            lines[k].start <= lines[k].end <= |source| &&
            match StateAfter(source, lines, k)
            case Some(fence) => StateAfter(source, lines, k + 1).None? <==> Closes(source, lines[k], fence.marker, fence.length)
            case None => StateAfter(source, lines, k + 1).None? <==> !Opens(source, lines[k])
  {
    hide LinesFrom, LineAt, Opens, Closes, MarkerAt, Advance, Chained;
    LinesChain(source, 0);
    var lines := LinesFrom(source, 0);
    LineEnds(source, lines);
    ChainStep(source, lines, k);
    AdvanceInPlace(source, lines[k], StateAfter(source, lines, k));
  }

  lemma NoStateYet(source: string)
    requires InLines(source, LinesFrom(source, 0))
    ensures StateAfter(source, LinesFrom(source, 0), 0) == None
  {
  }

  /** The spans are lines of the text, in order and apart; the first line of each opens its fence. */
  lemma SpansProper(source: string, fences: seq<Fence>, spans: seq<Span>)
    requires Scanned(source, fences, spans)
    ensures |fences| == |spans| && Ordered(spans) && InLines(source, LinesFrom(source, 0))
    ensures forall i :: 0 <= i < |spans| ==>
              spans[i].opening < spans[i].closing <= |LinesFrom(source, 0)| && Opens(source, LinesFrom(source, 0)[spans[i].opening])
  {
    hide Opens, StateAfter, Chained, LinesFrom, Agree;
    assert forall i :: 0 <= i < |fences| ==> Covers(source, LinesFrom(source, 0), fences[i], spans[i]);
  }

  lemma NotOpenAtClosing(spans: seq<Span>, i: nat)
    requires Proper(spans) && i < |spans|
    ensures !OpenSomewhere(spans, spans[i].closing)
  {
  }

  lemma NotOpenOutside(spans: seq<Span>, k: nat)
    requires Proper(spans) && !Inside(spans, k)
    ensures !OpenSomewhere(spans, k) && (k > 0 ==> !OpenSomewhere(spans, k - 1))
  {
  }

  lemma LineInFence(source: string, fences: seq<Fence>, spans: seq<Span>, k: nat, i: nat)
    requires Scanned(source, fences, spans) && k < |LinesFrom(source, 0)| && i < |spans| && i < |fences|
    requires spans[i].opening < k <= spans[i].closing && Proper(spans) && InLines(source, LinesFrom(source, 0))
    ensures k < spans[i].closing <==> !Closes(source, LinesFrom(source, 0)[k], fences[i].marker, fences[i].length)
  {
    hide Opens, Closes, StateAfter, Chained, LinesFrom, Scanned, Proper, OpenSomewhere;
    StateStep(source, k);
    StateOf(source, fences, spans, k - 1, i);
    if k < spans[i].closing {
      StateOf(source, fences, spans, k, i);
    } else {
      NotOpenAtClosing(spans, i);
      StateOutside(source, fences, spans, k);
    }
  }

  lemma LineOutside(source: string, fences: seq<Fence>, spans: seq<Span>, k: nat)
    requires Scanned(source, fences, spans) && k < |LinesFrom(source, 0)| && !Inside(spans, k) && Proper(spans)
    requires InLines(source, LinesFrom(source, 0))
    ensures !Opens(source, LinesFrom(source, 0)[k])
  {
    hide Opens, Closes, StateAfter, Chained, LinesFrom, Scanned, Proper, OpenSomewhere, Inside;
    StateStep(source, k);
    NotOpenOutside(spans, k);
    StateOutside(source, fences, spans, k);
    if k > 0 { StateOutside(source, fences, spans, k - 1); } else { NoStateYet(source); }
  }

  /**
    A fence begins at each line that opens one outside all others, runs over the lines that do not close it, and ends
    with the first that does, or with the text.
  */
  lemma FencesExactly(source: string, fences: seq<Fence>, spans: seq<Span>, k: nat)
    requires Scanned(source, fences, spans) && k < |LinesFrom(source, 0)|
    ensures |fences| == |spans| && InLines(source, LinesFrom(source, 0))
    ensures forall i :: 0 <= i < |spans| ==> spans[i].opening < spans[i].closing <= |LinesFrom(source, 0)|
    ensures var line := LinesFrom(source, 0)[k];
            (forall i :: 0 <= i < |spans| && spans[i].opening < k < spans[i].closing ==>
               !Closes(source, line, fences[i].marker, fences[i].length)) &&
            (forall i :: 0 <= i < |spans| && k == spans[i].closing ==> Closes(source, line, fences[i].marker, fences[i].length)) &&
            (forall i :: 0 <= i < |spans| && k == spans[i].opening ==> Opens(source, line)) &&
            (!Inside(spans, k) ==> !Opens(source, line))
  {
    hide Opens, Closes, Chained, LinesFrom, Scanned, OpenSomewhere, Inside;
    SpansProper(source, fences, spans);
    assert Proper(spans);
    forall i | 0 <= i < |spans| && spans[i].opening < k <= spans[i].closing
      ensures k < spans[i].closing <==> !Closes(source, LinesFrom(source, 0)[k], fences[i].marker, fences[i].length)
    {
      LineInFence(source, fences, spans, k, i);
    }
    if !Inside(spans, k) { LineOutside(source, fences, spans, k); }
  }
}

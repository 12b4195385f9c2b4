/**
  Discussion quotes: the searchable text of a page, capturing a quote on it and finding the quote again.
  Text is taken to be in Unicode normal form C, so normalisation only collapses white space.
*/
module QuoteAnchor {
  import opened Basics
  import opened WhiteSpace

  /** One space for every run of white space. */
  function Collapse(s: string): string
    decreases |s|
  {
    if s == "" then ""
    else if IsSpace(s[0]) then " " + Collapse(TrimStart(s[1..]))
    else [s[0]] + Collapse(s[1..])
  }

  function NormalizeQuote(s: string): string {
    Trim(Collapse(s))
  }

  datatype Anchor = Anchor(exact: string, prefix: string, suffix: string, heading: Option<string>, offset: nat)

  datatype Match = Found(start: nat, end: nat) | Missing | Ambiguous

  type HeadingAt = nat -> Option<string>

  // ----- finding a quote

  predicate Occurs(text: string, exact: string, k: nat) {
    k + |exact| <= |text| && text[k..k + |exact|] == exact
  }

  function IndexOf(text: string, exact: string, from: nat): Option<nat>
    decreases |text| - from
  {
    if from + |exact| > |text| then None
    else if Occurs(text, exact, from) then Some(from)
    else IndexOf(text, exact, from + 1)
  }

  function Occurrences(text: string, exact: string, from: nat): seq<nat>
    decreases |text| - from
  {
    if from + |exact| > |text| then []
    else (if Occurs(text, exact, from) then [from] else []) + Occurrences(text, exact, from + 1)
  }

  function Keep(ks: seq<nat>, test: nat -> bool): seq<nat> {
    if ks == [] then [] else (if test(ks[0]) then [ks[0]] else []) + Keep(ks[1..], test)
  }

  predicate EndsWith(s: string, suffix: string) {
    |suffix| <= |s| && s[|s| - |suffix|..] == suffix
  }

  /** The text around place `k`; an empty prefix or suffix fits everywhere. */
  predicate ContextFits(text: string, exact: string, prefix: string, suffix: string, k: nat) {
    k + |exact| <= |text| &&
    (prefix == "" || EndsWith(text[..k], prefix)) && (suffix == "" || suffix <= text[k + |exact|..])
  }

  function ContextTest(text: string, exact: string, prefix: string, suffix: string): nat -> bool {
    (k: nat) => ContextFits(text, exact, prefix, suffix, k)
  }

  predicate HeadingFits(headingAt: HeadingAt, heading: string, k: nat) {
    NormalizeQuote(match headingAt(k) case Some(h) => h case None => "") == NormalizeQuote(heading)
  }

  function HeadingTest(headingAt: HeadingAt, heading: string): nat -> bool {
    (k: nat) => HeadingFits(headingAt, heading, k)
  }

  /** A filter that nothing passes is not applied. */
  function Narrow(ks: seq<nat>, test: nat -> bool): seq<nat> {
    if Keep(ks, test) != [] then Keep(ks, test) else ks
  }

  function Survivors(text: string, exact: string, anchor: Anchor, headingAt: HeadingAt): seq<nat> {
    var candidates := Occurrences(text, exact, 0);
    var prefix, suffix := Collapse(anchor.prefix), Collapse(anchor.suffix);
    var contextual :=
      if |candidates| > 1 && (prefix != "" || suffix != "") then
        Narrow(candidates, ContextTest(text, exact, prefix, suffix))
      else candidates;
    if |contextual| > 1 && anchor.heading.Some? && anchor.heading.value != "" then
      Narrow(contextual, HeadingTest(headingAt, anchor.heading.value))
    else contextual
  }

  function Locate(text: string, anchor: Anchor, headingAt: HeadingAt): Match {
    var exact := NormalizeQuote(anchor.exact);
    if exact == "" || Occurrences(text, exact, 0) == [] then Missing
    else
      var surviving := Survivors(text, exact, anchor, headingAt);
      if |surviving| == 1 then Found(surviving[0], surviving[0] + |exact|) else Ambiguous
  }

  /** The search loop: every next hit starts one character further. */
  method Candidates(text: string, exact: string) returns (candidates: seq<nat>)
    requires exact != ""
    ensures candidates == Occurrences(text, exact, 0)
  {
    hide IndexOf, Occurrences;
    candidates := [];
    var offset := IndexOf(text, exact, 0);
    NextOccurrence(text, exact, 0);
    while offset.Some?
      invariant offset.Some? ==> offset.value < |text|
      invariant Occurrences(text, exact, 0) ==
                candidates + (if offset.Some? then [offset.value] + Occurrences(text, exact, offset.value + 1) else [])
      decreases if offset.Some? then |text| - offset.value else -1
    {
      NextOccurrence(text, exact, offset.value + 1);
      candidates := candidates + [offset.value];
      offset := IndexOf(text, exact, offset.value + 1);
    }
  }

  method LocateDiscussionAnchor(text: string, anchor: Anchor, headingAt: HeadingAt) returns (r: Match)
    ensures r == Locate(text, anchor, headingAt)
  {
    hide Collapse, NormalizeQuote, Occurrences, Keep;
    var exact := NormalizeQuote(anchor.exact);
    if exact == "" {
      return Missing;
    }
    var candidates := Candidates(text, exact);
    if candidates == [] {
      return Missing;
    }
    var surviving := candidates;
    if |surviving| > 1 {
      var prefix, suffix := Collapse(anchor.prefix), Collapse(anchor.suffix);
      if prefix != "" || suffix != "" {
        var contextual := Keep(surviving, ContextTest(text, exact, prefix, suffix));
        if contextual != [] {
          surviving := contextual;
        }
      }
      if |surviving| > 1 && anchor.heading.Some? && anchor.heading.value != "" {
        var headed := Keep(surviving, HeadingTest(headingAt, anchor.heading.value));
        if headed != [] {
          surviving := headed;
        }
      }
    }
    assert surviving == Survivors(text, exact, anchor, headingAt);
    return if |surviving| == 1 then Found(surviving[0], surviving[0] + |exact|) else Ambiguous;
  }

  lemma {:induction false} NextOccurrence(text: string, exact: string, from: nat)
    requires exact != ""
    ensures match IndexOf(text, exact, from)
            case None => Occurrences(text, exact, from) == []
            case Some(k) =>
              from <= k < |text| && Occurrences(text, exact, from) == [k] + Occurrences(text, exact, k + 1)
    decreases |text| - from
  {
    hide Occurs;
    if from + |exact| <= |text| && !Occurs(text, exact, from) { NextOccurrence(text, exact, from + 1); }
  }

  ghost predicate Increasing(ks: seq<nat>) {
    forall i, j :: 0 <= i < j < |ks| ==> ks[i] < ks[j]
  }

  lemma ConsIncreasing(k: nat, ks: seq<nat>)
    requires Increasing(ks) && forall j <- ks :: k < j
    ensures Increasing([k] + ks)
  {
    forall i, j | 0 <= i < j < |ks| + 1 ensures ([k] + ks)[i] < ([k] + ks)[j] {
      assert ([k] + ks)[j] == ks[j - 1] && ks[j - 1] in ks;
      if i > 0 { assert ([k] + ks)[i] == ks[i - 1]; }
    }
  }

  /** The candidates are all places of the quote, overlapping ones included, from left to right. */
  lemma {:induction false} AllOccurrences(text: string, exact: string, from: nat)
    ensures forall k: nat :: k in Occurrences(text, exact, from) <==> from <= k && Occurs(text, exact, k)
    ensures Increasing(Occurrences(text, exact, from))
    decreases |text| - from
  {
    if from + |exact| <= |text| {
      AllOccurrences(text, exact, from + 1);
      if Occurs(text, exact, from) { ConsIncreasing(from, Occurrences(text, exact, from + 1)); }
    }
  }

  lemma TailIncreasing(ks: seq<nat>)
    requires Increasing(ks) && ks != []
    ensures Increasing(ks[1..]) && forall j <- ks[1..] :: ks[0] < j
  {
    assert forall i :: 0 <= i < |ks| - 1 ==> ks[1..][i] == ks[i + 1];
  }

  lemma {:induction false} KeepMember(ks: seq<nat>, test: nat -> bool, k: nat)
    ensures k in Keep(ks, test) <==> k in ks && test(k)
  {
    if ks != [] {
      KeepMember(ks[1..], test, k);
      assert k in ks <==> k == ks[0] || k in ks[1..] by { assert ks == [ks[0]] + ks[1..]; }
    }
  }

  lemma {:induction false} KeepMeaning(ks: seq<nat>, test: nat -> bool)
    requires Increasing(ks)
    ensures forall k: nat :: k in Keep(ks, test) <==> k in ks && test(k)
    ensures Increasing(Keep(ks, test))
  {
    forall k: nat ensures k in Keep(ks, test) <==> k in ks && test(k) { KeepMember(ks, test, k); }
    KeepIncreasing(ks, test);
  }

  lemma {:induction false} KeepIncreasing(ks: seq<nat>, test: nat -> bool)
    requires Increasing(ks)
    ensures Increasing(Keep(ks, test))
  {
    if ks != [] {
      hide Increasing;
      var rest := Keep(ks[1..], test);
      TailIncreasing(ks);
      KeepIncreasing(ks[1..], test);
      forall j | j in rest ensures ks[0] < j { KeepMember(ks[1..], test, j); }
      ConsIncreasing(ks[0], rest);
      assert [] + rest == rest;
    }
  }

  lemma OnlyOne(ks: seq<nat>, k: nat)
    requires Increasing(ks) && k in ks
    ensures |ks| == 1 <==> forall j <- ks :: j == k
    ensures |ks| == 1 ==> ks == [k]
  {
    if |ks| > 1 { assert ks[0] < ks[1] && ks[0] in ks && ks[1] in ks; }
  }

  // ----- what the filters leave

  ghost predicate InItsContext(text: string, exact: string, anchor: Anchor, k: nat) {
    ContextFits(text, exact, Collapse(anchor.prefix), Collapse(anchor.suffix), k)
  }

  /** A place of the quote in the stored context; any place where the context is nowhere. */
  ghost predicate PassesContext(text: string, exact: string, anchor: Anchor, k: nat) {
    Occurs(text, exact, k) &&
    (InItsContext(text, exact, anchor, k) || forall j: nat :: Occurs(text, exact, j) ==> !InItsContext(text, exact, anchor, j))
  }

  /** And of those one under the stored heading; any where there is none under it. */
  ghost predicate Survives(text: string, exact: string, anchor: Anchor, headingAt: HeadingAt, k: nat) {
    PassesContext(text, exact, anchor, k) &&
    (anchor.heading.None? || anchor.heading.value == "" || HeadingFits(headingAt, anchor.heading.value, k) ||
     forall j: nat :: PassesContext(text, exact, anchor, j) ==> !HeadingFits(headingAt, anchor.heading.value, j))
  }

  lemma NarrowMeaning(ks: seq<nat>, test: nat -> bool)
    requires Increasing(ks)
    ensures Increasing(Narrow(ks, test)) && (ks != [] ==> Narrow(ks, test) != [])
    ensures forall k: nat :: k in Narrow(ks, test) <==> k in ks && (test(k) || forall j <- ks :: !test(j))
  {
    KeepMeaning(ks, test);
    var kept := Keep(ks, test);
    if kept != [] { assert kept[0] in kept; }
  }

  lemma SingleNeedsNoFilter(ks: seq<nat>, test: nat -> bool)
    requires |ks| <= 1
    ensures Narrow(ks, test) == ks
  {
    if |ks| == 1 { assert ks[1..] == [] && Keep([], test) == []; }
  }

  lemma ContextMeaning(text: string, exact: string, anchor: Anchor)
    ensures var candidates := Occurrences(text, exact, 0);
            var prefix, suffix := Collapse(anchor.prefix), Collapse(anchor.suffix);
            var contextual := if |candidates| > 1 && (prefix != "" || suffix != "")
                              then Narrow(candidates, ContextTest(text, exact, prefix, suffix)) else candidates;
            Increasing(contextual) && forall k: nat :: k in contextual <==> PassesContext(text, exact, anchor, k)
  {
    hide Collapse, Occurs, Narrow, Occurrences, Increasing, ContextFits;
    AllOccurrences(text, exact, 0);
    AnywhereFits(text, exact);
    var all, test := Occurrences(text, exact, 0), ContextTest(text, exact, Collapse(anchor.prefix), Collapse(anchor.suffix));
    assert forall k: nat :: test(k) <==> InItsContext(text, exact, anchor, k);
    NarrowMeaning(all, test);
    if |all| <= 1 { SingleNeedsNoFilter(all, test); }
  }

  lemma SurvivorsMeaning(text: string, exact: string, anchor: Anchor, headingAt: HeadingAt)
    ensures var left := Survivors(text, exact, anchor, headingAt);
            Increasing(left) && forall k: nat :: k in left <==> Survives(text, exact, anchor, headingAt, k)
  {
    hide Collapse, Narrow, Occurrences, Increasing, HeadingFits, PassesContext;
    ContextMeaning(text, exact, anchor);
    var candidates := Occurrences(text, exact, 0);
    var prefix, suffix := Collapse(anchor.prefix), Collapse(anchor.suffix);
    var contextual := if |candidates| > 1 && (prefix != "" || suffix != "")
                      then Narrow(candidates, ContextTest(text, exact, prefix, suffix)) else candidates;
    if anchor.heading.Some? && anchor.heading.value != "" {
      var test := HeadingTest(headingAt, anchor.heading.value);
      assert forall k: nat :: test(k) <==> HeadingFits(headingAt, anchor.heading.value, k);
      NarrowMeaning(contextual, test);
      if |contextual| <= 1 { SingleNeedsNoFilter(contextual, test); }
    }
  }

  /** Where the quote occurs, something survives. */
  lemma SomeSurvive(text: string, exact: string, anchor: Anchor, headingAt: HeadingAt, k: nat)
    requires Occurs(text, exact, k)
    ensures exists j: nat :: Survives(text, exact, anchor, headingAt, j)
  {
    hide Occurs, InItsContext, HeadingFits;
    var i: nat := k;
    if j: nat :| Occurs(text, exact, j) && InItsContext(text, exact, anchor, j) { i := j; }
    assert PassesContext(text, exact, anchor, i);
    if anchor.heading.Some? {
      if j: nat :| PassesContext(text, exact, anchor, j) && HeadingFits(headingAt, anchor.heading.value, j) { i := j; }
    }
    assert Survives(text, exact, anchor, headingAt, i);
  }

  /**
    What any anchor is resolved to: missing where the quote is blank or nowhere, found at the only place that
    survives the filters, ambiguous where two survive. The stored offset has no say.
  */
  lemma LocateMeaning(text: string, anchor: Anchor, headingAt: HeadingAt)
    ensures var exact, r := NormalizeQuote(anchor.exact), Locate(text, anchor, headingAt);
            (r == Missing <==> exact == "" || forall k: nat :: !Occurs(text, exact, k)) &&
            (r.Found? ==> r.end == r.start + |exact| && Occurs(text, exact, r.start)) &&
            (forall start: nat :: r == Found(start, start + |exact|) <==>
               exact != "" && Survives(text, exact, anchor, headingAt, start) &&
               forall k: nat :: Survives(text, exact, anchor, headingAt, k) ==> k == start) &&
            (r == Ambiguous <==>
               exact != "" && exists j: nat, k: nat :: j < k && Survives(text, exact, anchor, headingAt, j) &&
                                                       Survives(text, exact, anchor, headingAt, k))
  {
    hide Collapse, Occurs, Occurrences, NormalizeQuote, Survivors, Survives, Increasing;
    var exact := NormalizeQuote(anchor.exact);
    AllOccurrences(text, exact, 0);
    SurvivorsMeaning(text, exact, anchor, headingAt);
    SurvivorsOccur(text, exact, anchor, headingAt);
    var all, left := Occurrences(text, exact, 0), Survivors(text, exact, anchor, headingAt);
    if all != [] {
      assert all[0] in all;
      SomeSurvive(text, exact, anchor, headingAt, all[0]);
      OneOrMore(left);
      assert left[0] in left;
    }
  }

  lemma OneOrMore(ks: seq<nat>)
    requires Increasing(ks) && ks != []
    ensures forall k: nat :: |ks| == 1 && ks[0] == k <==> k in ks && forall j <- ks :: j == k
    ensures |ks| > 1 <==> exists j: nat, k: nat :: j < k && j in ks && k in ks
  {
    forall k: nat ensures |ks| == 1 && ks[0] == k <==> k in ks && forall j <- ks :: j == k {
      if k in ks { OnlyOne(ks, k); }
    }
    if |ks| > 1 { assert ks[0] < ks[1] && ks[0] in ks && ks[1] in ks; }
  }

  lemma SurvivorsOccur(text: string, exact: string, anchor: Anchor, headingAt: HeadingAt)
    ensures forall k: nat :: Survives(text, exact, anchor, headingAt, k) ==> Occurs(text, exact, k)
  {
    hide Occurs, InItsContext, HeadingFits;
  }

  // ----- the searchable text

  /** What the walk meets: a block edge or white space, a heading, one glyph. */
  datatype Piece = Gap | NewHeading(heading: Option<string>) | Glyph(chars: string)

  /** `blank` marks the space put in for a gap; `at` is the piece a character came from. */
  datatype Point = Point(at: nat, blank: bool, heading: Option<string>)

  datatype Index = Index(text: string, points: seq<Point>, heading: Option<string>, pendingSpace: bool)

  function GlyphPoints(n: nat, at: nat, heading: Option<string>): (ps: seq<Point>)
    ensures |ps| == n && forall p <- ps :: p == Point(at, false, heading)
  {
    seq(n, _ => Point(at, false, heading))
  }

  function Walk(pieces: seq<Piece>): Index {
    if pieces == [] then Index("", [], None, false)
    else
      var n := |pieces| - 1;
      var ix := Walk(pieces[..n]);
      match pieces[n]
      case Gap => ix.(pendingSpace := ix.text != "")
      case NewHeading(h) => ix.(heading := h)
      case Glyph(chars) =>
        var gap := ix.pendingSpace && ix.text != "";
        Index(ix.text + (if gap then " " else "") + chars,
              ix.points + (if gap then [Point(n, true, ix.heading)] else []) + GlyphPoints(|chars|, n, ix.heading),
              ix.heading, false)
  }

  method IndexDiscussionText(pieces: seq<Piece>) returns (text: string, points: seq<Point>)
    ensures text == Walk(pieces).text && points == Walk(pieces).points
  {
    text, points := "", [];
    var heading := None;
    var pendingSpace := false;
    for i := 0 to |pieces|
      invariant Index(text, points, heading, pendingSpace) == Walk(pieces[..i])
    {
      assert pieces[..i + 1][..i] == pieces[..i];
      match pieces[i] {
        case Gap =>
          pendingSpace := |text| > 0;
        case NewHeading(h) =>
          heading := h;
        case Glyph(chars) =>
          if pendingSpace && |text| > 0 {
            text := text + " ";
            points := points + [Point(i, true, heading)];
          }
          pendingSpace := false;
          text := text + chars;
          points := points + GlyphPoints(|chars|, i, heading);
      }
    }
    assert pieces[..|pieces|] == pieces;
  }

  /** A match of the glyph pattern is never empty. */
  predicate GoodPieces(pieces: seq<Piece>) {
    forall p <- pieces :: p.Glyph? ==> p.chars != ""
  }

  /** The characters of the glyphs, one after the other. */
  function Ink(pieces: seq<Piece>): string {
    if pieces == [] then ""
    else
      var n := |pieces| - 1;
      Ink(pieces[..n]) + match pieces[n] case Glyph(chars) => chars case _ => ""
  }

  /** The text without the spaces put in for gaps. */
  function Unblanked(text: string, points: seq<Point>): string
    requires |text| == |points|
  {
    if text == "" then ""
    else
      var n := |text| - 1;
      Unblanked(text[..n], points[..n]) + if points[n].blank then "" else [text[n]]
  }

  /** A blank point is one space between two characters of glyphs. */
  predicate BlanksStandAlone(text: string, points: seq<Point>) {
    |text| == |points| &&
    forall i :: 0 <= i < |points| && points[i].blank ==>
      text[i] == ' ' && 0 < i < |points| - 1 && !points[i - 1].blank && !points[i + 1].blank
  }

  lemma {:induction false} UnblankedGlyph(text: string, points: seq<Point>, chars: string, more: seq<Point>)
    requires |text| == |points| && |chars| == |more| && forall p <- more :: !p.blank
    ensures Unblanked(text + chars, points + more) == Unblanked(text, points) + chars
    decreases |chars|
  {
    if chars == "" {
      assert text + chars == text && points + more == points;
    } else {
      var n := |chars| - 1;
      assert (text + chars)[..|text| + n] == text + chars[..n] && (points + more)[..|text| + n] == points + more[..n];
      assert more[n] in more && forall p <- more[..n] :: p in more;
      UnblankedGlyph(text, points, chars[..n], more[..n]);
      assert chars == chars[..n] + [chars[n]];
    }
  }

  lemma UnblankedGap(text: string, points: seq<Point>, point: Point)
    requires |text| == |points| && point.blank
    ensures Unblanked(text + " ", points + [point]) == Unblanked(text, points)
  {
    assert (text + " ")[..|text|] == text && (points + [point])[..|text|] == points;
  }

  lemma BlanksAppend(text: string, points: seq<Point>, gap: seq<Point>, chars: string, more: seq<Point>)
    requires BlanksStandAlone(text, points) && chars != "" && |chars| == |more| && forall p <- more :: !p.blank
    requires gap == [] || (text != "" && |gap| == 1 && gap[0].blank)
    ensures BlanksStandAlone(text + (if gap == [] then "" else " ") + chars, points + gap + more)
  {
    var t, ps := text + (if gap == [] then "" else " ") + chars, points + gap + more;
    assert forall i :: |ps| - |more| <= i < |ps| ==> ps[i] in more;
    if text != "" { assert !points[|text| - 1].blank; }
    forall i | 0 <= i < |ps| && ps[i].blank
      ensures t[i] == ' ' && 0 < i < |ps| - 1 && !ps[i - 1].blank && !ps[i + 1].blank
    {
      if i < |text| {
        assert ps[i] == points[i] && ps[i - 1] == points[i - 1] && ps[i + 1] == points[i + 1];
      } else {
        assert i == |text| && gap != [];
        assert ps[i + 1] == more[0] && ps[i - 1] == points[|text| - 1];
      }
    }
  }

  /** Whatever the glyphs are: the index holds their characters in order, with single blank points between some of them. */
  lemma {:induction false} IndexShape(pieces: seq<Piece>)
    requires GoodPieces(pieces)
    ensures var ix := Walk(pieces);
            BlanksStandAlone(ix.text, ix.points) && Unblanked(ix.text, ix.points) == Ink(pieces)
  {
    hide BlanksStandAlone, Unblanked;
    if pieces == [] {
      NoBlanks();
    } else {
      var n := |pieces| - 1;
      assert pieces[n] in pieces && forall p <- pieces[..n] :: p in pieces;
      IndexShape(pieces[..n]);
      var ix := Walk(pieces[..n]);
      BlanksLength(ix.text, ix.points);
      if pieces[n].Glyph? {
        var chars := pieces[n].chars;
        var gap := if ix.pendingSpace && ix.text != "" then [Point(n, true, ix.heading)] else [];
        var more := GlyphPoints(|chars|, n, ix.heading);
        BlanksAppend(ix.text, ix.points, gap, chars, more);
        if gap == [] {
          assert ix.text + "" == ix.text && ix.points + [] == ix.points;
          UnblankedGlyph(ix.text, ix.points, chars, more);
        } else {
          UnblankedGap(ix.text, ix.points, gap[0]);
          UnblankedGlyph(ix.text + " ", ix.points + gap, chars, more);
        }
      }
    }
  }

  lemma NoBlanks()
    ensures BlanksStandAlone("", []) && Unblanked("", []) == ""
  {
  }

  lemma BlanksLength(text: string, points: seq<Point>)
    requires BlanksStandAlone(text, points)
    ensures |text| == |points|
  {
  }

  /** Glyphs are not empty and hold no white space. */
  predicate CleanPieces(pieces: seq<Piece>) {
    forall p <- pieces :: p.Glyph? ==> p.chars != "" && forall c <- p.chars :: !IsSpace(c)
  }

  /** Single spaces, between words only. */
  predicate Tidy(text: string) {
    forall i :: 0 <= i < |text| && IsSpace(text[i]) ==>
      text[i] == ' ' && 0 < i < |text| - 1 && !IsSpace(text[i - 1]) && !IsSpace(text[i + 1])
  }

  lemma TidyAppend(text: string, gap: bool, chars: string)
    requires Tidy(text) && chars != "" && (forall c <- chars :: !IsSpace(c)) && (gap ==> text != "")
    ensures Tidy(text + (if gap then " " else "") + chars)
  {
    var t := text + (if gap then " " else "") + chars;
    assert forall i :: |t| - |chars| <= i < |t| ==> t[i] in chars;
    if text != "" {
      assert !IsSpace(text[|text| - 1]);
    }
    forall i | 0 <= i < |t| && IsSpace(t[i])
      ensures t[i] == ' ' && 0 < i < |t| - 1 && !IsSpace(t[i - 1]) && !IsSpace(t[i + 1])
    {
      if i < |text| {
        assert t[i] == text[i] && t[i - 1] == text[i - 1] && t[i + 1] == text[i + 1];
      } else {
        assert i == |text| && gap;
        assert t[i + 1] == chars[0] && t[i - 1] == text[|text| - 1];
      }
    }
  }

  /** The index is tidy, has a point for every character, and its blank points are its spaces. */
  lemma {:induction false} IndexIsTidy(pieces: seq<Piece>)
    requires CleanPieces(pieces)
    ensures var ix := Walk(pieces);
            Tidy(ix.text) && |ix.points| == |ix.text| &&
            forall i :: 0 <= i < |ix.text| ==> (ix.points[i].blank <==> IsSpace(ix.text[i]))
  {
    hide Tidy, IsSpace;
    if pieces == [] {
      assert Tidy("") by { EmptyIsTidy(); }
    } else {
      var n := |pieces| - 1;
      assert forall p <- pieces[..n] :: p in pieces;
      assert pieces[n] in pieces;
      IndexIsTidy(pieces[..n]);
      var ix, now := Walk(pieces[..n]), Walk(pieces);
      if pieces[n].Glyph? {
        var chars, gap := pieces[n].chars, ix.pendingSpace && ix.text != "";
        TidyAppend(ix.text, gap, chars);
        SpaceIsSpace();
        forall i | 0 <= i < |now.text| ensures now.points[i].blank <==> IsSpace(now.text[i]) {
          var edge := |now.text| - |chars|;
          if i >= edge {
            assert now.text[i] == chars[i - edge] && now.points[i] == GlyphPoints(|chars|, n, ix.heading)[i - edge];
          } else if i < |ix.text| {
            assert now.text[i] == ix.text[i] && now.points[i] == ix.points[i];
          }
        }
      }
    }
  }

  lemma EmptyIsTidy()
    ensures Tidy("")
  {
  }

  lemma SpaceIsSpace()
    ensures IsSpace(' ')
  {
  }

  // ----- capturing a quote

  /** First and last touched point that is not blank; `touches` stands for the selected range. */
  function Selected(points: seq<Point>, touches: Point -> bool): (int, int) {
    if points == [] then (-1, -1)
    else
      var n := |points| - 1;
      var (start, end) := Selected(points[..n], touches);
      if points[n].blank || !touches(points[n]) then (start, end) else (if start < 0 then n else start, n + 1)
  }

  function Captured(text: string, points: seq<Point>, start: nat, end: nat): Anchor
    requires start <= end <= |text| == |points| && start < |points|
  {
    Anchor(Trim(text[start..end]), text[if start < 64 then 0 else start - 64..start],
           text[end..if end + 64 < |text| then end + 64 else |text|], points[start].heading, start)
  }

  lemma {:induction false} SelectedMeaning(points: seq<Point>, touches: Point -> bool)
    ensures var (start, end) := Selected(points, touches);
            if start < 0 then start == end == -1 && forall p <- points :: p.blank || !touches(p)
            else
              start < end <= |points| && !points[start].blank && !points[end - 1].blank &&
              touches(points[start]) && touches(points[end - 1]) &&
              forall i :: 0 <= i < |points| && !points[i].blank && touches(points[i]) ==> start <= i < end
  {
    if points != [] {
      var n := |points| - 1;
      SelectedMeaning(points[..n], touches);
      var (start, end) := Selected(points[..n], touches);
      assert points == points[..n] + [points[n]];
      assert start >= 0 ==> points[..n][start] == points[start] && points[..n][end - 1] == points[end - 1];
      forall i | 0 <= i < n ensures points[..n][i] == points[i] && points[..n][i] in points[..n] {
      }
    }
  }

  /** `agrees` compares the quote with the selection's own text. */
  method CaptureDiscussionAnchor(text: string, points: seq<Point>, touches: Point -> bool, agrees: string -> bool)
    returns (anchor: Option<Anchor>)
    requires |text| == |points|
    ensures var (start, end) := Selected(points, touches);
            if start < 0 || end <= start || end > |text| then anchor.None?
            else
              var a := Captured(text, points, start, end);
              anchor == if a.exact == "" || |a.exact| > 1000 || !agrees(a.exact) then None else Some(a)
  {
    var start, end := -1, -1;
    SelectedMeaning(points, touches);
    for i := 0 to |points|
      invariant (start, end) == Selected(points[..i], touches)
    {
      assert points[..i + 1][..i] == points[..i];
      if points[i].blank {
        continue;
      }
      if touches(points[i]) {
        if start < 0 {
          start := i;
        }
        end := i + 1;
      }
    }
    assert points[..|points|] == points;
    if start < 0 || end <= start {
      return None;
    }
    var a := Captured(text, points, start, end);
    if a.exact == "" || |a.exact| > 1000 || !agrees(a.exact) {
      return None;
    }
    return Some(a);
  }

  // ----- the theorem: relocating a captured quote on the same text

  /** Spaces alone and single; the ends are free. */
  predicate Spaced(s: string) {
    forall i :: 0 <= i < |s| && IsSpace(s[i]) ==> s[i] == ' ' && (i + 1 < |s| ==> !IsSpace(s[i + 1]))
  }

  lemma SliceIsSpaced(text: string, a: nat, b: nat)
    requires Tidy(text) && a <= b <= |text|
    ensures Spaced(text[a..b])
  {
  }

  lemma {:induction false} CollapseFixed(s: string)
    requires Spaced(s)
    ensures Collapse(s) == s
  {
    if s != "" {
      assert forall i :: 0 <= i < |s| - 1 ==> s[1..][i] == s[i + 1];
      CollapseFixed(s[1..]);
      if IsSpace(s[0]) {
        if |s| > 1 { assert !IsSpace(s[1..][0]); }
        assert TrimStart(s[1..]) == s[1..];
      }
      assert s == [s[0]] + s[1..];
    }
  }

  /** Another place that context and heading cannot tell from the captured one. */
  ghost predicate Rival(text: string, anchor: Anchor, headingAt: HeadingAt, start: nat, k: nat) {
    k != start && Occurs(text, anchor.exact, k) && ContextFits(text, anchor.exact, anchor.prefix, anchor.suffix, k) &&
    (anchor.heading.Some? && anchor.heading.value != "" ==> HeadingFits(headingAt, anchor.heading.value, k))
  }

  function HeadingIn(points: seq<Point>): HeadingAt {
    (k: nat) => if k < |points| then points[k].heading else None
  }

  /** A captured quote is exactly the selected text, fits its own place, and is in normal form. */
  lemma CapturedFits(text: string, points: seq<Point>, start: nat, end: nat)
    requires Tidy(text) && start < end <= |text| == |points| && !IsSpace(text[start]) && !IsSpace(text[end - 1])
    ensures var a := Captured(text, points, start, end);
            a.exact == text[start..end] && a.exact != "" && NormalizeQuote(a.exact) == a.exact && Occurs(text, a.exact, start) &&
            Collapse(a.prefix) == a.prefix && Collapse(a.suffix) == a.suffix &&
            ContextFits(text, a.exact, a.prefix, a.suffix, start) &&
            (a.heading.Some? ==> HeadingFits(HeadingIn(points), a.heading.value, start))
  {
    hide Tidy, Spaced, Collapse;
    var a, e := Captured(text, points, start, end), text[start..end];
    assert e[0] == text[start] && e[|e| - 1] == text[end - 1];
    NoTrim(e);
    SliceIsSpaced(text, start, end);
    CollapseFixed(e);
    var before, after := if start < 64 then 0 else start - 64, if end + 64 < |text| then end + 64 else |text|;
    SliceIsSpaced(text, before, start);
    CollapseFixed(a.prefix);
    SliceIsSpaced(text, end, after);
    CollapseFixed(a.suffix);
    assert text[..start][before..] == a.prefix;
    assert a.suffix <= text[end..];
  }

  lemma {:induction false} TrimEndShorter(s: string)
    ensures |TrimEnd(s)| <= |s| && (|TrimEnd(s)| == |s| ==> TrimEnd(s) == s)
    ensures TrimEnd(s) == "" || (s != "" && TrimEnd(s)[0] == s[0] && !IsSpace(TrimEnd(s)[|TrimEnd(s)| - 1]))
  {
    hide IsSpace;
    if s != "" && IsSpace(s[|s| - 1]) { TrimEndShorter(s[..|s| - 1]); }
  }

  lemma {:induction false} TrimStartShorter(s: string)
    ensures |TrimStart(s)| <= |s| && (|TrimStart(s)| == |s| ==> TrimStart(s) == s)
    ensures TrimStart(s) == "" || !IsSpace(TrimStart(s)[0])
  {
    hide IsSpace;
    if s != "" && IsSpace(s[0]) { TrimStartShorter(s[1..]); }
  }

  /** Trimming never lengthens, and what it leaves begins and ends with ink. */
  lemma TrimMeaning(s: string)
    ensures var t := Trim(s);
            |t| <= |s| && (|t| == |s| ==> t == s) && (t == "" || (!IsSpace(t[0]) && !IsSpace(t[|t| - 1])))
  {
    hide IsSpace, TrimEnd, TrimStart;
    TrimStartShorter(s);
    TrimEndShorter(TrimStart(s));
  }

  lemma {:induction false} CollapseShorter(s: string)
    ensures |Collapse(s)| <= |s|
    decreases |s|
  {
    hide IsSpace;
    if s != "" { CollapseShorter(if IsSpace(s[0]) then TrimStart(s[1..]) else s[1..]); }
  }

  /** Trimming first makes no difference to whether a text is in normal form. */
  lemma NormalIffTrimmed(s: string)
    ensures NormalizeQuote(Trim(s)) == s <==> NormalizeQuote(s) == s
  {
    hide IsSpace, Trim, Collapse;
    TrimMeaning(s);
    TrimMeaning(Collapse(s));
    TrimMeaning(Collapse(Trim(s)));
    CollapseShorter(Trim(s));
    if NormalizeQuote(s) == s && s != "" { NoTrim(s); }
    if s == "" { NothingNormal(); }
  }

  lemma NothingNormal()
    ensures Trim("") == "" && NormalizeQuote("") == ""
  {
  }

  /**
    A quote captured anywhere on any indexed text: its own place is found if and only if the selected text is in
    normal form, its place survives the filters and no other does. A selected text in normal form is never
    missing; of one that is not, only other places can be found.
  */
  lemma RelocateExactly(text: string, points: seq<Point>, headingAt: HeadingAt, start: nat, end: nat)
    requires start < end <= |text| == |points|
    ensures var a := Captured(text, points, start, end);
            var exact, normal, r := NormalizeQuote(a.exact), NormalizeQuote(text[start..end]) == text[start..end], Locate(text, a, headingAt);
            (r == Found(start, end) <==>
               normal && Survives(text, text[start..end], a, headingAt, start) &&
               forall k: nat :: Survives(text, text[start..end], a, headingAt, k) ==> k == start) &&
            (normal ==> exact == text[start..end] && r != Missing) &&
            (!normal && r.Found? ==> Occurs(text, exact, r.start) && exact != text[start..end])
  {
    hide Captured, Locate, Survives, NormalizeQuote;
    var a, own := Captured(text, points, start, end), text[start..end];
    OwnExact(text, points, start, end);
    NormalIffTrimmed(own);
    LocateMeaning(text, a, headingAt);
    if NormalizeQuote(own) == own {
      TrimmedIsOwn(own);
      assert Occurs(text, own, start);
      assert own != "";
    }
  }

  lemma OwnExact(text: string, points: seq<Point>, start: nat, end: nat)
    requires start < end <= |text| == |points|
    ensures Captured(text, points, start, end).exact == Trim(text[start..end])
  {
  }

  lemma TrimmedIsOwn(s: string)
    requires NormalizeQuote(s) == s
    ensures Trim(s) == s && NormalizeQuote(Trim(s)) == s
  {
    hide IsSpace, Trim, Collapse;
    TrimMeaning(Collapse(s));
    if s == "" { NothingNormal(); } else { NoTrim(s); }
  }

  /** Its own place survives exactly when its collapsed context fits there, or fits nowhere. */
  lemma OwnPlaceSurvives(text: string, points: seq<Point>, start: nat, end: nat)
    requires start < end <= |text| == |points| && NormalizeQuote(text[start..end]) == text[start..end]
    ensures var a, own := Captured(text, points, start, end), text[start..end];
            Survives(text, own, a, HeadingIn(points), start) <==>
              InItsContext(text, own, a, start) || forall j: nat :: Occurs(text, own, j) ==> !InItsContext(text, own, a, j)
  {
    hide InItsContext, NormalizeQuote;
  }

  /** The selection of any page gives such a place. */
  lemma SelectionIsPlace(pieces: seq<Piece>, touches: Point -> bool)
    requires GoodPieces(pieces) && Selected(Walk(pieces).points, touches).0 >= 0
    ensures var ix := Walk(pieces);
            var (start, end) := Selected(ix.points, touches);
            0 <= start < end <= |ix.text| == |ix.points| && !ix.points[start].blank && !ix.points[end - 1].blank
  {
    hide Walk, Selected, BlanksStandAlone;
    var ix := Walk(pieces);
    IndexShape(pieces);
    BlanksLength(ix.text, ix.points);
    SelectedMeaning(ix.points, touches);
  }

  // ----- a glyph of white space and a combining mark

  const ACCENT: char := '\U{0301}'
  const HARD_SPACE: char := '\U{00A0}'

  lemma {:induction false} AllGlyphs(pieces: seq<Piece>)
    requires forall p <- pieces :: p.Glyph?
    ensures var ix := Walk(pieces); ix.text == Ink(pieces) && |ix.points| == |ix.text| && !ix.pendingSpace && ix.heading.None?
    ensures forall p <- Walk(pieces).points :: !p.blank && p.heading.None?
  {
    if pieces != [] {
      var n := |pieces| - 1;
      assert pieces[n] in pieces && forall p <- pieces[..n] :: p in pieces;
      AllGlyphs(pieces[..n]);
    }
  }

  lemma ExampleSpaces()
    ensures IsSpace(HARD_SPACE) && IsSpace(' ') && !IsSpace(ACCENT) && !IsSpace('a') && !IsSpace('b') && !IsSpace('q') && !IsSpace('z')
  {
  }

  lemma CollapseHead(c: char, rest: string)
    ensures !IsSpace(c) ==> Collapse([c] + rest) == [c] + Collapse(rest)
    ensures IsSpace(c) && rest != "" && !IsSpace(rest[0]) ==> Collapse([c] + rest) == " " + Collapse(rest)
  {
    hide IsSpace;
    assert ([c] + rest)[1..] == rest;
    if rest != "" && !IsSpace(rest[0]) { NoTrimStart(rest); }
  }

  lemma AccentNormalized()
    ensures var text := "a" + [HARD_SPACE, ACCENT] + "b";
            |text| == 4 && Trim(text) == text && NormalizeQuote(text) == "a" + [' ', ACCENT] + "b" != text
  {
    hide IsSpace, Collapse, Trim;
    var text, quote := "a" + [HARD_SPACE, ACCENT] + "b", "a" + [' ', ACCENT] + "b";
    ExampleSpaces();
    NoTrim(text);
    CollapseLetters([ACCENT] + "b");
    CollapseHead(HARD_SPACE, [ACCENT] + "b");
    CollapseHead('a', [HARD_SPACE] + ([ACCENT] + "b"));
    assert text == ['a'] + ([HARD_SPACE] + ([ACCENT] + "b"));
    assert quote == ['a'] + (" " + ([ACCENT] + "b"));
    NoTrim(quote);
    assert quote[1] == ' ' && text[1] == HARD_SPACE;
  }

  lemma WholeText(text: string, points: seq<Point>)
    requires |text| == |points| && text != ""
    ensures Captured(text, points, 0, |text|).exact == Trim(text)
  {
    assert text[0..|text|] == text;
  }

  lemma OtherTextOfSameLength(text: string, quote: string)
    requires |text| == |quote| && text != quote
    ensures forall k: nat :: !Occurs(text, quote, k)
  {
    assert text[0..|text|] == text;
  }

  /** An accent shown on its own between two letters: the page keeps it, and the captured quote is nowhere. */
  lemma AccentExample()
    ensures var pieces := [Glyph("a"), Glyph([HARD_SPACE, ACCENT]), Glyph("b")];
            var ix := Walk(pieces);
            GoodPieces(pieces) && ix.text == "a" + [HARD_SPACE, ACCENT] + "b" && |ix.points| == 4 &&
            Selected(ix.points, _ => true) == (0, 4) &&
            Locate(ix.text, Captured(ix.text, ix.points, 0, 4), HeadingIn(ix.points)) == Missing
  {
    hide Locate, NormalizeQuote, Trim, Walk, Captured, Occurs, Survives, Ink, Selected;
    var pieces := [Glyph("a"), Glyph([HARD_SPACE, ACCENT]), Glyph("b")];
    AllGlyphs(pieces);
    ExampleInk();
    var ix := Walk(pieces);
    SelectsAll(ix.points);
    AccentNormalized();
    WholeText(ix.text, ix.points);
    OtherTextOfSameLength(ix.text, NormalizeQuote(ix.text));
    LocateMeaning(ix.text, Captured(ix.text, ix.points, 0, 4), HeadingIn(ix.points));
  }

  lemma ExampleInk()
    ensures Ink([Glyph("a"), Glyph([HARD_SPACE, ACCENT]), Glyph("b")]) == "a" + [HARD_SPACE, ACCENT] + "b"
  {
    var pieces := [Glyph("a"), Glyph([HARD_SPACE, ACCENT]), Glyph("b")];
    InkOfOne("a");
    assert pieces[..2] == [Glyph("a"), Glyph([HARD_SPACE, ACCENT])] && pieces[..2][..1] == [Glyph("a")];
  }

  lemma InkOfOne(chars: string)
    ensures Ink([Glyph(chars)]) == chars
  {
    assert [Glyph(chars)][..0] == [] && "" + chars == chars;
  }

  lemma {:induction false} SelectsAll(points: seq<Point>)
    requires forall p <- points :: !p.blank
    ensures Selected(points, _ => true) == if points == [] then (-1, -1) else (0, |points|)
  {
    if points != [] {
      var n := |points| - 1;
      assert points[n] in points && forall p <- points[..n] :: p in points;
      SelectsAll(points[..n]);
    }
  }

  lemma {:induction false} InkConcat(a: seq<Piece>, b: seq<Piece>)
    ensures Ink(a + b) == Ink(a) + Ink(b)
    decreases |b|
  {
    if b == [] {
      assert a + b == a;
    } else {
      var n := |b| - 1;
      assert (a + b)[..|a| + n] == a + b[..n] && (a + b)[|a| + n] == b[n];
      InkConcat(a, b[..n]);
      var last := match b[n] case Glyph(chars) => chars case _ => "";
      assert Ink(a + b) == Ink(a + b[..n]) + last;
      assert Ink(b) == Ink(b[..n]) + last;
      ConcatAssoc(Ink(a), Ink(b[..n]), last);
    }
  }

  function Letters(n: nat): string {
    seq(n, _ => 'z')
  }

  lemma {:induction false} InkOfLetters(n: nat)
    ensures Ink(seq(n, _ => Glyph("z"))) == Letters(n)
  {
    if n > 0 {
      InkOfLetters(n - 1);
      assert seq(n, _ => Glyph("z"))[..n - 1] == seq(n - 1, _ => Glyph("z"));
      assert Letters(n) == Letters(n - 1) + "z";
    }
  }

  /** A white-space glyph with an accent, letters up to the context length, and the quote. */
  function Half(space: char): seq<Piece> {
    [Glyph([space, ACCENT])] + seq(62, _ => Glyph("z")) + [Glyph("q")]
  }

  lemma InkOfHalf(space: char)
    ensures Ink(Half(space)) == [space, ACCENT] + Letters(62) + "q"
  {
    InkConcat([Glyph([space, ACCENT])] + seq(62, _ => Glyph("z")), [Glyph("q")]);
    InkConcat([Glyph([space, ACCENT])], seq(62, _ => Glyph("z")));
    InkOfLetters(62);
    InkOfOne("q");
    InkOfOne([space, ACCENT]);
  }

  lemma {:induction false} CollapseLetters(s: string)
    requires forall c <- s :: !IsSpace(c)
    ensures Collapse(s) == s
  {
    hide IsSpace;
    if s != "" {
      assert s[0] in s && forall c <- s[1..] :: c in s;
      CollapseLetters(s[1..]);
      assert s == [s[0]] + s[1..];
    }
  }

  function Before(space: char): string {
    [space, ACCENT] + Letters(62)
  }

  lemma BothHalves()
    ensures var ix := Walk(Half(' ') + Half(HARD_SPACE));
            ix.text == Before(' ') + "q" + Before(HARD_SPACE) + "q" && |ix.points| == |ix.text| == 130
    ensures forall p <- Walk(Half(' ') + Half(HARD_SPACE)).points :: p.heading.None?
  {
    hide Walk, Ink;
    AllGlyphs(Half(' ') + Half(HARD_SPACE));
    InkConcat(Half(' '), Half(HARD_SPACE));
    InkOfHalf(' ');
    InkOfHalf(HARD_SPACE);
  }

  lemma BeforeCollapses()
    ensures Collapse(Before(HARD_SPACE)) == Before(' ') != Before(HARD_SPACE) && 'q' !in Before(' ') && 'q' !in Before(HARD_SPACE)
  {
    hide IsSpace, Collapse;
    ExampleSpaces();
    CollapseLetters([ACCENT] + Letters(62));
    CollapseHead(HARD_SPACE, [ACCENT] + Letters(62));
    assert Before(HARD_SPACE) == [HARD_SPACE] + ([ACCENT] + Letters(62)) && Before(' ') == [' '] + ([ACCENT] + Letters(62));
    assert Before(HARD_SPACE)[0] == HARD_SPACE && Before(' ')[0] == ' ';
  }

  lemma QuoteIsNormal()
    ensures Trim("q") == "q" && NormalizeQuote("q") == "q" && Collapse("") == ""
  {
    hide IsSpace, Collapse;
    ExampleSpaces();
    NoTrim("q");
    CollapseLetters("q");
    CollapseLetters("");
  }

  lemma CapturedInSecond(text: string, points: seq<Point>, first: string, second: string)
    requires text == first + "q" + second + "q" && |first| == |second| == 64 && |points| == 130
    ensures var a := Captured(text, points, 129, 130);
            text[129..130] == "q" && a.exact == Trim("q") && a.prefix == second && a.suffix == "" && a.heading == points[129].heading
  {
    hide Trim;
    assert text[129..130] == "q" && text[65..129] == second;
  }

  /**
    The same half twice, with a plain and a hard space: the quote captured in the second half is found in the
    first, because only there does its collapsed prefix fit.
  */
  lemma ElsewhereExample()
    ensures var ix := Walk(Half(' ') + Half(HARD_SPACE));
            GoodPieces(Half(' ') + Half(HARD_SPACE)) && |ix.text| == |ix.points| == 130 &&
            ix.text[129..130] == NormalizeQuote(ix.text[129..130]) == "q" &&
            Locate(ix.text, Captured(ix.text, ix.points, 129, 130), HeadingIn(ix.points)) == Found(64, 65)
  {
    hide Locate, Collapse, Trim, NormalizeQuote, Walk, Captured, Survives, Occurs, Before, Half;
    GoodHalves();
    BothHalves();
    BeforeCollapses();
    BeforeLength();
    QuoteIsNormal();
    var ix := Walk(Half(' ') + Half(HARD_SPACE));
    var a := Captured(ix.text, ix.points, 129, 130);
    assert ix.points[129] in ix.points;
    CapturedInSecond(ix.text, ix.points, Before(' '), Before(HARD_SPACE));
    OnlyTwoPlaces(ix.text, Before(' '), Before(HARD_SPACE));
    OneSurvives(ix.text, Before(' '), Before(HARD_SPACE), a, HeadingIn(ix.points));
    LocateMeaning(ix.text, a, HeadingIn(ix.points));
    assert NormalizeQuote(a.exact) == "q" && Survives(ix.text, "q", a, HeadingIn(ix.points), 64);
  }

  lemma GoodHalves()
    ensures GoodPieces(Half(' ') + Half(HARD_SPACE))
  {
  }

  lemma BeforeLength()
    ensures |Before(' ')| == |Before(HARD_SPACE)| == 64
  {
  }

  lemma OnlyTwoPlaces(text: string, first: string, second: string)
    requires text == first + "q" + second + "q" && |first| == |second| == 64 && 'q' !in first && 'q' !in second
    ensures forall k: nat :: Occurs(text, "q", k) <==> k == 64 || k == 129
  {
    forall k: nat ensures Occurs(text, "q", k) <==> k == 64 || k == 129 {
      if k < 64 {
        assert text[k] == first[k] && first[k] in first;
      } else if 64 < k < 129 {
        assert text[k] == second[k - 65] && second[k - 65] in second;
      }
      if k < 130 { assert text[k..k + 1] == [text[k]]; }
    }
  }

  lemma OneSurvives(text: string, first: string, second: string, a: Anchor, headingAt: HeadingAt)
    requires text == first + "q" + second + "q" && |first| == |second| == 64 && first != second
    requires forall k: nat :: Occurs(text, "q", k) <==> k == 64 || k == 129
    requires Collapse(a.prefix) == first && Collapse(a.suffix) == "" && a.heading.None?
    ensures forall k: nat :: Survives(text, "q", a, headingAt, k) <==> k == 64
  {
    hide Collapse, Occurs;
    assert text[..64] == first && text[..64][0..] == first;
    assert text[..129][65..] == second;
    assert InItsContext(text, "q", a, 64) && !InItsContext(text, "q", a, 129);
  }

  // ----- pages whose glyphs hold no white space

  lemma RelocateAt(text: string, points: seq<Point>, start: nat, end: nat)
    requires Tidy(text) && start < end <= |text| == |points| && !IsSpace(text[start]) && !IsSpace(text[end - 1])
    ensures var a := Captured(text, points, start, end);
            Locate(text, a, HeadingIn(points)) ==
            if exists k: nat :: Rival(text, a, HeadingIn(points), start, k) then Ambiguous else Found(start, end)
  {
    hide Tidy, IsSpace, Captured, Locate, Rival, Occurs, ContextFits, HeadingFits, NormalizeQuote, Collapse;
    CapturedFits(text, points, start, end);
    FindsItself(text, Captured(text, points, start, end), HeadingIn(points), start);
  }

  /** There every captured quote is found at its own place exactly when it has no rival, and is otherwise ambiguous. */
  lemma RelocateOnCleanPage(pieces: seq<Piece>, touches: Point -> bool)
    requires CleanPieces(pieces) && Selected(Walk(pieces).points, touches).0 >= 0
    ensures var ix := Walk(pieces);
            var (start, end) := Selected(ix.points, touches);
            0 <= start < end <= |ix.text| == |ix.points| &&
            var a := Captured(ix.text, ix.points, start, end);
            Locate(ix.text, a, HeadingIn(ix.points)) ==
            if exists k: nat :: Rival(ix.text, a, HeadingIn(ix.points), start, k) then Ambiguous else Found(start, end)
  {
    hide Walk, CleanPieces, Tidy, IsSpace, Selected, Captured, Locate, Rival;
    var ix := Walk(pieces);
    var (start, end) := Selected(ix.points, touches);
    IndexIsTidy(pieces);
    SelectedMeaning(ix.points, touches);
    RelocateAt(ix.text, ix.points, start, end);
  }

  lemma FindsItself(text: string, a: Anchor, headingAt: HeadingAt, start: nat)
    requires a.exact != "" && NormalizeQuote(a.exact) == a.exact && Occurs(text, a.exact, start)
    requires Collapse(a.prefix) == a.prefix && Collapse(a.suffix) == a.suffix
    requires ContextFits(text, a.exact, a.prefix, a.suffix, start)
    requires a.heading.Some? ==> HeadingFits(headingAt, a.heading.value, start)
    ensures Locate(text, a, headingAt) ==
            if exists k: nat :: Rival(text, a, headingAt, start, k) then Ambiguous else Found(start, start + |a.exact|)
  {
    hide Occurs, Occurrences, ContextFits, HeadingFits, Keep, NormalizeQuote, Collapse;
    var all, context := Occurrences(text, a.exact, 0), ContextTest(text, a.exact, a.prefix, a.suffix);
    AllOccurrences(text, a.exact, 0);
    KeepMeaning(all, context);
    OnlyOne(all, start);
    AnywhereFits(text, a.exact);
    var some := if |all| > 1 && (a.prefix != "" || a.suffix != "") then Narrow(all, context) else all;
    assert forall k: nat :: k in some <==> k in all && context(k);
    OnlyOne(some, start);
    var left := Survivors(text, a.exact, a, headingAt);
    if a.heading.Some? && a.heading.value != "" {
      var heading := HeadingTest(headingAt, a.heading.value);
      KeepMeaning(some, heading);
      assert heading(start);
      assert forall k: nat :: k in left <==> k in some && heading(k);
    }
    OnlyOne(left, start);
    if k: nat :| Rival(text, a, headingAt, start, k) {
      assert context(k) && k in some && k in left;
    } else {
      forall k | k in left ensures k == start {
        assert context(k) && !Rival(text, a, headingAt, start, k);
      }
    }
  }

  lemma AnywhereFits(text: string, exact: string)
    ensures forall k: nat :: Occurs(text, exact, k) ==> ContextFits(text, exact, "", "", k)
  {
  }
}

/**
  What the normal form, the searchable text and a captured quote are, told without the
  loops that make them: words, gaps between glyphs, and the longest context that fits.
*/
module QuoteMeaning {
  import opened Basics
  import opened WhiteSpace
  import opened TextSplit
  import opened QuoteAnchor

  // ----- the normal form

  /** The maximal runs of characters that are no white space. */
  function Words(s: string): (words: seq<string>)
    ensures s != "" && !IsSpace(s[0]) ==> words != []
  {
    if s == "" then []
    else if IsSpace(s[0]) then Words(s[1..])
    else if |s| == 1 || IsSpace(s[1]) then [[s[0]]] + Words(s[1..])
    else [[s[0]] + Words(s[1..])[0]] + Words(s[1..])[1..]
  }

  predicate IsWord(w: string) {
    w != "" && forall c <- w :: !IsSpace(c)
  }

  lemma {:induction false} WordsAreWords(s: string)
    ensures forall w <- Words(s) :: IsWord(w)
  {
    hide IsSpace;
    if s != "" {
      WordsAreWords(s[1..]);
      if !IsSpace(s[0]) && |s| > 1 && !IsSpace(s[1]) {
        var rest := Words(s[1..]);
        assert rest[0] in rest && forall w <- rest[1..] :: w in rest;
      }
    }
  }

  predicate StartsBlank(s: string) {
    s != "" && IsSpace(s[0])
  }

  predicate EndsBlank(s: string) {
    s != "" && IsSpace(s[|s| - 1])
  }

  /** Words one space apart, with a space for a blank start and end. */
  function Laid(lead: bool, words: seq<string>, trail: bool): string {
    if words == [] then (if lead then " " else "")
    else (if lead then " " else "") + Join(words, ' ') + (if trail then " " else "")
  }

  lemma {:induction false} TrimmedWords(s: string)
    ensures Words(TrimStart(s)) == Words(s) && !StartsBlank(TrimStart(s))
    ensures TrimStart(s) != "" ==> (EndsBlank(TrimStart(s)) <==> EndsBlank(s))
    ensures TrimStart(s) == "" <==> Words(s) == []
    ensures Words(s) == [] && s != "" ==> EndsBlank(s)
  {
    hide IsSpace;
    if s != "" && IsSpace(s[0]) { TrimmedWords(s[1..]); }
  }

  lemma JoinHead(c: char, words: seq<string>)
    requires words != []
    ensures Join([[c] + words[0]] + words[1..], ' ') == [c] + Join(words, ' ')
    ensures Join([[c]] + words, ' ') == [c] + " " + Join(words, ' ')
  {
    hide Join;
    JoinOnto([c] + words[0], words);
    JoinOnto([c], [[c]] + words);
    assert ([[c]] + words)[1..] == words && [[c]] + ([[c]] + words)[1..] == [[c]] + words;
    JoinOnto(words[0], words);
    assert [words[0]] + words[1..] == words;
  }

  /** The first word is replaced. */
  lemma JoinOnto(first: string, words: seq<string>)
    requires words != []
    ensures Join([first] + words[1..], ' ') == first + if |words| == 1 then "" else " " + Join(words[1..], ' ')
  {
    var all := [first] + words[1..];
    assert all[0] == first && all[1..] == words[1..];
    if |words| > 1 { assert Join(all, ' ') == first + [' '] + Join(words[1..], ' '); }
  }

  lemma OneWord(w: string)
    ensures Join([w], ' ') == w
  {
  }

  /** A character in front of laid words begins the first one, or is a word of its own. */
  lemma LaidHead(c: char, lead: bool, words: seq<string>, trail: bool)
    requires lead || words != []
    requires words == [] ==> trail
    ensures [c] + Laid(lead, words, trail) ==
            Laid(false, if lead then [[c]] + words else [[c] + words[0]] + words[1..], trail)
  {
    hide Join;
    if words == [] {
      assert [[c]] + words == [[c]];
      OneWord([c]);
    } else {
      JoinHead(c, words);
    }
  }

  lemma CollapseBlank(s: string)
    requires StartsBlank(s)
    requires var rest := TrimStart(s[1..]); Collapse(rest) == Laid(StartsBlank(rest), Words(rest), EndsBlank(rest))
    ensures Collapse(s) == Laid(true, Words(s), EndsBlank(s))
  {
    hide IsSpace, Join;
    var rest := TrimStart(s[1..]);
    TrimmedWords(s[1..]);
    assert Collapse(s) == " " + Collapse(rest);
    assert Words(s) == Words(rest);
  }

  lemma WordsOfLetter(s: string)
    requires |s| > 1 && !IsSpace(s[0])
    ensures !StartsBlank(s[1..]) ==> Words(s[1..]) != []
    ensures Words(s) == if StartsBlank(s[1..]) then [[s[0]]] + Words(s[1..])
                        else [[s[0]] + Words(s[1..])[0]] + Words(s[1..])[1..]
    ensures Collapse(s) == [s[0]] + Collapse(s[1..])
  {
    hide IsSpace;
  }

  lemma CollapseLetter(s: string)
    requires |s| > 1 && !IsSpace(s[0])
    requires Collapse(s[1..]) == Laid(StartsBlank(s[1..]), Words(s[1..]), EndsBlank(s[1..]))
    ensures Collapse(s) == Laid(false, Words(s), EndsBlank(s))
  {
    hide IsSpace, Laid, Words, Collapse, TrimStart;
    TrimmedWords(s[1..]);
    WordsOfLetter(s);
    LaidHead(s[0], StartsBlank(s[1..]), Words(s[1..]), EndsBlank(s[1..]));
  }

  /** Collapsing keeps the words, one space apart, and one space for blank ends. */
  lemma {:induction false} CollapseMeaning(s: string)
    ensures Collapse(s) == Laid(StartsBlank(s), Words(s), EndsBlank(s))
    decreases |s|
  {
    hide IsSpace, Laid;
    if s == "" {
      LaidOne(' ');
    } else if IsSpace(s[0]) {
      CollapseMeaning(TrimStart(s[1..]));
      CollapseBlank(s);
    } else if |s| == 1 {
      LaidOne(s[0]);
      assert s[1..] == "" && Collapse("") == "" && Words("") == [];
      assert Collapse(s) == [s[0]] && Words(s) == [[s[0]]];
    } else {
      CollapseMeaning(s[1..]);
      CollapseLetter(s);
    }
  }

  lemma LaidOne(c: char)
    ensures Laid(false, [[c]], false) == [c] && Laid(false, [], false) == ""
  {
    OneWord([c]);
  }

  lemma {:induction false} JoinedEnds(words: seq<string>)
    requires words != [] && forall w <- words :: IsWord(w)
    ensures var j := Join(words, ' '); j != "" && !IsSpace(j[0]) && !IsSpace(j[|j| - 1])
  {
    hide IsSpace;
    assert words[0] in words && words[0][0] in words[0] && words[0][|words[0]| - 1] in words[0];
    if |words| > 1 {
      assert forall w <- words[1..] :: w in words;
      JoinedEnds(words[1..]);
    }
  }

  lemma TrimLead(s: string)
    ensures Trim(" " + s) == Trim(s)
  {
    SpaceIsSpace();
    assert (" " + s)[1..] == s;
  }

  lemma TrimTrail(s: string)
    requires s != "" && !IsSpace(s[0]) && !IsSpace(s[|s| - 1])
    ensures Trim(s + " ") == s
  {
    SpaceIsSpace();
    hide IsSpace;
    NoTrimStart(s + " ");
    assert (s + " ")[..|s|] == s;
    assert TrimEnd(s + " ") == TrimEnd(s);
  }

  lemma BlankTrims()
    ensures Trim("") == "" && Trim(" ") == ""
  {
    assert " "[1..] == "";
  }

  lemma TrimLaid(lead: bool, words: seq<string>, trail: bool)
    requires forall w <- words :: IsWord(w)
    ensures Trim(Laid(lead, words, trail)) == Join(words, ' ')
  {
    if words == [] {
      BlankTrims();
    } else {
      hide Join, IsSpace, Trim;
      var j := Join(words, ' ');
      var body := j + if trail then " " else "";
      JoinedEnds(words);
      NoTrim(j);
      TrimTrail(j);
      TrimLead(body);
      assert j + "" == j;
      assert Laid(lead, words, trail) == if lead then " " + body else body;
    }
  }

  /** The normal form of a quote: its words, one space apart. */
  lemma NormalFormMeaning(s: string)
    ensures NormalizeQuote(s) == Join(Words(s), ' ')
  {
    hide Collapse, Words, Join, Laid, Trim;
    CollapseMeaning(s);
    WordsAreWords(s);
    TrimLaid(StartsBlank(s), Words(s), EndsBlank(s));
  }

  // ----- the searchable text

  /** The heading in force at piece `k`. */
  function HeadingBefore(pieces: seq<Piece>, k: nat): Option<string>
    requires k <= |pieces|
  {
    if k == 0 then None
    else if pieces[k - 1].NewHeading? then pieces[k - 1].heading
    else HeadingBefore(pieces, k - 1)
  }

  /** A block edge or white space lies between pieces `a` and `b`. */
  ghost predicate GapBetween(pieces: seq<Piece>, a: int, b: int) {
    exists g :: a < g < b && 0 <= g < |pieces| && pieces[g].Gap?
  }

  /** Every character comes from a glyph, under the heading in force there; a blank goes with the glyph behind it. */
  ghost predicate PointsPlaced(pieces: seq<Piece>, points: seq<Point>) {
    forall i :: 0 <= i < |points| ==> PointPlaced(pieces, points, i)
  }

  ghost predicate PointPlaced(pieces: seq<Piece>, points: seq<Point>, i: nat)
    requires i < |points|
  {
    var p := points[i];
    p.at < |pieces| && pieces[p.at].Glyph? && p.heading == HeadingBefore(pieces, p.at) &&
    (p.blank ==> 0 < i < |points| - 1 && points[i + 1].at == p.at && GapBetween(pieces, points[i - 1].at, p.at)) &&
    (i > 0 && !p.blank && !points[i - 1].blank ==> points[i - 1].at <= p.at && !GapBetween(pieces, points[i - 1].at, p.at))
  }

  lemma {:induction false} HeadingOfPrefix(pieces: seq<Piece>, n: nat, k: nat)
    requires k <= n <= |pieces|
    ensures HeadingBefore(pieces[..n], k) == HeadingBefore(pieces, k)
  {
    if k > 0 { HeadingOfPrefix(pieces, n, k - 1); }
  }

  lemma GapOfPrefix(pieces: seq<Piece>, n: nat, a: int, b: int)
    requires n <= |pieces| && b <= n
    ensures GapBetween(pieces[..n], a, b) <==> GapBetween(pieces, a, b)
  {
    if g :| a < g < b && 0 <= g < |pieces| && pieces[g].Gap? { assert pieces[..n][g].Gap?; }
    if g :| a < g < b && 0 <= g < |pieces[..n]| && pieces[..n][g].Gap? { assert pieces[g].Gap?; }
  }

  /** The points of the walk so far stay placed when a piece follows. */
  lemma PlacedFurther(pieces: seq<Piece>, points: seq<Point>, more: seq<Point>, i: nat)
    requires pieces != [] && i < |points| && PointPlaced(pieces[..|pieces| - 1], points, i)
    requires i + 1 < |points| || !points[i].blank
    ensures PointPlaced(pieces, points + more, i)
  {
    hide HeadingBefore, GapBetween;
    var n := |pieces| - 1;
    HeadingOfPrefix(pieces, n, points[i].at);
    if i > 0 { GapOfPrefix(pieces, n, points[i - 1].at, points[i].at); }
    assert forall j :: 0 <= j < |points| ==> (points + more)[j] == points[j];
  }

  /** What the walk knows: the heading in force, and whether a gap lies behind the last character. */
  ghost predicate WalkKnows(pieces: seq<Piece>, ix: Index) {
    ix.heading == HeadingBefore(pieces, |pieces|) && |ix.text| == |ix.points| &&
    (ix.text != "" ==>
       !ix.points[|ix.points| - 1].blank && ix.points[|ix.points| - 1].at < |pieces| &&
       (ix.pendingSpace <==> GapBetween(pieces, ix.points[|ix.points| - 1].at, |pieces|)))
  }

  lemma GapGrows(pieces: seq<Piece>, a: int)
    requires pieces != [] && a < |pieces| - 1
    ensures GapBetween(pieces, a, |pieces|) <==>
              pieces[|pieces| - 1].Gap? || GapBetween(pieces[..|pieces| - 1], a, |pieces| - 1)
  {
    var n := |pieces| - 1;
    GapOfPrefix(pieces, n, a, n);
    if g :| a < g < |pieces| && 0 <= g < |pieces| && pieces[g].Gap? {
      if g < n { assert GapBetween(pieces, a, n); }
    }
    if pieces[n].Gap? { assert GapBetween(pieces, a, |pieces|); }
    if g :| a < g < n && 0 <= g < |pieces| && pieces[g].Gap? { assert GapBetween(pieces, a, |pieces|); }
  }

  lemma NoGapInside(pieces: seq<Piece>, a: int)
    ensures !GapBetween(pieces, a, a) && !GapBetween(pieces, a, a + 1)
  {
  }

  /** A glyph's characters, with the blank in front of them if a gap went before. */
  lemma GlyphPlaced(pieces: seq<Piece>, ix: Index, i: nat)
    requires pieces != [] && pieces[|pieces| - 1].Glyph? && pieces[|pieces| - 1].chars != ""
    requires WalkKnows(pieces[..|pieces| - 1], ix) && PointsPlaced(pieces[..|pieces| - 1], ix.points)
    requires var n := |pieces| - 1;
             var gap := if ix.pendingSpace && ix.text != "" then [Point(n, true, ix.heading)] else [];
             i < |ix.points + gap + GlyphPoints(|pieces[n].chars|, n, ix.heading)|
    ensures var n := |pieces| - 1;
            var gap := if ix.pendingSpace && ix.text != "" then [Point(n, true, ix.heading)] else [];
            PointPlaced(pieces, ix.points + gap + GlyphPoints(|pieces[n].chars|, n, ix.heading), i)
  {
    hide HeadingBefore, GapBetween;
    var n := |pieces| - 1;
    var gap := if ix.pendingSpace && ix.text != "" then [Point(n, true, ix.heading)] else [];
    var more := GlyphPoints(|pieces[n].chars|, n, ix.heading);
    var all := ix.points + gap + more;
    var edge := |ix.points|;
    HeadingOfPrefix(pieces, n, n);
    assert forall j :: edge + |gap| <= j < |all| ==> all[j] == more[j - edge - |gap|] && more[j - edge - |gap|] in more;
    if i < edge {
      assert PointPlaced(pieces[..n], ix.points, i);
      PlacedFurther(pieces, ix.points, gap + more, i);
      assert ix.points + (gap + more) == all;
    } else {
      NoGapInside(pieces, n);
      if edge > 0 { GapOfPrefix(pieces, n, ix.points[edge - 1].at, n); }
    }
  }

  /**
    Between two characters of glyphs there is a blank exactly where a gap lies between their glyphs, and every
    character carries the heading in force at its glyph.
  */
  lemma {:induction false} IndexMeaning(pieces: seq<Piece>)
    requires GoodPieces(pieces)
    ensures WalkKnows(pieces, Walk(pieces)) && PointsPlaced(pieces, Walk(pieces).points)
  {
    hide HeadingBefore, GapBetween, PointPlaced, WalkKnows;
    if pieces == [] {
      NothingKnown();
    } else {
      var n := |pieces| - 1;
      assert pieces[n] in pieces && forall p <- pieces[..n] :: p in pieces;
      IndexMeaning(pieces[..n]);
      var ix, now := Walk(pieces[..n]), Walk(pieces);
      KnowsMore(pieces);
      if pieces[n].Glyph? {
        forall i: nat | i < |now.points| ensures PointPlaced(pieces, now.points, i) { GlyphPlaced(pieces, ix, i); }
      } else {
        forall i: nat | i < |now.points| ensures PointPlaced(pieces, now.points, i) {
          LastIsGlyph(pieces[..n], ix);
          PlacedFurther(pieces, ix.points, [], i);
          assert ix.points + [] == ix.points;
        }
      }
    }
  }

  lemma NothingKnown()
    ensures WalkKnows([], Walk([])) && PointsPlaced([], [])
  {
  }

  lemma LastIsGlyph(pieces: seq<Piece>, ix: Index)
    requires WalkKnows(pieces, ix) && ix.points != []
    ensures !ix.points[|ix.points| - 1].blank
  {
  }

  /** The walk ends in the last character of a glyph. */
  lemma GlyphEnds(count: nat, n: nat, heading: Option<string>, before: seq<Point>)
    requires count > 0
    ensures var p := before + GlyphPoints(count, n, heading);
            |p| == |before| + count && p[|p| - 1].at == n && !p[|p| - 1].blank
  {
  }

  lemma KnowsGlyph(pieces: seq<Piece>)
    requires pieces != [] && pieces[|pieces| - 1].Glyph? && pieces[|pieces| - 1].chars != ""
    requires WalkKnows(pieces[..|pieces| - 1], Walk(pieces[..|pieces| - 1]))
    ensures WalkKnows(pieces, Walk(pieces))
  {
    hide GapBetween, GlyphPoints;
    var n := |pieces| - 1;
    var ix := Walk(pieces[..n]);
    HeadingOfPrefix(pieces, n, n);
    NoGapInside(pieces, n);
    GlyphEnds(|pieces[n].chars|, n, ix.heading, ix.points);
    GlyphEnds(|pieces[n].chars|, n, ix.heading, ix.points + [Point(n, true, ix.heading)]);
    assert ix.points + [] == ix.points;
  }

  lemma HeadingGrows(pieces: seq<Piece>)
    requires pieces != []
    ensures HeadingBefore(pieces, |pieces|) ==
            match pieces[|pieces| - 1] case NewHeading(h) => h case _ => HeadingBefore(pieces[..|pieces| - 1], |pieces| - 1)
  {
    HeadingOfPrefix(pieces, |pieces| - 1, |pieces| - 1);
  }

  lemma WalkOverGap(pieces: seq<Piece>)
    requires pieces != [] && !pieces[|pieces| - 1].Glyph?
    ensures var ix := Walk(pieces[..|pieces| - 1]);
            Walk(pieces) ==
            match pieces[|pieces| - 1] case NewHeading(h) => ix.(heading := h) case _ => ix.(pendingSpace := ix.text != "")
  {
  }

  lemma KnowsGap(pieces: seq<Piece>)
    requires pieces != [] && !pieces[|pieces| - 1].Glyph?
    requires WalkKnows(pieces[..|pieces| - 1], Walk(pieces[..|pieces| - 1]))
    ensures WalkKnows(pieces, Walk(pieces))
  {
    hide GapBetween, HeadingBefore, Walk;
    var ix := Walk(pieces[..|pieces| - 1]);
    HeadingGrows(pieces);
    WalkOverGap(pieces);
    if ix.text != "" { GapGrows(pieces, ix.points[|ix.points| - 1].at); }
  }

  lemma KnowsMore(pieces: seq<Piece>)
    requires pieces != [] && GoodPieces(pieces) && WalkKnows(pieces[..|pieces| - 1], Walk(pieces[..|pieces| - 1]))
    ensures WalkKnows(pieces, Walk(pieces))
  {
    hide Walk, WalkKnows;
    assert pieces[|pieces| - 1] in pieces;
    if pieces[|pieces| - 1].Glyph? { KnowsGlyph(pieces); } else { KnowsGap(pieces); }
  }

  // ----- the captured context

  /** `a` is the longest piece of at most 64 characters at the end of `s`. */
  ghost predicate LongestEnd(a: string, s: string) {
    EndsWith(s, a) && |a| <= 64 && forall b :: EndsWith(s, b) && |b| <= 64 ==> |b| <= |a|
  }

  ghost predicate LongestStart(a: string, s: string) {
    a <= s && |a| <= 64 && forall b :: b <= s && |b| <= 64 ==> |b| <= |a|
  }

  /** A captured quote carries the longest context of 64 characters on either side, its heading and its place. */
  lemma CapturedMeaning(text: string, points: seq<Point>, start: nat, end: nat)
    requires start < end <= |text| == |points|
    ensures var a := Captured(text, points, start, end);
            a.exact == Trim(text[start..end]) && a.offset == start && a.heading == points[start].heading &&
            LongestEnd(a.prefix, text[..start]) && LongestStart(a.suffix, text[end..])
  {
    var a := Captured(text, points, start, end);
    var before, after := if start < 64 then 0 else start - 64, if end + 64 < |text| then end + 64 else |text|;
    assert text[..start][before..] == a.prefix;
    assert text[end..][..after - end] == a.suffix;
  }
}

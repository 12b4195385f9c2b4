/**
  The characters of an image tag: what an attribute is, how a text divides into
  attributes, and where a tag ends, told without the loops that find out.
*/
module ImageGrammar {
  import opened Basics
  import opened WhiteSpace
  import opened AttributeText
  import opened ImageAttributes
  import opened SourceImage

  /** `s[a..b]` is the longest stretch from `a` on whose characters pass the test. */
  ghost predicate IsRun(s: string, a: nat, b: nat, test: char -> bool) {
    a <= b <= |s| && (forall i :: a <= i < b ==> test(s[i])) && (b < |s| ==> !test(s[b]))
  }

  lemma RunContains(s: string, a: nat, b: nat, test: char -> bool)
    requires a <= |s| && a <= b < a + Run(s[a..], test)
    ensures b < |s| && test(s[b])
  {
    assert s[a..][b - a] == s[b];
  }

  lemma RunIsRun(s: string, a: nat, test: char -> bool)
    requires a <= |s|
    ensures IsRun(s, a, a + Run(s[a..], test), test)
    ensures forall b: nat :: IsRun(s, a, b, test) ==> b == a + Run(s[a..], test)
  {
    var n := Run(s[a..], test);
    assert forall i :: a <= i < a + n ==> s[i] == s[a..][i - a];
    forall b: nat | IsRun(s, a, b, test) ensures b == a + n {
      if b < a + n { RunContains(s, a, b, test); }
    }
  }

  // ----- one attribute

  /** White space, an equals sign, slashes, quotes, angle brackets and backticks end a name. */
  function NameChar(): char -> bool {
    (c: char) => !IsSpace(c) && c != '=' && c != '/' && c != '\'' && c != '"' && c != '<' && c != '>' && c != '`'
  }

  function Space(): char -> bool {
    (c: char) => IsSpace(c)
  }

  function NoSpace(): char -> bool {
    (c: char) => !IsSpace(c)
  }

  predicate IsQuote(c: char) {
    c == '"' || c == '\''
  }

  /** From `v` on: a quoted value, or an unquoted one up to white space. */
  ghost predicate ValueShape(s: string, name: string, v: nat, t: Token) {
    if v < |s| && (s[v] == '"' || s[v] == '\'') then
      exists c :: v < c < |s| && s[c] == s[v] && s[v] !in s[v + 1..c] && t == Token(c + 1, name, s[v + 1..c], Quoted)
    else exists c: nat :: IsRun(s, v, c, NoSpace()) && t == Token(c, name, s[v..c], Unquoted)
  }

  /** A name, and behind it white space and nothing else of the attribute, or an equals sign and a value. */
  ghost predicate TokenShape(p: Platform, s: string, t: Token) {
    exists n: nat, e: nat ::
      0 < n && IsRun(s, 0, n, NameChar()) && IsRun(s, n, e, Space()) &&
      if e < |s| && s[e] == '=' then exists v: nat :: IsRun(s, e + 1, v, Space()) && ValueShape(s, p.lower(s[..n]), v, t)
      else t == Token(e, p.lower(s[..n]), "", Bare)
  }

  lemma {:induction false} SameRun(s: string, f: char -> bool, g: char -> bool)
    requires forall c :: f(c) == g(c)
    ensures Run(s, f) == Run(s, g)
  {
    if s != "" && f(s[0]) { SameRun(s[1..], f, g); }
  }

  lemma FirstOf(s: string, v: nat, c: nat, quote: char)
    requires v < c < |s| && s[c] == quote && quote !in s[v + 1..c] && (quote == '"' || quote == '\'')
    ensures Run(s[v + 1..], Until(quote)) == c - v - 1
  {
    var a, b := s[v + 1..c], s[c..];
    assert s[v + 1..] == a + b;
    RunOf(a, b, Until(quote));
  }

  lemma NoQuoteBefore(s: string, v: nat, m: nat)
    requires v + 1 + m < |s| && (s[v] == '"' || s[v] == '\'') && m == Run(s[v + 1..], Until(s[v]))
    ensures s[v + 1 + m] == s[v] && s[v] !in s[v + 1..v + 1 + m]
  {
    var behind := s[v + 1..];
    assert behind[m] == s[v + 1 + m] && behind[..m] == s[v + 1..v + 1 + m];
    assert forall i :: 0 <= i < m ==> behind[..m][i] == behind[i];
  }

  lemma QuotedExactly(s: string, name: string, v: nat, t: Token)
    requires 0 < v < |s| && IsQuote(s[v])
    ensures ValueToken(s, name, v) == Some(t) <==> ValueShape(s, name, v, t)
  {
    hide IsSpace, Run;
    var m := Run(s[v + 1..], Until(s[v]));
    forall c | v < c < |s| && s[c] == s[v] && s[v] !in s[v + 1..c] ensures m == c - v - 1 { FirstOf(s, v, c, s[v]); }
    if v + 1 + m < |s| { NoQuoteBefore(s, v, m); }
  }

  lemma UnquotedExactly(s: string, name: string, v: nat, t: Token)
    requires 0 < v <= |s| && (v < |s| ==> !IsQuote(s[v]))
    ensures ValueToken(s, name, v) == Some(t) <==> ValueShape(s, name, v, t)
  {
    hide IsSpace, IsRun, Run;
    SameRun(s[v..], IsValueChar, NoSpace());
    RunIsRun(s, v, NoSpace());
  }

  lemma ValueExactly(s: string, name: string, v: nat, t: Token)
    requires 0 < v <= |s|
    ensures ValueToken(s, name, v) == Some(t) <==> ValueShape(s, name, v, t)
  {
    hide ValueToken, ValueShape;
    if v < |s| && IsQuote(s[v]) { QuotedExactly(s, name, v, t); } else { UnquotedExactly(s, name, v, t); }
  }

  lemma NamesAreRuns(s: string)
    ensures IsRun(s, 0, Run(s, IsNameChar), NameChar())
    ensures forall n: nat :: IsRun(s, 0, n, NameChar()) ==> n == Run(s, IsNameChar)
  {
    hide IsSpace;
    SameRun(s, IsNameChar, NameChar());
    RunIsRun(s, 0, NameChar());
    assert s[0..] == s;
  }

  lemma SpacesAreRuns(s: string, a: nat)
    requires a <= |s|
    ensures IsRun(s, a, a + Run(s[a..], IsSpace), Space())
    ensures forall b: nat :: IsRun(s, a, b, Space()) ==> b == a + Run(s[a..], IsSpace)
  {
    SameRun(s[a..], IsSpace, Space());
    RunIsRun(s, a, Space());
  }

  /** The parser reads an attribute at the start of `s` exactly when the characters have the shape of one. */
  lemma TokenExactly(p: Platform, s: string, t: Token)
    ensures FirstToken(p, s) == Some(t) <==> TokenShape(p, s, t)
  {
    hide IsSpace, ValueToken, ValueShape, IsRun, Run;
    var n := Run(s, IsNameChar);
    var e := EqualsAt(s);
    NamesAreRuns(s);
    SpacesAreRuns(s, n);
    NameEnds(s);
    if e < |s| && s[e] == '=' {
      SpacesAreRuns(s, e + 1);
      ValueBegins(s);
      ValueExactly(s, p.lower(s[..n]), ValueStart(s), t);
    }
  }

  // ----- all attributes

  lemma TokenStartsPlain(p: Platform, s: string, t: Token)
    requires TokenShape(p, s, t)
    ensures s != "" && !IsSpace(s[0]) && 0 < t.length <= |s|
  {
    TokenExactly(p, s, t);
    hide IsSpace, ValueShape;
    var n: nat, e: nat :| 0 < n && IsRun(s, 0, n, NameChar()) && IsRun(s, n, e, Space());
    assert NameChar()(s[0]);
  }

  /** `s`, at offset `at`, begins with `w` white spaces and then the attribute `part`. */
  ghost predicate FirstPart(p: Platform, s: string, at: nat, part: Part, w: nat, t: Token) {
    w + t.length <= |s| && (forall i :: 0 <= i < w ==> IsSpace(s[i])) && TokenShape(p, s[w..], t) &&
    part == Part(at + w, at + w + t.length, t.name, Decode(p.resolve, t.raw))
  }

  /** The parts are the attributes of `s` in their places, with white space and nothing else between and behind them. */
  ghost predicate Tiles(p: Platform, s: string, at: nat, parts: seq<Part>)
    decreases |parts|
  {
    if parts == [] then forall i :: 0 <= i < |s| ==> IsSpace(s[i])
    else
      exists w: nat, t: Token ::
        w + t.length <= |s| && FirstPart(p, s, at, parts[0], w, t) && Tiles(p, s[w + t.length..], at + w + t.length, parts[1..])
  }

  lemma FirstPartShifts(p: Platform, s: string, at: nat, part: Part, w: nat, t: Token)
    requires s != "" && IsSpace(s[0]) && FirstPart(p, s, at, part, w, t)
    ensures w > 0 && FirstPart(p, s[1..], at + 1, part, w - 1, t) && s[1..][w - 1 + t.length..] == s[w + t.length..]
  {
    hide IsSpace, TokenShape, Decode;
    TokenStartsPlain(p, s[w..], t);
    assert s[0..] == s;
    assert s[1..][w - 1..] == s[w..];
    assert forall i :: 0 <= i < w - 1 ==> s[1..][i] == s[i + 1];
  }

  lemma FirstPartUnshifts(p: Platform, s: string, at: nat, part: Part, w: nat, t: Token)
    requires s != "" && IsSpace(s[0]) && FirstPart(p, s[1..], at + 1, part, w, t)
    ensures FirstPart(p, s, at, part, w + 1, t) && s[1..][w + t.length..] == s[w + 1 + t.length..]
  {
    hide IsSpace, TokenShape, Decode;
    assert s[1..][w..] == s[w + 1..];
    forall i | 0 <= i < w + 1 ensures IsSpace(s[i]) {
      if i > 0 { assert s[1..][i - 1] == s[i]; }
    }
  }

  lemma TilesSpace(p: Platform, s: string, at: nat, parts: seq<Part>)
    requires s != "" && IsSpace(s[0])
    ensures Tiles(p, s, at, parts) <==> Tiles(p, s[1..], at + 1, parts)
  {
    hide IsSpace, FirstPart;
    if parts == [] {
      assert forall i :: 0 < i < |s| ==> s[i] == s[1..][i - 1];
      assert forall i :: 0 <= i < |s| - 1 ==> s[1..][i] == s[i + 1];
    } else {
      if Tiles(p, s, at, parts) { TilesBehindSpace(p, s, at, parts); }
      if Tiles(p, s[1..], at + 1, parts) { TilesWithSpace(p, s, at, parts); }
    }
  }

  lemma TilesBehindSpace(p: Platform, s: string, at: nat, parts: seq<Part>)
    requires s != "" && IsSpace(s[0]) && parts != [] && Tiles(p, s, at, parts)
    ensures Tiles(p, s[1..], at + 1, parts)
  {
    hide IsSpace, FirstPart;
    var w: nat, t: Token :| w + t.length <= |s| && FirstPart(p, s, at, parts[0], w, t) &&
                     Tiles(p, s[w + t.length..], at + w + t.length, parts[1..]);
    FirstPartShifts(p, s, at, parts[0], w, t);
  }

  lemma TilesWithSpace(p: Platform, s: string, at: nat, parts: seq<Part>)
    requires s != "" && IsSpace(s[0]) && parts != [] && Tiles(p, s[1..], at + 1, parts)
    ensures Tiles(p, s, at, parts)
  {
    hide IsSpace, FirstPart;
    var w: nat, t: Token :| w + t.length <= |s[1..]| && FirstPart(p, s[1..], at + 1, parts[0], w, t) &&
                     Tiles(p, s[1..][w + t.length..], at + 1 + w + t.length, parts[1..]);
    FirstPartUnshifts(p, s, at, parts[0], w, t);
  }

  lemma TokenTiles(p: Platform, s: string, at: nat, parts: seq<Part>, t: Token)
    requires FirstToken(p, s) == Some(t) && parts != []
    requires parts[0] == Part(at, at + t.length, t.name, Decode(p.resolve, t.raw))
    requires Tiles(p, s[t.length..], at + t.length, parts[1..])
    ensures Tiles(p, s, at, parts)
  {
    hide IsSpace, TokenShape, FirstToken, Decode;
    TokenExactly(p, s, t);
    var w: nat := 0;
    assert s[w..] == s && s[w + t.length..] == s[t.length..];
    assert w + t.length <= |s| && FirstPart(p, s, at, parts[0], w, t);
  }

  /** Where no white space stands in front, the first part is the attribute that `s` starts with. */
  lemma TilesToken(p: Platform, s: string, at: nat, parts: seq<Part>)
    requires s != "" && !IsSpace(s[0])
    ensures Tiles(p, s, at, parts) <==>
              FirstToken(p, s).Some? && parts != [] &&
              var t := FirstToken(p, s).value;
              parts[0] == Part(at, at + t.length, t.name, Decode(p.resolve, t.raw)) &&
              Tiles(p, s[t.length..], at + t.length, parts[1..])
  {
    hide IsSpace, TokenShape, FirstToken, Decode;
    assert s[0..] == s;
    if Tiles(p, s, at, parts) {
      var w: nat, t: Token :| w + t.length <= |s| && FirstPart(p, s, at, parts[0], w, t) &&
                              Tiles(p, s[w + t.length..], at + w + t.length, parts[1..]);
      TokenExactly(p, s, t);
    } else if FirstToken(p, s).Some? && parts != [] {
      var t := FirstToken(p, s).value;
      if parts[0] == Part(at, at + t.length, t.name, Decode(p.resolve, t.raw)) && Tiles(p, s[t.length..], at + t.length, parts[1..]) {
        TokenTiles(p, s, at, parts, t);
      }
    }
  }

  lemma NothingTiles(p: Platform, at: nat, parts: seq<Part>)
    ensures Tiles(p, "", at, parts) <==> parts == []
  {
    hide IsSpace, TokenShape;
    if parts != [] && Tiles(p, "", at, parts) {
      var w: nat, t: Token :| w + t.length <= 0 && FirstPart(p, "", at, parts[0], w, t);
      TokenStartsPlain(p, ""[w..], t);
    }
  }

  /** The parser gives these parts exactly when they tile the text; it gives up where none do. */
  lemma {:induction false} PartsExactly(p: Platform, s: string, at: nat, parts: seq<Part>)
    ensures Parts(p, s, at) == Some(parts) <==> Tiles(p, s, at, parts)
    decreases |s|
  {
    hide IsSpace, TokenShape, FirstToken, Decode, Tiles;
    if s == "" {
      NothingTiles(p, at, parts);
    } else if IsSpace(s[0]) {
      TilesSpace(p, s, at, parts);
      PartsExactly(p, s[1..], at + 1, parts);
    } else {
      TilesToken(p, s, at, parts);
      if FirstToken(p, s).Some? && parts != [] {
        var t := FirstToken(p, s).value;
        PartsExactly(p, s[t.length..], at + t.length, parts[1..]);
        assert parts == [parts[0]] + parts[1..];
      }
    }
  }

  // ----- the end of a tag

  predicate Plain(s: string) {
    forall c <- s :: !IsQuote(c) && c != '>'
  }

  /** Plain text and whole quoted strings; a quoted string may hold the other quote and closing brackets. */
  ghost predicate Balanced(s: string)
    decreases |s|
  {
    Plain(s) ||
    exists i, j ::
      0 <= i < j < |s| && Plain(s[..i]) && IsQuote(s[i]) && s[j] == s[i] && s[i] !in s[i + 1..j] && Balanced(s[j + 1..])
  }

  lemma {:induction false} FirstQuote(s: string) returns (i: nat)
    ensures i <= |s| && (forall c <- s[..i] :: !IsQuote(c)) && (i < |s| ==> IsQuote(s[i]))
  {
    i := 0;
    if s != "" && !IsQuote(s[0]) {
      var j := FirstQuote(s[1..]);
      i := j + 1;
      assert s[..i] == [s[0]] + s[1..][..j];
    }
  }

  lemma {:induction false} FirstChar(s: string, q: char) returns (i: nat)
    ensures i <= |s| && q !in s[..i] && (i < |s| ==> s[i] == q)
  {
    i := 0;
    if s != "" && s[0] != q {
      var j := FirstChar(s[1..], q);
      i := j + 1;
      assert s[..i] == [s[0]] + s[1..][..j];
    }
  }

  /** Plain text that the scan passes holds no closing bracket. */
  lemma {:induction false} BracketEnds(s: string)
    requires (forall c <- s :: !IsQuote(c)) && TagEnd(s, None).None?
    ensures Plain(s)
  {
    if s != "" {
      assert s[0] in s && forall c <- s[1..] :: c in s;
      BracketEnds(s[1..]);
      assert s == [s[0]] + s[1..];
    }
  }

  lemma StretchIsClosed(s: string, i: nat, j: nat)
    requires i < j < |s| && Plain(s[..i]) && IsQuote(s[i]) && s[j] == s[i] && s[i] !in s[i + 1..j]
    ensures Closed(s[..j + 1])
  {
    OneStretch(s[..i], s[i], s[i + 1..j]);
    assert s[..j + 1] == s[..i] + ([s[i]] + s[i + 1..j] + [s[i]]);
  }

  lemma ClosedFurther(s: string, i: nat, j: nat)
    requires i < j < |s| && Plain(s[..i]) && IsQuote(s[i]) && s[j] == s[i] && s[i] !in s[i + 1..j]
    ensures Closed(s) <==> Closed(s[j + 1..])
  {
    hide Closed;
    StretchIsClosed(s, i, j);
    ClosedConcat(s[..j + 1], s[j + 1..]);
    assert s == s[..j + 1] + s[j + 1..];
  }

  lemma {:induction false} BalancedIsClosed(s: string)
    requires Balanced(s)
    ensures Closed(s)
    decreases |s|
  {
    hide Closed;
    if Plain(s) {
      PlainIsClosed(s);
    } else {
      hide Plain, IsQuote;
      var i, j :| 0 <= i < j < |s| && Plain(s[..i]) && IsQuote(s[i]) && s[j] == s[i] && s[i] !in s[i + 1..j] && Balanced(s[j + 1..]);
      ClosedFurther(s, i, j);
      BalancedIsClosed(s[j + 1..]);
    }
  }

  lemma ClosedBefore(a: string, b: string)
    requires TagEnd(a + b, None).None?
    ensures TagEnd(a, None).None?
  {
    TagEndConcat(a, b, None);
  }

  lemma OpenQuote(a: string, q: char, b: string)
    requires Plain(a) && IsQuote(q) && q !in b
    ensures QuoteAfter(a + ([q] + b), None).Some?
  {
    PlainIsClosed(a);
    TagEndConcat(a, [q] + b, None);
    InsideQuotes(b, q);
    assert ([q] + b)[1..] == b;
  }

  lemma {:induction false} ClosedIsBalanced(s: string)
    requires Closed(s)
    ensures Balanced(s)
    decreases |s|
  {
    var i := FirstQuote(s);
    assert s == s[..i] + s[i..];
    ClosedBefore(s[..i], s[i..]);
    BracketEnds(s[..i]);
    if i == |s| {
      assert s[..i] == s;
    } else {
      var q, rest := s[i], s[i + 1..];
      var k := FirstChar(rest, q);
      var j := i + 1 + k;
      if k == |rest| {
        assert rest[..k] == rest && s == s[..i] + ([q] + rest);
        OpenQuote(s[..i], q, rest);
        assert false;
      } else {
        assert rest[..k] == s[i + 1..j] && rest[k] == s[j];
        ClosedFurther(s, i, j);
        ClosedIsBalanced(s[j + 1..]);
      }
    }
  }

  /** A tag ends with the first closing bracket that plain text and whole quoted strings leave outside. */
  lemma TagEndExactly(s: string, n: nat)
    ensures TagEnd(s, None) == Some(n) <==> n < |s| && s[n] == '>' && Balanced(s[..n])
  {
    hide Balanced;
    if n < |s| && s[n] == '>' {
      TagEndConcat(s[..n], s[n..], None);
      assert s == s[..n] + s[n..] && s[n..][0] == '>';
      if Balanced(s[..n]) { BalancedIsClosed(s[..n]); }
      if TagEnd(s, None) == Some(n) {
        EndIsOutside(s, None);
        ClosedIsBalanced(s[..n]);
      }
    }
  }

  /** `raw` is `<img`, white space, and a balanced text up to its closing bracket. */
  ghost predicate IsTag(raw: string) {
    |raw| >= 6 && raw[0] == '<' && raw[1] in "iI" && raw[2] in "mM" && raw[3] in "gG" && IsSpace(raw[4]) &&
    raw[|raw| - 1] == '>' && Balanced(raw[4..|raw| - 1])
  }

  lemma TailSlices(source: string, from: nat, n: nat)
    requires from + 4 + n < |source|
    ensures var raw, tail := source[from..from + n + 5], source[from + 4..];
            tail[..n] == raw[4..|raw| - 1] && tail[n] == raw[|raw| - 1] && |raw| == n + 5 &&
            raw[0] == source[from] && raw[1] == source[from + 1] && raw[2] == source[from + 2] && raw[3] == source[from + 3] &&
            raw[4] == source[from + 4]
  {
    var raw, tail := source[from..from + n + 5], source[from + 4..];
    assert forall i :: 0 <= i < n ==> tail[..n][i] == raw[4..|raw| - 1][i];
  }

  lemma EndsPlainly(raw: string)
    requires |raw| >= 6 && raw[|raw| - 1] == '>'
    ensures AttributesEnd(raw) == if raw[|raw| - 2] == '/' then |raw| - 2 else |raw| - 1
  {
    assert raw[|raw| - 2..] == [raw[|raw| - 2], raw[|raw| - 1]];
  }

  lemma TagStarts(source: string, from: nat, n: nat)
    requires from + 4 + n < |source|
    ensures StartsImage(source, from) && TagEnd(source[from + 4..], None) == Some(n) <==> IsTag(source[from..from + n + 5])
  {
    hide Balanced;
    TailSlices(source, from, n);
    TagEndExactly(source[from + 4..], n);
    if IsTag(source[from..from + n + 5]) { assert n >= 1; }
    if StartsImage(source, from) && TagEnd(source[from + 4..], None) == Some(n) { TagIsLong(source, from, n); }
  }

  lemma ParsedImage(p: Platform, source: string, from: nat)
    requires ParseHtmlImage(p, source, from).Some?
    ensures var image := ParseHtmlImage(p, source, from).value;
            from + |image.raw| <= |source| && image.raw == source[from..from + |image.raw|] && image.from == from &&
            |image.raw| >= 6 && IsTag(image.raw) &&
            image.end == (if image.raw[|image.raw| - 2] == '/' then |image.raw| - 2 else |image.raw| - 1) &&
            Tiles(p, image.raw[4..image.end], 4, image.parts)
  {
    hide Parts, Tiles, TagEnd, IsTag, AttributesEnd, IsSpace;
    var image := ParseHtmlImage(p, source, from).value;
    var n := TagEnd(source[from + 4..], None).value;
    TagIsLong(source, from, n);
    TagStarts(source, from, n);
    TagCloses(image.raw);
    EndsPlainly(image.raw);
    PartsExactly(p, image.raw[4..image.end], 4, image.parts);
  }

  lemma TagCloses(raw: string)
    requires IsTag(raw)
    ensures |raw| >= 6 && raw[|raw| - 1] == '>'
  {
  }

  lemma ShapedImage(p: Platform, source: string, from: nat, n: nat, end: nat, parts: seq<Part>)
    requires from + 4 + n < |source| && IsTag(source[from..from + n + 5])
    requires var raw := source[from..from + n + 5];
             |raw| == n + 5 >= 6 && end == (if raw[|raw| - 2] == '/' then |raw| - 2 else |raw| - 1) &&
             4 <= end <= |raw| && Tiles(p, raw[4..end], 4, parts)
    ensures ParseHtmlImage(p, source, from) == Some(Image(from, source[from..from + n + 5], end, parts))
  {
    var raw := source[from..from + n + 5];
    TagCloses(raw);
    hide Parts, Tiles, TagEnd, StartsImage, IsTag, AttributesEnd, ParseHtmlImage;
    TagStarts(source, from, n);
    EndsPlainly(raw);
    PartsExactly(p, raw[4..end], 4, parts);
    ParseOf(p, source, from, n, parts);
  }

  lemma ParseOf(p: Platform, source: string, from: nat, n: nat, parts: seq<Part>)
    requires from + 4 + n < |source| && StartsImage(source, from) && TagEnd(source[from + 4..], None) == Some(n)
    ensures var raw := source[from..from + n + 5];
            4 <= AttributesEnd(raw) &&
            (Parts(p, raw[4..AttributesEnd(raw)], 4) == Some(parts) ==>
               ParseHtmlImage(p, source, from) == Some(Image(from, raw, AttributesEnd(raw), parts)))
  {
    hide Parts, TagEnd, AttributesEnd, IsSpace;
    TagIsLong(source, from, n);
  }

  /** The image at `from`: a whole tag whose text, up to a slash in front of its bracket, tiles into the attributes. */
  lemma ImageExactly(p: Platform, source: string, image: Image)
    ensures ParseHtmlImage(p, source, image.from) == Some(image) <==>
              image.from + |image.raw| <= |source| && image.raw == source[image.from..image.from + |image.raw|] &&
              |image.raw| >= 6 && IsTag(image.raw) &&
              image.end == (if image.raw[|image.raw| - 2] == '/' then |image.raw| - 2 else |image.raw| - 1) &&
              Tiles(p, image.raw[4..image.end], 4, image.parts)
  {
    hide ParseHtmlImage, Tiles, IsTag;
    if ParseHtmlImage(p, source, image.from) == Some(image) { ParsedImage(p, source, image.from); }
    if image.from + |image.raw| <= |source| && image.raw == source[image.from..image.from + |image.raw|] &&
       |image.raw| >= 6 && IsTag(image.raw) &&
       image.end == (if image.raw[|image.raw| - 2] == '/' then |image.raw| - 2 else |image.raw| - 1) &&
       Tiles(p, image.raw[4..image.end], 4, image.parts)
    {
      ShapedImage(p, source, image.from, |image.raw| - 5, image.end, image.parts);
    }
  }
}

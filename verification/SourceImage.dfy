/** HTML images in source text: finding the end of the tag, and reading a patched image again in its place. */
module SourceImage {
  import opened Basics
  import opened WhiteSpace
  import opened AttributeText
  import opened ImageAttributes
  import opened ImageLens
  import opened ImageReadBack

  /** `raw` is the whole tag, and its attributes end before `end`. */
  datatype Image = Image(from: nat, raw: string, end: nat, parts: seq<Part>)

  // ----- the end of a tag

  /** One character of the scan: the quote that is open afterwards. */
  function NextQuote(quote: Option<char>, c: char): Option<char> {
    if quote.Some? then if c == quote.value then None else quote
    else if c == '"' || c == '\'' then Some(c)
    else None
  }

  /** Where the first '>' outside quotes is. */
  function TagEnd(s: string, quote: Option<char>): (n: Option<nat>)
    ensures n.Some? ==> n.value < |s| && s[n.value] == '>'
  {
    if s == "" then None
    else if quote.None? && s[0] == '>' then Some(0)
    else match TagEnd(s[1..], NextQuote(quote, s[0])) case None => None case Some(n) => Some(n + 1)
  }

  function QuoteAfter(s: string, quote: Option<char>): Option<char> {
    if s == "" then quote else QuoteAfter(s[1..], NextQuote(quote, s[0]))
  }

  /** No '>' outside quotes, and no quote left open. */
  predicate Closed(s: string) {
    TagEnd(s, None).None? && QuoteAfter(s, None).None?
  }

  lemma {:induction false} TagEndConcat(a: string, b: string, quote: Option<char>)
    ensures TagEnd(a + b, quote) ==
            if TagEnd(a, quote).Some? then TagEnd(a, quote)
            else match TagEnd(b, QuoteAfter(a, quote)) case None => None case Some(n) => Some(|a| + n)
    ensures QuoteAfter(a + b, quote) == QuoteAfter(b, QuoteAfter(a, quote))
  {
    if a == "" {
      assert a + b == b;
    } else {
      assert (a + b)[1..] == a[1..] + b && (a + b)[0] == a[0];
      TagEndConcat(a[1..], b, NextQuote(quote, a[0]));
    }
  }

  /** The scan over a text that starts inside `quote`: None where the tag ends in it, and else the quote open behind it. */
  function Scan(s: string, quote: Option<char>): Option<Option<char>> {
    if TagEnd(s, quote).Some? then None else Some(QuoteAfter(s, quote))
  }

  lemma ScanConcat(a: string, b: string, quote: Option<char>)
    ensures Scan(a + b, quote) == match Scan(a, quote) case None => None case Some(open) => Scan(b, open)
  {
    TagEndConcat(a, b, quote);
  }

  lemma {:induction false} EndIsOutside(s: string, quote: Option<char>)
    requires TagEnd(s, quote).Some?
    ensures QuoteAfter(s[..TagEnd(s, quote).value], quote).None?
  {
    if !(quote.None? && s[0] == '>') {
      EndIsOutside(s[1..], NextQuote(quote, s[0]));
      var n := TagEnd(s, quote).value;
      assert s[..n][1..] == s[1..][..n - 1] && s[..n][0] == s[0];
    }
  }

  lemma ClosedConcat(a: string, b: string)
    requires Closed(a)
    ensures Closed(a + b) <==> Closed(b)
  {
    TagEndConcat(a, b, None);
  }

  predicate StartsImage(source: string, from: nat) {
    from + 5 <= |source| && source[from] == '<' && source[from + 1] in "iI" && source[from + 2] in "mM" &&
    source[from + 3] in "gG" && IsSpace(source[from + 4])
  }

  function AttributesEnd(raw: string): (end: nat)
    requires |raw| >= 2
    ensures end < |raw|
  {
    if raw[|raw| - 2..] == "/>" then |raw| - 2 else |raw| - 1
  }

  function ParseHtmlImage(p: Platform, source: string, from: nat): (image: Option<Image>)
    ensures image.Some? ==> image.value.from == from && 5 <= image.value.end < |image.value.raw|
  {
    if !StartsImage(source, from) then None
    else
      match TagEnd(source[from + 4..], None)
      case None => None
      case Some(n) =>
        var raw := source[from..from + 4 + n + 1];
        TagIsLong(source, from, n);
        match Parts(p, raw[4..AttributesEnd(raw)], 4)
        case None => None
        case Some(parts) => Some(Image(from, raw, AttributesEnd(raw), parts))
  }

  /** The white space behind the name is part of the tag. */
  lemma TagIsLong(source: string, from: nat, n: nat)
    requires StartsImage(source, from) && TagEnd(source[from + 4..], None) == Some(n)
    ensures n >= 1 && from + 4 + n < |source| && 5 <= AttributesEnd(source[from..from + 4 + n + 1])
  {
    assert source[from + 4..][0] == source[from + 4];
    var raw := source[from..from + 4 + n + 1];
    assert raw[4] == source[from + 4];
    if |raw| == 6 { assert raw[4..][0] == raw[4]; }
  }

  /** The scanning loop: the length of the source where it finds nothing. */
  method FindTagEnd(source: string, start: nat) returns (end: nat)
    requires start <= |source|
    ensures start <= end <= |source|
    ensures TagEnd(source[start..], None) == if end == |source| then None else Some(end - start)
  {
    end := start;
    var quote: Option<char> := None;
    while end < |source|
      invariant start <= end <= |source|
      invariant TagEnd(source[start..], None) ==
                match TagEnd(source[end..], quote) case None => None case Some(n) => Some(end - start + n)
    {
      var character := source[end];
      assert source[end..][0] == character && source[end..][1..] == source[end + 1..];
      if quote.Some? {
        if character == quote.value {
          quote := None;
        }
      } else if character == '"' || character == '\'' {
        quote := Some(character);
      } else if character == '>' {
        return;
      }
      end := end + 1;
    }
    assert source[end..] == "";
  }

  method FindHtmlImage(p: Platform, source: string, from: nat) returns (image: Option<Image>)
    ensures image == ParseHtmlImage(p, source, from)
  {
    hide IsSpace, Parts, TagEnd, AttributesEnd;
    if !StartsImage(source, from) {
      return None;
    }
    var end := FindTagEnd(source, from + 4);
    if end == |source| {
      return None;
    }
    TagIsLong(source, from, end - from - 4);
    EndsTag(source, from, end - from - 4);
    var raw := source[from..end + 1];
    var attrEnd := AttributesEnd(raw);
    var parts := HtmlAttributes(p, raw, 4, attrEnd);
    if parts.None? {
      return None;
    }
    return Some(Image(from, raw, attrEnd, parts.value));
  }

  lemma EndsTag(source: string, from: nat, n: nat)
    requires StartsImage(source, from) && TagEnd(source[from + 4..], None) == Some(n)
    ensures var raw := source[from..from + 4 + n + 1];
            |raw| == n + 5 && raw[|raw| - 1] == '>' && (raw[AttributesEnd(raw)] == '/' || raw[AttributesEnd(raw)] == '>') &&
            raw[AttributesEnd(raw)..] == (if AttributesEnd(raw) == |raw| - 2 then "/>" else ">")
  {
    TagIsLong(source, from, n);
    var raw := source[from..from + 4 + n + 1];
    assert source[from + 4..][n] == source[from + 4 + n] == raw[|raw| - 1];
  }

  // ----- patched tags

  predicate NoQuotes(s: string) {
    '"' !in s && '\'' !in s
  }

  /** No value without quotes has a quote character in it. */
  predicate QuoteFree(p: Platform, s: string)
    decreases |s|
  {
    s == "" ||
    if IsSpace(s[0]) then QuoteFree(p, s[1..])
    else
      match FirstToken(p, s)
      case None => true
      case Some(t) => (t.form == Unquoted ==> NoQuotes(t.raw)) && QuoteFree(p, s[t.length..])
  }

  lemma {:induction false} PlainIsClosed(s: string)
    requires NoQuotes(s) && '>' !in s
    ensures Closed(s)
  {
    if s != "" {
      assert s[0] in s && forall c <- s[1..] :: c in s;
      PlainIsClosed(s[1..]);
    }
  }

  /** Text that has no quotes leaves the scan where it is, if it does not end it. */
  lemma {:induction false} NoQuotesStay(s: string)
    requires NoQuotes(s)
    ensures QuoteAfter(s, None).None?
  {
    if s != "" {
      assert s[0] in s && forall c <- s[1..] :: c in s;
      NoQuotesStay(s[1..]);
    }
  }

  lemma {:induction false} InsideQuotes(s: string, q: char)
    requires q !in s
    ensures TagEnd(s, Some(q)).None? && QuoteAfter(s, Some(q)) == Some(q)
  {
    if s != "" {
      assert s[0] in s && forall c <- s[1..] :: c in s;
      InsideQuotes(s[1..], q);
    }
  }

  /** A quoted value is skipped whole. */
  lemma QuotedIsClosed(q: char, inner: string)
    requires (q == '"' || q == '\'') && q !in inner
    ensures Closed([q] + inner + [q])
  {
    var s := [q] + inner + [q];
    assert s[1..] == inner + [q];
    InsideQuotes(inner, q);
    TagEndConcat(inner, [q], Some(q));
    assert [q][1..] == "" && TagEnd("", None).None?;
    assert QuoteAfter([q], Some(q)).None? && TagEnd([q], Some(q)).None?;
  }

  /** The scan is between attributes at the end of each attribute. */
  lemma TokenIsClosed(p: Platform, s: string)
    requires FirstToken(p, s).Some? && TagEnd(s, None).None?
    requires FirstToken(p, s).value.form == Unquoted ==> NoQuotes(FirstToken(p, s).value.raw)
    ensures Closed(s[..FirstToken(p, s).value.length])
  {
    hide FirstToken, EqualsAt, ValueToken, Run, TagEnd, QuoteAfter;
    var t := FirstToken(p, s).value;
    var text := s[..t.length];
    assert text + s[t.length..] == s;
    TagEndConcat(text, s[t.length..], None);
    if t.form == Bare {
      BareShape(p, s);
      HeadHasNoQuotes(s, t.length);
      NoQuotesStay(text);
    } else {
      ValuedShape(p, s);
      var start := ValueStart(s);
      ValuedHead(s);
      if t.form == Unquoted {
        assert text == s[..start] + t.raw by { ValueSlice(s, t.name, start); }
        assert NoQuotes(text);
        NoQuotesStay(text);
      } else {
        QuotedSlice(s, t.name, start);
        assert text == s[..start] + (s[start..start + 1] + t.raw + s[start..start + 1]);
        assert s[start..start + 1] == [s[start]];
        NoQuotesStay(s[..start]);
        TagEndConcat(s[..start], [s[start]] + t.raw + [s[start]], None);
        QuotedIsClosed(s[start], t.raw);
      }
    }
  }

  lemma HeadHasNoQuotes(s: string, e: nat)
    requires e == EqualsAt(s)
    ensures NoQuotes(s[..e])
  {
    var n := Run(s, IsNameChar);
    forall i | 0 <= i < e ensures s[i] != '"' && s[i] != '\'' {
      if i < n { assert IsNameChar(s[i]); } else { assert s[n..][i - n] == s[i] && IsSpace(s[i]); }
    }
    assert forall c <- s[..e] :: exists i :: 0 <= i < e && s[i] == c;
  }

  lemma ValuedHead(s: string)
    requires EqualsAt(s) < |s| && s[EqualsAt(s)] == '='
    ensures NoQuotes(s[..ValueStart(s)])
  {
    hide EqualsAt;
    var e, start := EqualsAt(s), ValueStart(s);
    HeadHasNoQuotes(s, e);
    assert s[..start] == s[..e] + ['='] + s[e + 1..start];
    var gap := s[e + 1..start];
    forall c | c in gap ensures c != '"' && c != '\'' {
      var i :| 0 <= i < |gap| && gap[i] == c;
      assert s[e + 1..][i] == c && IsSpace(c);
    }
  }

  lemma ValueSlice(s: string, name: string, start: nat)
    requires 0 < start <= |s| && ValueToken(s, name, start).Some? && ValueToken(s, name, start).value.form == Unquoted
    ensures var t := ValueToken(s, name, start).value; s[..t.length] == s[..start] + t.raw
  {
  }

  lemma QuotedSlice(s: string, name: string, start: nat)
    requires 0 < start <= |s| && ValueToken(s, name, start).Some? && ValueToken(s, name, start).value.form == Quoted
    ensures start < |s| && (s[start] == '"' || s[start] == '\'')
    ensures var t := ValueToken(s, name, start).value;
            s[start] !in t.raw && s[..t.length] == s[..start] + (s[start..start + 1] + t.raw + s[start..start + 1])
  {
    var t := ValueToken(s, name, start).value;
    var m := Run(s[start + 1..], Until(s[start]));
    assert s[start + 1..][m] == s[start + 1 + m] == s[start];
    forall i | 0 <= i < m ensures t.raw[i] != s[start] {
      assert t.raw[i] == s[start + 1..][i] && Until(s[start])(s[start + 1..][i]);
    }
  }

  lemma ReplacementIsClosed(name: string, value: string)
    requires PlainName(name)
    ensures Closed(Replacement(name, value))
  {
    var r := Replacement(name, value);
    if r != "" {
      hide EscapeAttribute;
      var raw := EscapeAttribute(value);
      EscapedIsQuotable(value);
      var head := name + "=";
      PlainIsName(name);
      assert forall c <- head :: c in name || c == '=';
      PlainIsClosed(head);
      QuotedIsClosed('"', raw);
      ClosedConcat(head, ['"'] + raw + ['"']);
      assert r == head + (['"'] + raw + ['"']);
    }
  }

  lemma {:induction false} AddedIsClosed(added: Values)
    requires GoodAdded(added)
    ensures Closed(AddedText(added))
  {
    if added != [] {
      hide Closed, Replacement;
      var (name, value) := added[0];
      assert added[0] in added && forall v <- added[1..] :: v in added;
      AddedIsClosed(added[1..]);
      ReplacementIsClosed(name, value);
      PlainIsClosed(" ");
      ClosedConcat(" ", Replacement(name, value));
      ClosedConcat(" " + Replacement(name, value), AddedText(added[1..]));
    } else {
      PlainIsClosed("");
    }
  }

  lemma SpaceIsPlain(c: char)
    requires IsSpace(c)
    ensures NoQuotes([c]) && '>' !in [c]
  {
  }

  /** A rebuilt tag still ends where it should. */
  lemma {:induction false} RebuiltIsClosed(p: Platform, s: string, at: nat, values: Values, seen: set<string>, added: Values)
    requires PlainValues(values) && GoodAdded(added) && Parts(p, s, at).Some? && QuoteFree(p, s) && TagEnd(s, None).None?
    ensures Closed(Rebuild(p, s, values, seen, AddedText(added)))
    decreases |s|
  {
    hide FirstToken, IsSpace, PlainValues, GoodAdded, AddedText, Replacement, Names, Lookup, NoQuotes, Closed, TagEnd;
    if s == "" {
      AddedIsClosed(added);
    } else if IsSpace(s[0]) {
      var head := [s[0]];
      SpaceIsPlain(s[0]);
      PlainIsClosed(head);
      ClosedPrefix(head, s[1..], s);
      RebuiltIsClosed(p, s[1..], at + 1, values, seen, added);
      ClosedConcat(head, Rebuild(p, s[1..], values, seen, AddedText(added)));
    } else {
      var t := FirstToken(p, s).value;
      var text := s[..t.length];
      TokenIsClosed(p, s);
      ClosedPrefix(text, s[t.length..], s);
      RebuiltIsClosed(p, s[t.length..], at + t.length, values, seen + {t.name}, added);
      var own := Rewritten(values, seen, t.name, text);
      if Names(values, t.name) {
        LookupPlain(values, t.name);
        ReplacementIsClosed(t.name, Lookup(values, t.name));
        NothingIsPlain();
      }
      assert Closed(own);
      ClosedConcat(own, Rebuild(p, s[t.length..], values, seen + {t.name}, AddedText(added)));
    }
  }

  lemma NothingIsPlain()
    ensures NoQuotes("") && Closed("")
  {
  }

  lemma ClosedPrefix(a: string, b: string, s: string)
    requires Closed(a) && s == a + b && TagEnd(s, None).None?
    ensures TagEnd(b, None).None?
  {
    TagEndConcat(a, b, None);
  }

  // ----- reading a patched image in its place

  predicate EndsWithSlash(s: string) {
    s != "" && s[|s| - 1] == '/'
  }

  lemma SlashConcat(a: string, b: string)
    ensures EndsWithSlash(a + b) <==> if b == "" then EndsWithSlash(a) else EndsWithSlash(b)
  {
    if b == "" { assert a + b == a; }
  }

  /** Attributes do not end in a slash unless the text goes on behind them. */
  lemma TokenSlash(p: Platform, s: string)
    requires FirstToken(p, s).Some?
    ensures var t := FirstToken(p, s).value;
            EndsWithSlash(s[..t.length]) && t.length < |s| ==> IsSpace(s[t.length])
  {
    hide FirstToken, IsSpace, EqualsAt, ValueStart, ValueToken, Run;
    var t := FirstToken(p, s).value;
    if t.form == Bare {
      BareShape(p, s);
      EqualsStops(s);
      NameIsNoSlash(s, t.length);
    } else if t.form == Unquoted {
      UnquotedEnds(p, s);
    } else {
      ValuedShape(p, s);
      QuotedSlice(s, t.name, ValueStart(s));
      assert s[..t.length][t.length - 1] == s[ValueStart(s)];
    }
  }

  lemma NameIsNoSlash(s: string, e: nat)
    requires 0 < e == EqualsAt(s)
    ensures s[e - 1] != '/'
  {
    var n := Run(s, IsNameChar);
    if e - 1 < n { assert IsNameChar(s[e - 1]); } else { assert s[n..][e - 1 - n] == s[e - 1] && IsSpace(s[e - 1]); }
  }

  lemma ReplacementSlash(name: string, value: string)
    ensures !EndsWithSlash(Replacement(name, value))
  {
  }

  lemma {:induction false} AddedSlash(added: Values)
    requires GoodAdded(added)
    ensures !EndsWithSlash(AddedText(added)) && (added != [] ==> AddedText(added) != "")
  {
    if added != [] {
      hide Replacement, EndsWithSlash;
      var r := Replacement(added[0].0, added[0].1);
      assert added[0] in added && forall v <- added[1..] :: v in added;
      AddedSlash(added[1..]);
      ReplacementSlash(added[0].0, added[0].1);
      SlashConcat(" ", r);
      SlashConcat(" " + r, AddedText(added[1..]));
    }
  }

  /** One attribute in front of a rebuilt rest. */
  lemma OwnSlash(p: Platform, s: string, at: nat, values: Values, seen: set<string>, more: set<string>, added: Values)
    requires FirstToken(p, s).Some? && !EndsWithSlash(s)
    requires PlainValues(values) && GoodAdded(added)
    requires var t := FirstToken(p, s).value;
             Parts(p, s[t.length..], at).Some? &&
             !EndsWithSlash(Rebuild(p, s[t.length..], values, more, AddedText(added)))
    ensures var t := FirstToken(p, s).value;
            !EndsWithSlash(Rewritten(values, seen, t.name, s[..t.length]) + Rebuild(p, s[t.length..], values, more, AddedText(added)))
  {
    hide FirstToken, IsSpace, PlainValues, GoodAdded, AddedText, Replacement, Names, Lookup, EndsWithSlash, Parts, Rebuild;
    var t := FirstToken(p, s).value;
    var text, rest := s[..t.length], s[t.length..];
    var own, r := Rewritten(values, seen, t.name, text), Rebuild(p, rest, values, more, AddedText(added));
    SlashConcat(own, r);
    if Names(values, t.name) {
      ReplacementSlash(t.name, Lookup(values, t.name));
      NothingSlash();
    } else if r == "" {
      if rest == "" {
        assert text == s;
      } else {
        TokenSlash(p, s);
        assert rest[0] == s[t.length];
        RebuiltStarts(p, rest, at, values, more, added);
      }
    }
  }

  lemma {:induction false} RebuiltSlash(p: Platform, s: string, at: nat, values: Values, seen: set<string>, added: Values)
    requires PlainValues(values) && GoodAdded(added) && Parts(p, s, at).Some? && !EndsWithSlash(s)
    ensures !EndsWithSlash(Rebuild(p, s, values, seen, AddedText(added)))
    decreases |s|
  {
    hide FirstToken, IsSpace, PlainValues, GoodAdded, AddedText, Rewritten, EndsWithSlash;
    NothingSlash();
    if s == "" {
      AddedSlash(added);
    } else if IsSpace(s[0]) {
      assert s == [s[0]] + s[1..];
      SlashConcat([s[0]], s[1..]);
      SlashConcat([s[0]], Rebuild(p, s[1..], values, seen, AddedText(added)));
      SpaceIsNoSlash(s[0]);
      RebuiltSlash(p, s[1..], at + 1, values, seen, added);
    } else {
      var t := FirstToken(p, s).value;
      assert s == s[..t.length] + s[t.length..];
      SlashConcat(s[..t.length], s[t.length..]);
      RebuiltSlash(p, s[t.length..], at + t.length, values, seen + {t.name}, added);
      OwnSlash(p, s, at + t.length, values, seen, seen + {t.name}, added);
    }
  }

  lemma NothingSlash()
    ensures !EndsWithSlash("")
  {
  }

  lemma SpaceIsNoSlash(c: char)
    requires IsSpace(c)
    ensures !EndsWithSlash([c])
  {
  }

  /** What a parsed image is made of. */
  lemma ImageShape(p: Platform, source: string, from: nat)
    requires ParseHtmlImage(p, source, from).Some?
    ensures var image := ParseHtmlImage(p, source, from).value;
            var s := image.raw[4..image.end];
            from + |image.raw| <= |source| && source[from..from + |image.raw|] == image.raw &&
            StartsImage(image.raw, 0) && s != "" && IsSpace(s[0]) && Closed(s) &&
            (image.raw[image.end..] == "/>" || (image.raw[image.end..] == ">" && !EndsWithSlash(s))) &&
            Parts(p, s, 4) == Some(image.parts)
  {
    hide IsSpace, Parts, TagEnd, AttributesEnd, Closed, EndsWithSlash, StartsImage;
    StartsInside(source, from);
    var tail := source[from + 4..];
    var n := TagEnd(tail, None).value;
    TagIsLong(source, from, n);
    EndsTag(source, from, n);
    var image := ParseHtmlImage(p, source, from).value;
    var s := image.raw[4..image.end];
    RawStarts(source, from, n + 5);
    RawSlices(source, from, n + 5, image.end);
    assert image.raw[4] == s[0];
    var slash := if image.raw[image.end..] == ">" then "" else "/";
    if slash == "" { RawSlash(image.raw, image.end); } else { assert tail[|s|] == source[from + image.end] == image.raw[image.end]; }
    NothingOpen(tail, s, slash, n);
  }

  lemma StartsInside(source: string, from: nat)
    requires StartsImage(source, from)
    ensures from + 5 <= |source|
  {
  }

  lemma RawStarts(source: string, from: nat, length: nat)
    requires StartsImage(source, from) && 5 <= length && from + length <= |source|
    ensures var raw := source[from..from + length]; StartsImage(raw, 0) && IsSpace(raw[4])
  {
    hide IsSpace;
    var raw := source[from..from + length];
    assert forall i :: 0 <= i < 5 ==> raw[i] == source[from + i];
  }

  /** In front of the end of a tag no quote is open. */
  lemma NothingOpen(tail: string, s: string, slash: string, n: nat)
    requires TagEnd(tail, None) == Some(n) && |s| <= |tail| && s == tail[..|s|] && (slash == "" || slash == "/")
    requires n == |s| + |slash| && (slash == "/" ==> tail[|s|] == '/')
    ensures Closed(s)
  {
    hide TagEnd, QuoteAfter;
    EndIsOutside(tail, None);
    TagEndConcat(s, tail[|s|..], None);
    assert tail == s + tail[|s|..] && tail[..n] == s + slash;
    if slash == "/" { SlashClosesNothing(s); } else { assert s + slash == s; }
  }

  lemma SlashClosesNothing(s: string)
    requires QuoteAfter(s + "/", None).None?
    ensures QuoteAfter(s, None).None?
  {
    TagEndConcat(s, "/", None);
    QuoteIsQuote(s, None);
  }

  lemma {:induction false} QuoteIsQuote(s: string, quote: Option<char>)
    requires quote.Some? ==> quote.value == '"' || quote.value == '\''
    ensures var open := QuoteAfter(s, quote); open.Some? ==> open.value == '"' || open.value == '\''
  {
    if s != "" { QuoteIsQuote(s[1..], NextQuote(quote, s[0])); }
  }

  lemma RawSlices(source: string, from: nat, length: nat, end: nat)
    requires 4 <= end <= length && from + length <= |source|
    ensures var s, tail := source[from..from + length][4..end], source[from + 4..]; |s| <= |tail| && tail == s + tail[|s|..]
  {
    var raw, tail := source[from..from + length], source[from + 4..];
    forall i | 0 <= i < end - 4 ensures raw[4..end][i] == tail[i] {
      assert raw[4..end][i] == raw[4 + i] == source[from + 4 + i];
    }
  }

  lemma RawSlash(raw: string, end: nat)
    requires |raw| > 5 && end == AttributesEnd(raw) >= 5 && raw[end..] == ">"
    ensures !EndsWithSlash(raw[4..end])
  {
    var s := raw[4..end];
    assert s[|s| - 1] == raw[|raw| - 2];
    assert raw[|raw| - 1] == raw[end..][0];
    assert raw[|raw| - 2..] == [raw[|raw| - 2], raw[|raw| - 1]];
  }

  lemma CloseIsEnd(head: string, s: string, close: string)
    requires |head| == 4 && s != "" && (close == "/>" || (close == ">" && !EndsWithSlash(s)))
    ensures AttributesEnd(head + s + close) == 4 + |s|
  {
    var raw := head + s + close;
    if close == ">" {
      assert raw[|raw| - 2] == s[|s| - 1];
      assert raw[|raw| - 2..][0] == raw[|raw| - 2];
    } else {
      assert raw[|raw| - 2..] == close;
    }
  }

  lemma StartsFurther(prefix: string, text: string, suffix: string)
    requires StartsImage(text, 0)
    ensures StartsImage(prefix + text + suffix, |prefix|)
  {
    hide IsSpace;
    var source := prefix + text + suffix;
    assert forall i :: 0 <= i < 5 ==> source[|prefix| + i] == text[i];
  }

  /** Text of that make is parsed as one image, wherever it stands. */
  lemma ImageParses(p: Platform, prefix: string, head: string, s: string, close: string, suffix: string)
    requires |head| == 4 && s != "" && StartsImage(head + s, 0) && Closed(s)
    requires close == "/>" || (close == ">" && !EndsWithSlash(s))
    ensures var source := prefix + (head + s + close) + suffix;
            ParseHtmlImage(p, source, |prefix|) ==
            match Parts(p, s, 4) case None => None case Some(parts) => Some(Image(|prefix|, head + s + close, 4 + |s|, parts))
  {
    hide IsSpace, Parts, TagEnd, QuoteAfter, AttributesEnd, EndsWithSlash;
    var raw := head + s + close;
    var source := prefix + raw + suffix;
    StartsFurther(prefix, head + s, close + suffix);
    assert prefix + (head + s) + (close + suffix) == source;
    assert source[|prefix| + 4..] == s + (close + suffix);
    TagEndConcat(s, close + suffix, None);
    CloseEnds(close, suffix);
    assert source[|prefix|..|prefix| + |raw|] == raw;
    CloseIsEnd(head, s, close);
    assert raw[4..4 + |s|] == s;
  }

  lemma CloseEnds(close: string, suffix: string)
    requires close == "/>" || close == ">"
    ensures TagEnd(close + suffix, None) == Some(|close| - 1)
  {
    var s := close + suffix;
    if close == "/>" { assert s[1..][0] == '>'; }
  }

  /** A patch of an image, put back into the document. */
  function Replaced(source: string, image: Image, raw: string): string
    requires image.from + |image.raw| <= |source|
  {
    source[..image.from] + raw + source[image.from + |image.raw|..]
  }

  // ----- when the scan survives a patch

  /** The scan over the attributes of a patched tag: the texts that stay, and the replacements of the others. */
  function PatchedScan(source: string, parts: seq<Part>, values: Values, seen: set<string>, quote: Option<char>): Option<Option<char>>
    decreases |parts|
  {
    if parts == [] then Some(quote)
    else
      var part := parts[0];
      match Scan(Rewritten(values, seen, part.name, Slice(source, part.from, part.to)), quote)
      case None => None
      case Some(open) => PatchedScan(source, parts[1..], values, seen + {part.name}, open)
  }

  /**
    The guard a caller can compute from a parsed image: the scan over its attributes, as they will be, and over
    the additions meets no end of the tag and leaves no quote open.
  */
  predicate TagSurvives(image: Image, values: Values) {
    match PatchedScan(image.raw, image.parts, values, {}, None)
    case None => false
    case Some(open) => Scan(AddedText(Added(image.parts, values)), open) == Some(None)
  }

  lemma SpaceScan(c: char, quote: Option<char>)
    requires IsSpace(c) && (quote.Some? ==> quote.value == '"' || quote.value == '\'')
    ensures Scan([c], quote) == Some(quote)
  {
    assert c != '"' && c != '\'' && c != '>' && NextQuote(quote, c) == quote;
    assert [c][1..] == "" && TagEnd("", quote).None? && QuoteAfter("", quote) == quote;
  }

  lemma {:induction false} RebuiltScan(p: Platform, source: string, at: nat, end: nat, values: Values, seen: set<string>,
                                       tail: string, quote: Option<char>)
    requires at <= end <= |source| && Parts(p, source[at..end], at).Some?
    requires quote.Some? ==> quote.value == '"' || quote.value == '\''
    ensures Scan(Rebuild(p, source[at..end], values, seen, tail), quote) ==
            match PatchedScan(source, Parts(p, source[at..end], at).value, values, seen, quote)
            case None => None
            case Some(open) => Scan(tail, open)
    decreases end - at
  {
    hide FirstToken, IsSpace, Rewritten, Scan;
    var s := source[at..end];
    if s != "" {
      if IsSpace(s[0]) {
        assert s[1..] == source[at + 1..end];
        RebuiltScan(p, source, at + 1, end, values, seen, tail, quote);
        SpaceScan(s[0], quote);
        ScanConcat([s[0]], Rebuild(p, s[1..], values, seen, tail), quote);
      } else {
        var t := FirstToken(p, s).value;
        var to := at + t.length;
        assert s[t.length..] == source[to..end] && s[..t.length] == source[at..to] == Slice(source, at, to);
        var own := Rewritten(values, seen, t.name, s[..t.length]);
        var rest := Parts(p, source[to..end], to).value;
        assert Parts(p, s, at).value == [Part(at, to, t.name, Decode(p.resolve, t.raw))] + rest;
        ScanConcat(own, Rebuild(p, s[t.length..], values, seen + {t.name}, tail), quote);
        var after := Scan(own, quote);
        if after.Some? {
          ScanStays(own, quote);
          RebuiltScan(p, source, to, end, values, seen + {t.name}, tail, after.value);
        }
      }
    }
  }

  lemma ScanStays(s: string, quote: Option<char>)
    requires quote.Some? ==> quote.value == '"' || quote.value == '\''
    ensures Scan(s, quote).Some? ==>
              var open := Scan(s, quote).value; open.Some? ==> open.value == '"' || open.value == '\''
  {
    QuoteIsQuote(s, quote);
  }

  lemma SurvivesIffClosed(p: Platform, image: Image, values: Values)
    requires 4 <= image.end <= |image.raw| && Parts(p, image.raw[4..image.end], 4) == Some(image.parts)
    ensures TagSurvives(image, values) <==>
            Closed(Rebuild(p, image.raw[4..image.end], values, {}, AddedText(Added(image.parts, values))))
  {
    hide Parts, Rebuild, PatchedScan;
    RebuiltScan(p, image.raw, 4, image.end, values, {}, AddedText(Added(image.parts, values)), None);
  }

  /** Without quotes in unquoted values every patch keeps the tag whole. */
  lemma QuoteFreeSurvives(p: Platform, source: string, from: nat, values: Values)
    requires PlainValues(values) && ParseHtmlImage(p, source, from).Some?
    requires var image := ParseHtmlImage(p, source, from).value; QuoteFree(p, image.raw[4..image.end])
    ensures TagSurvives(ParseHtmlImage(p, source, from).value, values)
  {
    hide ParseHtmlImage, Parts, TagEnd, QuoteAfter, IsSpace, QuoteFree, TagSurvives, Rebuild, StartsImage, PlainValues, GoodAdded,
         Added, AddedText;
    var image := ParseHtmlImage(p, source, from).value;
    ImageShape(p, source, from);
    AddedIsGood(image.parts, values);
    RebuiltIsClosed(p, image.raw[4..image.end], 4, values, {}, Added(image.parts, values));
    SurvivesIffClosed(p, image, values);
  }

  // ----- the image-level law

  /** The tag is found again in its place, whole, and its attributes are the patched ones. */
  ghost predicate PatchReadBack(p: Platform, source: string, image: Image, raw: string, values: Values)
    requires image.from + |image.raw| <= |source|
  {
    var again := ParseHtmlImage(p, Replaced(source, image, raw), image.from);
    again.Some? && again.value.raw == raw &&
    Stripped(again.value.parts) == Expected(image.parts, values, {}) + AddedAttrs(Added(image.parts, values))
  }

  /** Where a text of the same make stands, a tag found whole is one whose attributes are closed. */
  lemma FoundWholeIsClosed(p: Platform, prefix: string, head: string, s: string, close: string, suffix: string)
    requires |head| == 4 && s != "" && (close == "/>" || (close == ">" && !EndsWithSlash(s)))
    requires var again := ParseHtmlImage(p, prefix + (head + s + close) + suffix, |prefix|);
             again.Some? && again.value.raw == head + s + close
    ensures Closed(s)
  {
    hide ParseHtmlImage, Closed, StartsImage, Parts, IsSpace;
    var source := prefix + (head + s + close) + suffix;
    ImageShape(p, source, |prefix|);
    var again := ParseHtmlImage(p, source, |prefix|).value;
    ImageEnd(p, source, |prefix|);
    CloseIsEnd(head, s, close);
    assert again.raw[4..4 + |s|] == s;
  }

  lemma ImageEnd(p: Platform, source: string, from: nat)
    requires ParseHtmlImage(p, source, from).Some?
    ensures var image := ParseHtmlImage(p, source, from).value; image.end == AttributesEnd(image.raw)
  {
    hide Parts, AttributesEnd;
  }

  /**
    A patched image is read again in its place, with the patched attributes and the others as they were, if and
    only if the scan survives the patch and nothing is appended behind an open end. Where the scan does not
    survive, the tag is not even found whole.
  */
  lemma PatchedImageReadsBack(p: Platform, source: string, from: nat, values: Values)
    requires GoodPlatform(p) && PlainValues(values) && ParseHtmlImage(p, source, from).Some?
    ensures var image := ParseHtmlImage(p, source, from).value;
            var raw := Patched(image.raw, image.parts, image.end, values);
            image.from == from && from + |image.raw| <= |source| &&
            (PatchReadBack(p, source, image, raw, values) <==>
             TagSurvives(image, values) &&
             !(Added(image.parts, values) != [] && OpenEnd(image.raw, image.parts, image.end, values))) &&
            var again := ParseHtmlImage(p, Replaced(source, image, raw), from);
            again.Some? && again.value.raw == raw ==> TagSurvives(image, values)
  {
    hide IsSpace, Parts, TagEnd, Patched, Rebuild, PlainValues, GoodPlatform, OpenEnd, Added, AddedText, AddedAttrs, Expected,
         TagSurvives, StartsImage, EndsWithSlash, Closed, ParseHtmlImage, GoodAdded, Stripped;
    var image := ParseHtmlImage(p, source, from).value;
    ImageShape(p, source, from);
    ImageFrom(p, source, from);
    var s, added := image.raw[4..image.end], Added(image.parts, values);
    var head, close := image.raw[..4], image.raw[image.end..];
    AddedIsGood(image.parts, values);
    var middle := Rebuild(p, s, values, {}, AddedText(added));
    PatchedIsRebuilt(p, image.raw, 4, image.end, values);
    var raw := Patched(image.raw, image.parts, image.end, values);
    assert raw == head + middle + close;
    SurvivesIffClosed(p, image, values);
    if close == ">" { RebuiltSlash(p, s, 4, values, {}, added); }
    RebuiltStarts(p, s, 4, values, {}, added);
    StillStarts(image.raw, head, middle);
    var prefix, suffix := source[..from], source[from + |image.raw|..];
    PatchReadsBack(p, image.raw, 4, image.end, values);
    ResultSplits(image.raw, 4, image.end, middle);
    if Closed(middle) {
      ImageParses(p, prefix, head, middle, close, suffix);
    } else {
      var again := ParseHtmlImage(p, prefix + raw + suffix, |prefix|);
      if again.Some? && again.value.raw == raw { FoundWholeIsClosed(p, prefix, head, middle, close, suffix); }
    }
  }

  /** Where a patched image is found whole, its parts are those of the text between its head and its end. */
  lemma PatchedParts(p: Platform, source: string, from: nat, values: Values)
    requires GoodPlatform(p) && PlainValues(values) && ParseHtmlImage(p, source, from).Some?
    ensures var image := ParseHtmlImage(p, source, from).value;
            var raw := Patched(image.raw, image.parts, image.end, values);
            image.from == from && from + |image.raw| <= |source| && 4 <= image.end <= |image.raw| &&
            Parts(p, image.raw[4..image.end], 4) == Some(image.parts) &&
            var again, stop := ParseHtmlImage(p, Replaced(source, image, raw), from), |raw| - (|image.raw| - image.end);
            again.Some? && again.value.raw == raw ==>
              4 <= stop <= |raw| && Parts(p, raw[4..stop], 4) == Some(again.value.parts)
  {
    hide IsSpace, Parts, TagEnd, Patched, Rebuild, PlainValues, GoodPlatform, Added, AddedText, StartsImage, EndsWithSlash, Closed,
         ParseHtmlImage, GoodAdded, AttributesEnd;
    var image := ParseHtmlImage(p, source, from).value;
    ImageShape(p, source, from);
    ImageFrom(p, source, from);
    var s, added := image.raw[4..image.end], Added(image.parts, values);
    var head, close := image.raw[..4], image.raw[image.end..];
    AddedIsGood(image.parts, values);
    var middle := Rebuild(p, s, values, {}, AddedText(added));
    PatchedIsRebuilt(p, image.raw, 4, image.end, values);
    var raw := Patched(image.raw, image.parts, image.end, values);
    assert raw == head + middle + close;
    if close == ">" { RebuiltSlash(p, s, 4, values, {}, added); }
    RebuiltStarts(p, s, 4, values, {}, added);
    var patched := Replaced(source, image, raw);
    var again := ParseHtmlImage(p, patched, from);
    if again.Some? && again.value.raw == raw {
      ImageShape(p, patched, from);
      ImageEnd(p, patched, from);
      CloseIsEnd(head, middle, close);
    }
  }

  lemma ImageFrom(p: Platform, source: string, from: nat)
    requires ParseHtmlImage(p, source, from).Some?
    ensures from <= |source| && ParseHtmlImage(p, source, from).value.from == from
  {
  }

  lemma StillStarts(raw: string, head: string, middle: string)
    requires StartsImage(raw, 0) && head == raw[..4] && middle != "" && IsSpace(middle[0])
    ensures StartsImage(head + middle, 0)
  {
    hide IsSpace;
    assert (head + middle)[4] == middle[0];
  }

  // ----- a tag that does not survive

  lemma ExampleChars()
    ensures IsSpace(' ') && (forall c <- "x'" :: IsValueChar(c)) && (forall c <- "y'" :: IsValueChar(c))
    ensures PlainName("src") && PlainName("alt")
  {
  }

  lemma SecondToken(p: Platform)
    requires GoodPlatform(p)
    ensures FirstToken(p, "alt=y'") == Some(Token(6, "alt", "y'", Unquoted)) && !IsSpace("alt=y'"[0])
  {
    hide FirstToken, GoodPlatform, IsSpace, IsValueChar;
    ExampleChars();
    PlainToken(p, "alt", "", "y'", "");
    assert "alt=y'" == "alt" + ("=" + ("" + ("y'" + "")));
    FirstIsName(p, "alt=y'");
  }

  lemma FirstOfTwo(p: Platform)
    requires GoodPlatform(p)
    ensures FirstToken(p, "src=x' alt=y'") == Some(Token(6, "src", "x'", Unquoted)) && !IsSpace("src=x' alt=y'"[0])
  {
    hide FirstToken, GoodPlatform, IsSpace, IsValueChar;
    ExampleChars();
    PlainToken(p, "src", "", "x'", " alt=y'");
    assert "src=x' alt=y'" == "src" + ("=" + ("" + ("x'" + " alt=y'")));
    FirstIsName(p, "src=x' alt=y'");
  }

  lemma PartsStep(p: Platform, s: string, at: nat, t: Token, rest: seq<Part>)
    requires s != "" && !IsSpace(s[0]) && FirstToken(p, s) == Some(t) && Parts(p, s[t.length..], at + t.length) == Some(rest)
    ensures Parts(p, s, at) == Some([Part(at, at + t.length, t.name, Decode(p.resolve, t.raw))] + rest)
  {
    hide FirstToken, IsSpace, Decode;
  }

  lemma SecondPart(p: Platform)
    requires GoodPlatform(p)
    ensures Parts(p, "alt=y'", 12) == Some([Part(12, 18, "alt", "y'")])
  {
    hide FirstToken, GoodPlatform, IsSpace, Decode, Parts;
    SecondToken(p);
    DecodePlain(p.resolve, "y'");
    assert "alt=y'"[6..] == "";
    NoParts(p, 18);
    PartsStep(p, "alt=y'", 12, Token(6, "alt", "y'", Unquoted), []);
    assert [Part(12, 18, "alt", "y'")] + [] == [Part(12, 18, "alt", "y'")];
  }

  lemma PartsBehindSpace(p: Platform, rest: string, at: nat)
    ensures Parts(p, " " + rest, at) == Parts(p, rest, at + 1)
  {
    hide FirstToken;
    assert (" " + rest)[1..] == rest;
  }

  lemma BothParts(p: Platform)
    requires GoodPlatform(p)
    ensures Parts(p, " src=x' alt=y'", 4) == Some([Part(5, 11, "src", "x'"), Part(12, 18, "alt", "y'")])
  {
    hide FirstToken, GoodPlatform, IsSpace, Decode, Parts;
    FirstOfTwo(p);
    SecondPart(p);
    DecodePlain(p.resolve, "x'");
    var s := "src=x' alt=y'";
    PartsBehindSpace(p, s, 4);
    PartsBehindSpace(p, "alt=y'", 11);
    assert s[6..] == " " + "alt=y'";
    assert " " + s == " src=x' alt=y'";
    PartsStep(p, s, 5, Token(6, "src", "x'", Unquoted), [Part(12, 18, "alt", "y'")]);
    assert [Part(5, 11, "src", "x'")] + [Part(12, 18, "alt", "y'")] == [Part(5, 11, "src", "x'"), Part(12, 18, "alt", "y'")];
  }

  lemma OneStretch(u: string, q: char, v: string)
    requires NoQuotes(u) && '>' !in u && (q == '"' || q == '\'') && q !in v
    ensures Closed(u + ([q] + v + [q]))
  {
    PlainIsClosed(u);
    QuotedIsClosed(q, v);
    ClosedConcat(u, [q] + v + [q]);
  }

  lemma NeverClosed(a: string, q: char, v: string)
    requires Closed(a) && (q == '"' || q == '\'') && q !in v
    ensures TagEnd(a + ([q] + v), None).None?
  {
    TagEndConcat(a, [q] + v, None);
    InsideQuotes(v, q);
    assert ([q] + v)[1..] == v;
  }

  lemma BeforeScan()
    ensures Closed(" src=x' alt=y'")
  {
    hide Closed;
    OneStretch(" src=x", '\'', " alt=y");
    assert " src=x" + (['\''] + " alt=y" + ['\'']) == " src=x' alt=y'";
  }

  lemma AfterScan()
    ensures TagEnd(" src=\"z\" alt=y'>", None).None?
  {
    hide Closed, TagEnd;
    OneStretch(" src=", '"', "z");
    var head := " src=" + (['"'] + "z" + ['"']);
    PlainIsClosed(" alt=y");
    ClosedConcat(head, " alt=y");
    NeverClosed(head + " alt=y", '\'', ">");
    assert head + " alt=y" + (['\''] + ">") == " src=\"z\" alt=y'>";
  }

  lemma NoImage(p: Platform, head: string, s: string)
    requires |head| == 4 && TagEnd(s, None).None?
    ensures ParseHtmlImage(p, head + s, 0).None?
  {
    assert (head + s)[4..] == s;
  }

  lemma ExampleAdds()
    ensures Added([Part(5, 11, "src", "x'"), Part(12, 18, "alt", "y'")], [("src", "z")]) == []
    ensures Replacement("src", "z") == "src=\"z\"" && Names([("src", "z")], "src") && Lookup([("src", "z")], "src") == "z" && !Names([("src", "z")], "alt")
  {
    hide EscapeAttribute;
    EscapeOne('z');
    var parts := [Part(5, 11, "src", "x'"), Part(12, 18, "alt", "y'")];
    assert parts[0] in parts && Has(parts, "src");
    assert [("src", "z")][..0] == [];
  }

  lemma RebuildStep(p: Platform, s: string, t: Token, values: Values, seen: set<string>, tail: string)
    requires s != "" && !IsSpace(s[0]) && FirstToken(p, s) == Some(t)
    ensures Rebuild(p, s, values, seen, tail) ==
            Rewritten(values, seen, t.name, s[..t.length]) + Rebuild(p, s[t.length..], values, seen + {t.name}, tail)
  {
    hide FirstToken, IsSpace, Rewritten;
  }

  lemma RebuildSpace(p: Platform, s: string, values: Values, seen: set<string>, tail: string)
    ensures Rebuild(p, " " + s, values, seen, tail) == " " + Rebuild(p, s, values, seen, tail)
    ensures Rebuild(p, "", values, seen, tail) == tail
  {
    hide FirstToken, Rewritten;
    assert (" " + s)[1..] == s;
  }

  lemma ExampleTail(p: Platform)
    requires GoodPlatform(p)
    ensures Rebuild(p, " " + "alt=y'", [("src", "z")], {} + {"src"}, "") == " " + "alt=y'"
  {
    hide FirstToken, GoodPlatform, IsSpace, Names, Lookup, Replacement, Rebuild;
    ExampleAdds();
    SecondToken(p);
    var s := "alt=y'";
    assert s[6..] == "" && s[..6] == s && s + "" == s;
    RebuildStep(p, s, Token(6, "alt", "y'", Unquoted), [("src", "z")], {} + {"src"}, "");
    RebuildSpace(p, s, [("src", "z")], {} + {"src"} + {"alt"}, "");
    RebuildSpace(p, s, [("src", "z")], {} + {"src"}, "");
  }

  lemma ExampleRebuilt(p: Platform)
    requires GoodPlatform(p)
    ensures Rebuild(p, " src=x' alt=y'", [("src", "z")], {}, "") == " src=\"z\" alt=y'"
  {
    hide FirstToken, GoodPlatform, IsSpace, Names, Lookup, Replacement, Rebuild;
    ExampleAdds();
    FirstOfTwo(p);
    ExampleTail(p);
    var s := "src=x' alt=y'";
    assert s[6..] == " " + "alt=y'";
    RebuildStep(p, s, Token(6, "src", "x'", Unquoted), [("src", "z")], {}, "");
    RebuildSpace(p, s, [("src", "z")], {}, "");
    assert " " + s == " src=x' alt=y'";
    assert " " + ("src=\"z\"" + (" " + "alt=y'")) == " src=\"z\" alt=y'";
  }

  lemma ExamplePatched(p: Platform)
    requires GoodPlatform(p)
    ensures Patched("<img" + " src=x' alt=y'" + ">", [Part(5, 11, "src", "x'"), Part(12, 18, "alt", "y'")], 18, [("src", "z")]) ==
            "<img" + " src=\"z\" alt=y'" + ">"
  {
    hide FirstToken, GoodPlatform, IsSpace, Parts, Patched, Rebuild, Added;
    var raw := "<img" + " src=x' alt=y'" + ">";
    ExampleAdds();
    ExampleRebuilt(p);
    BothParts(p);
    assert raw[4..18] == " src=x' alt=y'" && raw[..4] == "<img" && raw[18..] == ">" && AddedText([]) == "";
    assert PlainName("src");
    PatchedIsRebuilt(p, raw, 4, 18, [("src", "z")]);
  }

  lemma ExampleGuard(p: Platform)
    requires GoodPlatform(p)
    ensures !QuoteFree(p, " src=x' alt=y'")
  {
    hide FirstToken, GoodPlatform, IsSpace;
    ExampleChars();
    FirstOfTwo(p);
    assert " src=x' alt=y'"[1..] == "src=x' alt=y'" && "x'"[1] == '\'';
  }

  lemma ExampleStarts()
    ensures StartsImage("<img" + " src=x' alt=y'", 0) && !EndsWithSlash(" src=x' alt=y'")
  {
  }

  /** With a quote in each of two unquoted values, patching one of them loses the end of the tag. */
  lemma QuoteExample(p: Platform)
    requires GoodPlatform(p)
    ensures var image := ParseHtmlImage(p, "<img" + " src=x' alt=y'" + ">", 0);
            image.Some? && !QuoteFree(p, image.value.raw[4..image.value.end]) && !TagSurvives(image.value, [("src", "z")]) &&
            Patched(image.value.raw, image.value.parts, image.value.end, [("src", "z")]) == "<img" + " src=\"z\" alt=y'" + ">"
    ensures ParseHtmlImage(p, "<img" + " src=\"z\" alt=y'" + ">", 0).None?
  {
    hide GoodPlatform, Parts, Patched, Closed, TagEnd, StartsImage, QuoteFree, ParseHtmlImage, EndsWithSlash, TagSurvives, PatchReadBack;
    var s, raw := " src=x' alt=y'", "<img" + " src=x' alt=y'" + ">";
    BothParts(p);
    BeforeScan();
    ExampleStarts();
    ImageParses(p, "", "<img", s, ">", "");
    assert "" + raw + "" == raw;
    assert raw[4..18] == s;
    ExampleGuard(p);
    ExamplePatched(p);
    AfterScan();
    NoImage(p, "<img", " src=\"z\" alt=y'>");
    assert "<img" + " src=\"z\" alt=y'>" == "<img" + " src=\"z\" alt=y'" + ">";
    ExampleAdds();
    ExamplePlain();
    PatchedImageReadsBack(p, raw, 0, [("src", "z")]);
    var image := ParseHtmlImage(p, raw, 0).value;
    assert Replaced(raw, image, "<img" + " src=\"z\" alt=y'" + ">") == "<img" + " src=\"z\" alt=y'" + ">";
    NotReadBack(p, raw, image, "<img" + " src=\"z\" alt=y'" + ">", [("src", "z")]);
  }

  lemma ExamplePlain()
    ensures PlainValues([("src", "z")])
  {
    ExampleChars();
  }

  lemma NotReadBack(p: Platform, source: string, image: Image, raw: string, values: Values)
    requires image.from + |image.raw| <= |source| && ParseHtmlImage(p, Replaced(source, image, raw), image.from).None?
    ensures !PatchReadBack(p, source, image, raw, values)
  {
  }
}

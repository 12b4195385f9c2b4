/** Reading patched attributes again. */
module ImageReadBack {
  import opened Basics
  import opened WhiteSpace
  import opened AttributeText
  import opened ImageAttributes
  import opened ImageLens

  // ----- attributes without their places

  function Prepend(a: Attr, rest: Option<seq<Attr>>): Option<seq<Attr>> {
    if rest.None? then None else Some([a] + rest.value)
  }

  function Attributes(p: Platform, s: string): Option<seq<Attr>>
    decreases |s|
  {
    if s == "" then Some([])
    else if IsSpace(s[0]) then Attributes(p, s[1..])
    else
      match FirstToken(p, s)
      case None => None
      case Some(t) => Prepend(Attr(t.name, Decode(p.resolve, t.raw)), Attributes(p, s[t.length..]))
  }

  function Stripped(parts: seq<Part>): seq<Attr> {
    if parts == [] then [] else [Attr(parts[0].name, parts[0].value)] + Stripped(parts[1..])
  }

  lemma {:induction false} PartsStripped(p: Platform, s: string, at: nat)
    ensures Attributes(p, s) == match Parts(p, s, at) case None => None case Some(parts) => Some(Stripped(parts))
    decreases |s|
  {
    hide FirstToken, IsSpace;
    if s != "" {
      if IsSpace(s[0]) {
        PartsStripped(p, s[1..], at + 1);
      } else if FirstToken(p, s).Some? {
        var t := FirstToken(p, s).value;
        PartsStripped(p, s[t.length..], at + t.length);
        var rest := Parts(p, s[t.length..], at + t.length);
        var part := Part(at, at + t.length, t.name, Decode(p.resolve, t.raw));
        if rest.Some? { assert ([part] + rest.value)[1..] == rest.value; }
      }
    }
  }

  // ----- one attribute in front of other text

  lemma {:induction false} RunTake(s: string, k: nat, test: char -> bool)
    requires k <= |s|
    ensures Run(s[..k], test) == if Run(s, test) < k then Run(s, test) else k
  {
    if k > 0 && test(s[0]) {
      assert s[..k][1..] == s[1..][..k - 1];
      RunTake(s[1..], k - 1, test);
    }
  }

  /** A run inside the first `k` characters does not see what comes behind them. */
  lemma RunInside(s: string, from: nat, k: nat, b: string, test: char -> bool)
    requires from <= k <= |s| && from + Run(s[from..], test) < k
    ensures (s[..k] + b)[from..] == s[from..k] + b
    ensures Run((s[..k] + b)[from..], test) == Run(s[from..], test)
  {
    var n := Run(s[from..], test);
    assert s[from..][..k - from] == s[from..k];
    RunTake(s[from..], k - from, test);
    RunStops(s[from..k], b, test);
    assert (s[..k] + b)[from..] == s[from..k] + b;
  }

  /** A run up to the `k`-th character goes on into the text behind. */
  lemma RunThrough(s: string, from: nat, k: nat, b: string, test: char -> bool)
    requires from <= k <= |s| && from + Run(s[from..], test) >= k
    ensures (s[..k] + b)[from..] == s[from..k] + b
    ensures Run((s[..k] + b)[from..], test) == k - from + Run(b, test)
  {
    forall c | c in s[from..k] ensures test(c) {
      var i :| 0 <= i < k - from && s[from..k][i] == c;
      assert s[from..][i] == c;
    }
    RunConcat(s[from..k], b, test);
    assert (s[..k] + b)[from..] == s[from..k] + b;
  }

  lemma WholeSlice(s: string)
    ensures s[0..] == s
  {
  }

  lemma NameBefore(s: string, k: nat, b: string)
    requires Run(s, IsNameChar) < k <= |s| || (Run(s, IsNameChar) == k <= |s| && (b == "" || !IsNameChar(b[0])))
    ensures Run(s[..k] + b, IsNameChar) == Run(s, IsNameChar)
    ensures (s[..k] + b)[..Run(s, IsNameChar)] == s[..Run(s, IsNameChar)]
  {
    hide IsNameChar;
    WholeSlice(s);
    WholeSlice(s[..k] + b);
    if Run(s, IsNameChar) < k { RunInside(s, 0, k, b, IsNameChar); } else { RunThrough(s, 0, k, b, IsNameChar); }
  }

  lemma EqualsInside(s: string, k: nat, b: string)
    requires EqualsAt(s) < k <= |s| && !IsNameChar(s[EqualsAt(s)]) && Run(s, IsNameChar) < k
    ensures Run(s[..k] + b, IsNameChar) == Run(s, IsNameChar) && EqualsAt(s[..k] + b) == EqualsAt(s)
    ensures (s[..k] + b)[..Run(s, IsNameChar)] == s[..Run(s, IsNameChar)]
  {
    hide IsNameChar, IsSpace, Run;
    var n := Run(s, IsNameChar);
    NameBefore(s, k, b);
    RunInside(s, n, k, b, IsSpace);
  }

  lemma StartInside(s: string, k: nat, b: string)
    requires EqualsAt(s) < k <= |s| && ValueStart(s) < k && EqualsAt(s[..k] + b) == EqualsAt(s)
    ensures ValueStart(s[..k] + b) == ValueStart(s)
  {
    hide EqualsAt, IsSpace, Run;
    RunInside(s, EqualsAt(s) + 1, k, b, IsSpace);
  }

  /** What a token with a value looks like. */
  lemma ValuedShape(p: Platform, s: string)
    requires FirstToken(p, s).Some? && FirstToken(p, s).value.form != Bare
    ensures var e, n, t := EqualsAt(s), Run(s, IsNameChar), FirstToken(p, s).value;
            0 < n <= e < |s| && s[e] == '=' && !IsNameChar(s[e]) && e < ValueStart(s) <= t.length &&
            t.name == p.lower(s[..n]) && Some(t) == ValueToken(s, t.name, ValueStart(s))
    ensures var t := FirstToken(p, s).value; t.length == ValueStart(s) + |t.raw| + (if t.form == Quoted then 2 else 0)
  {
    hide Run, ValueToken, EqualsAt, ValueStart;
    EqualsBounds(s);
  }

  lemma EqualsBounds(s: string)
    ensures Run(s, IsNameChar) <= EqualsAt(s)
  {
  }

  lemma ValuedToken(p: Platform, s: string)
    requires EqualsAt(s) < |s| && s[EqualsAt(s)] == '=' && Run(s, IsNameChar) > 0
    ensures FirstToken(p, s) == ValueToken(s, p.lower(s[..Run(s, IsNameChar)]), ValueStart(s))
  {
  }

  /** A value in quotes, or an unquoted one in front of white space, is read as before. */
  lemma ValuedThen(p: Platform, s: string, b: string)
    requires FirstToken(p, s).Some? && FirstToken(p, s).value.form != Bare
    requires var t := FirstToken(p, s).value; t.form == Quoted || (t.raw != "" && (b == "" || IsSpace(b[0])))
    ensures FirstToken(p, s[..FirstToken(p, s).value.length] + b) == FirstToken(p, s)
  {
    hide IsNameChar, IsSpace, Run, Until, FirstToken, EqualsAt, ValueStart, ValueToken;
    ValuedShape(p, s);
    var t := FirstToken(p, s).value;
    var k := t.length;
    EqualsInside(s, k, b);
    StartInside(s, k, b);
    ValuedToken(p, s[..k] + b);
    ValueThen(s, t.name, ValueStart(s), b);
  }

  lemma ValueThen(s: string, name: string, start: nat, b: string)
    requires 0 < start <= |s| && ValueToken(s, name, start).Some?
    requires var t := ValueToken(s, name, start).value; t.form == Quoted || (t.raw != "" && (b == "" || IsSpace(b[0])))
    ensures ValueToken(s[..ValueToken(s, name, start).value.length] + b, name, start) == ValueToken(s, name, start)
  {
    hide IsSpace, Run, Until;
    var t := ValueToken(s, name, start).value;
    var k := t.length;
    var x := s[..k] + b;
    if t.form == Quoted {
      RunInside(s, start + 1, k, b, Until(s[start]));
      HeadStays(s, k, b, start, start + 1, k - 1);
    } else {
      RunThrough(s, start, k, b, IsValueChar);
      NoValueRun(b);
      HeadStays(s, k, b, start, start, k);
    }
  }

  lemma HeadStays(s: string, k: nat, b: string, at: nat, from: nat, to: nat)
    requires at < k <= |s| && from <= to <= k
    ensures var x := s[..k] + b; x[at] == s[at] && x[from..to] == s[from..to]
  {
  }

  lemma NoValueRun(b: string)
    requires b == "" || IsSpace(b[0])
    ensures Run(b, IsValueChar) == 0
  {
  }

  function AfterSpace(s: string): string {
    s[Run(s, IsSpace)..]
  }

  lemma {:induction false} AttributesAfterSpace(p: Platform, s: string)
    ensures Attributes(p, AfterSpace(s)) == Attributes(p, s)
    decreases |s|
  {
    hide IsSpace, FirstToken;
    if s != "" && IsSpace(s[0]) {
      AttributesAfterSpace(p, s[1..]);
      assert AfterSpace(s) == AfterSpace(s[1..]);
    }
  }

  lemma BareShape(p: Platform, s: string)
    requires FirstToken(p, s).Some? && FirstToken(p, s).value.form == Bare
    ensures var n, t := Run(s, IsNameChar), FirstToken(p, s).value;
            0 < n <= t.length == EqualsAt(s) && t == Token(EqualsAt(s), p.lower(s[..n]), "", Bare) &&
            (n < t.length || !IsSpace(s[t.length - 1]))
  {
    hide Run, ValueToken;
    var n := Run(s, IsNameChar);
    assert n > 0 ==> IsNameChar(s[n - 1]);
  }

  lemma BareToken(p: Platform, s: string)
    requires Run(s, IsNameChar) > 0 && (EqualsAt(s) == |s| || s[EqualsAt(s)] != '=')
    ensures FirstToken(p, s) == Some(Token(EqualsAt(s), p.lower(s[..Run(s, IsNameChar)]), "", Bare))
  {
  }

  lemma EqualsThrough(s: string, k: nat, b: string)
    requires EqualsAt(s) == k <= |s| && Run(s[..k] + b, IsNameChar) == Run(s, IsNameChar)
    ensures var x := s[..k] + b;
            EqualsAt(x) == k + Run(b, IsSpace) &&
            if AfterSpace(b) == "" then EqualsAt(x) == |x| else EqualsAt(x) < |x| && x[EqualsAt(x)] == AfterSpace(b)[0]
  {
    hide IsNameChar, IsSpace, Run;
    RunThrough(s, Run(s, IsNameChar), k, b, IsSpace);
    DropInto(s[..k], b, Run(b, IsSpace));
  }

  lemma DropInto(a: string, b: string, r: nat)
    requires r <= |b|
    ensures if r == |b| then b[r..] == "" else (a + b)[|a| + r] == b[r..][0]
  {
  }

  /** A name without a value takes in the white space behind it. */
  lemma BareThen(p: Platform, s: string, b: string)
    requires FirstToken(p, s).Some? && FirstToken(p, s).value.form == Bare
    requires AfterSpace(b) == "" || AfterSpace(b)[0] != '='
    requires b == "" || !IsNameChar(b[0]) || IsSpace(s[FirstToken(p, s).value.length - 1])
    ensures var t := FirstToken(p, s).value;
            FirstToken(p, s[..t.length] + b) == Some(Token(t.length + Run(b, IsSpace), t.name, "", Bare))
  {
    hide IsNameChar, IsSpace, Run, FirstToken, EqualsAt, AfterSpace;
    BareShape(p, s);
    var t := FirstToken(p, s).value;
    var k, n := t.length, Run(s, IsNameChar);
    var x := s[..k] + b;
    NameBefore(s, k, b);
    EqualsThrough(s, k, b);
    BareToken(p, x);
  }

  lemma FirstIsName(p: Platform, s: string)
    requires FirstToken(p, s).Some?
    ensures s != "" && IsNameChar(s[0]) && !IsSpace(s[0]) && s[0] != '='
  {
  }

  /** Attributes of text that starts with a known attribute. */
  lemma AttributesOf(p: Platform, x: string, t: Token, b: string)
    requires FirstToken(p, x) == Some(t) && x[t.length..] == b
    ensures Attributes(p, x) == Prepend(Attr(t.name, Decode(p.resolve, t.raw)), Attributes(p, b))
  {
    FirstIsName(p, x);
  }

  // ----- a replacement in front of other text

  ghost predicate GoodPlatform(p: Platform) {
    GoodResolver(p.resolve) && forall name :: PlainName(name) ==> p.lower(name) == name
  }

  lemma PlainIsName(name: string)
    requires PlainName(name)
    ensures (forall c <- name :: IsNameChar(c)) && !IsSpace(name[0]) && name[0] !in "&=\"'"
  {
    assert name[0] in name;
  }

  lemma QuotedThen(p: Platform, name: string, raw: string, b: string)
    requires GoodPlatform(p) && PlainName(name) && '"' !in raw
    ensures var x := name + "=\"" + raw + "\"" + b;
            FirstToken(p, x) == Some(Token(|name| + |raw| + 3, name, raw, Quoted)) && x[|name| + |raw| + 3..] == b
  {
    hide IsNameChar, IsSpace, EqualsAt, ValueStart, ValueToken, Run, GoodResolver;
    var x := name + "=\"" + raw + "\"" + b;
    var rest := "\"" + raw + "\"" + b;
    PlainEquals(name, rest);
    assert Run(rest, IsSpace) == 0 by { QuoteIsNoSpace(); NoSpaceRun(rest); }
    assert x == name + ("=" + rest) && x[..|name|] == name && x[|name|] == '=' && x[|name| + 1..] == rest;
    ValuedToken(p, x);
    QuotedValue(x, name, |name| + 1, raw, b);
  }

  lemma QuoteIsNoSpace()
    ensures !IsSpace('"')
  {
  }

  lemma NoSpaceRun(b: string)
    requires b != "" && !IsSpace(b[0])
    ensures Run(b, IsSpace) == 0
  {
  }

  lemma PlainEquals(name: string, rest: string)
    requires PlainName(name)
    ensures var x := name + ("=" + rest);
            Run(x, IsNameChar) == |name| > 0 && EqualsAt(x) == |name| && ValueStart(x) == |name| + 1 + Run(rest, IsSpace)
  {
    hide Run;
    var x := name + ("=" + rest);
    PlainIsName(name);
    RunOf(name, "=" + rest, IsNameChar);
    assert x[|name|..] == "=" + rest && x[|name| + 1..] == rest;
    NoSpaceRun("=" + rest);
  }

  lemma QuotedValue(x: string, name: string, start: nat, raw: string, b: string)
    requires 0 < start <= |x| && x[start..] == "\"" + raw + "\"" + b && '"' !in raw
    ensures ValueToken(x, name, start) == Some(Token(start + |raw| + 2, name, raw, Quoted)) && x[start + |raw| + 2..] == b
  {
    assert x[start] == x[start..][0];
    assert x[start + 1..] == x[start..][1..] == raw + ("\"" + b);
    assert forall c <- raw :: NoDouble(c);
    RunOf(raw, "\"" + b, NoDouble);
    assert x[start + 1..start + 1 + |raw|] == x[start + 1..][..|raw|] == raw;
    assert x[start + |raw| + 2..] == x[start + 1..][|raw| + 1..];
  }

  /** A replacement is read back as the value that was put. */
  lemma ReplacementThen(p: Platform, name: string, value: string, b: string)
    requires GoodPlatform(p) && PlainName(name) && Replacement(name, value) != ""
    ensures Attributes(p, Replacement(name, value) + b) == Prepend(Attr(name, value), Attributes(p, b))
  {
    hide FirstToken, GoodResolver, EscapeAttribute, Decode, Attributes;
    var raw := EscapeAttribute(value);
    EscapedIsQuotable(value);
    DecodeInvertsEscape(p.resolve, value);
    QuotedThen(p, name, raw, b);
    assert Replacement(name, value) + b == name + "=\"" + raw + "\"" + b;
    AttributesOf(p, name + "=\"" + raw + "\"" + b, Token(|name| + |raw| + 3, name, raw, Quoted), b);
  }

  // ----- the additions

  ghost predicate GoodAdded(added: Values) {
    forall v <- added :: PlainName(v.0) && Replacement(v.0, v.1) != ""
  }

  function AddedAttrs(added: Values): seq<Attr> {
    if added == [] then [] else [Attr(added[0].0, added[0].1)] + AddedAttrs(added[1..])
  }

  lemma SpaceFirst(p: Platform, text: string)
    ensures Attributes(p, " " + text) == Attributes(p, text)
  {
    hide FirstToken;
    assert (" " + text)[1..] == text;
  }

  lemma NothingReadsBack(p: Platform)
    ensures Attributes(p, "") == Some([])
  {
  }

  lemma {:induction false} AddedReadsBack(p: Platform, added: Values)
    requires GoodPlatform(p) && GoodAdded(added)
    ensures Attributes(p, AddedText(added)) == Some(AddedAttrs(added))
  {
    if added != [] {
      hide FirstToken, GoodPlatform, Replacement, PlainName, Attributes;
      var (name, value) := added[0];
      assert added[0] in added && forall v <- added[1..] :: v in added;
      var rest := AddedText(added[1..]);
      AddedReadsBack(p, added[1..]);
      ReplacementThen(p, name, value, rest);
      var text := Replacement(name, value) + rest;
      assert AddedText(added) == " " + text;
      SpaceFirst(p, text);
    } else {
      NothingReadsBack(p);
    }
  }

  lemma AddedStarts(added: Values)
    requires GoodAdded(added) && added != []
    ensures |AddedText(added)| > 1 && AddedText(added)[0] == ' ' && 'a' <= AddedText(added)[1] <= 'z'
  {
    var (name, value) := added[0];
    assert added[0] in added && name[0] in name;
  }

  /** What is appended behind an equals sign becomes its value. */
  lemma OpenSwallows(p: Platform, s: string, tail: string)
    requires FirstToken(p, s).Some?
    requires var t := FirstToken(p, s).value; t.form == Unquoted && t.raw == "" && t.length == |s|
    requires |tail| > 1 && tail[0] == ' ' && 'a' <= tail[1] <= 'z'
    ensures Attributes(p, s + tail) == None ||
            (Attributes(p, s + tail).value != [] && Attributes(p, s + tail).value[0].value != "" &&
             Attributes(p, s + tail).value[0].name == FirstToken(p, s).value.name)
  {
    hide FirstToken, EqualsAt, ValueStart, ValueToken, Run, Decode;
    ValuedShape(p, s);
    var k := |s|;
    assert s[..k] == s;
    var x := s + tail;
    EqualsInside(s, k, tail);
    ValuedToken(p, x);
    SwallowingStart(s, tail);
    SwallowingValue(x, p.lower(x[..Run(x, IsNameChar)]), ValueStart(x));
    assert x[k + 1] == tail[1];
    if FirstToken(p, x).Some? {
      var t := FirstToken(p, x).value;
      DecodeKeepsFirst(p.resolve, t.raw);
      AttributesOf(p, x, t, x[t.length..]);
    }
  }

  lemma SwallowingStart(s: string, tail: string)
    requires EqualsAt(s) < |s| && EqualsAt(s + tail) == EqualsAt(s) && ValueStart(s) == |s|
    requires |tail| > 1 && tail[0] == ' ' && 'a' <= tail[1] <= 'z'
    ensures ValueStart(s + tail) == |s| + 1
  {
    hide EqualsAt, IsSpace, Run;
    assert s[..|s|] == s;
    RunThrough(s, EqualsAt(s) + 1, |s|, tail, IsSpace);
    AfterOneSpace(tail);
  }

  lemma SwallowingValue(x: string, name: string, start: nat)
    requires 0 < start < |x| && 'a' <= x[start] <= 'z'
    ensures var r := ValueToken(x, name, start); r.Some? && r.value.raw != "" && r.value.raw[0] == x[start]
  {
    assert x[start..][0] == x[start];
  }

  // ----- reading the rebuilt text

  /** The attributes a reader should find, in place of `parts`. */
  function Expected(parts: seq<Part>, values: Values, seen: set<string>): seq<Attr>
    decreases |parts|
  {
    if parts == [] then []
    else
      var part, rest := parts[0], Expected(parts[1..], values, seen + {parts[0].name});
      if !Names(values, part.name) then [Attr(part.name, part.value)] + rest
      else if part.name in seen || Replacement(part.name, Lookup(values, part.name)) == "" then rest
      else [Attr(part.name, Lookup(values, part.name))] + rest
  }

  /** The text ends in an attribute that is not patched and has an equals sign but no value. */
  predicate LastOpen(p: Platform, s: string, values: Values)
    decreases |s|
  {
    s != "" &&
    if IsSpace(s[0]) then LastOpen(p, s[1..], values)
    else
      match FirstToken(p, s)
      case None => false
      case Some(t) =>
        if t.length == |s| then t.form == Unquoted && t.raw == "" && !Names(values, t.name)
        else LastOpen(p, s[t.length..], values)
  }

  lemma PrependIs(a: Attr, rest: Option<seq<Attr>>, e: seq<Attr>)
    ensures Prepend(a, rest) == Some([a] + e) <==> rest == Some(e)
  {
    if rest.Some? && [a] + rest.value == [a] + e {
      assert ([a] + rest.value)[1..] == rest.value && ([a] + e)[1..] == e;
    }
  }

  lemma {:induction false} LookupPlain(values: Values, name: string)
    requires PlainValues(values) && Names(values, name)
    ensures PlainName(name)
  {
  }

  /** The rebuilt rest of the text never begins with an equals sign. */
  lemma {:induction false} RebuiltStarts(p: Platform, s: string, at: nat, values: Values, seen: set<string>, added: Values)
    requires PlainValues(values) && GoodAdded(added) && Parts(p, s, at).Some?
    ensures var r := AfterSpace(Rebuild(p, s, values, seen, AddedText(added))); r == "" || r[0] != '='
    ensures s != "" && IsSpace(s[0]) ==>
              var r := Rebuild(p, s, values, seen, AddedText(added)); r != "" && IsSpace(r[0])
    decreases |s|
  {
    hide FirstToken, PlainValues, Names, AddedText, Replacement, GoodAdded, Lookup;
    var tail := AddedText(added);
    if s == "" {
      if added == [] { NoAdditions(); } else { AddedStarts(added); AfterOneSpace(tail); }
    } else if IsSpace(s[0]) {
      RebuiltStarts(p, s[1..], at + 1, values, seen, added);
      var r := Rebuild(p, s[1..], values, seen, tail);
      assert ([s[0]] + r)[1..] == r;
      assert AfterSpace([s[0]] + r) == AfterSpace(r);
    } else {
      var t := FirstToken(p, s).value;
      RebuiltStarts(p, s[t.length..], at + t.length, values, seen + {t.name}, added);
      var text := Rewritten(values, seen, t.name, s[..t.length]);
      var r := Rebuild(p, s[t.length..], values, seen + {t.name}, tail);
      FirstIsName(p, s);
      if text == "" {
        assert text + r == r;
      } else {
        TextStarts(values, seen, t.name, s[..t.length]);
        assert (text + r)[0] == text[0];
        assert AfterSpace(text + r) == text + r;
      }
    }
  }

  lemma NoAdditions()
    ensures AddedText([]) == "" && AfterSpace("") == ""
  {
  }

  lemma AfterOneSpace(tail: string)
    requires |tail| > 1 && tail[0] == ' ' && 'a' <= tail[1] <= 'z'
    ensures Run(tail, IsSpace) == 1 && AfterSpace(tail) == tail[1..] && tail[1..][0] == tail[1] && IsSpace(tail[0])
  {
    assert tail[1..][0] == tail[1];
  }

  lemma TextStarts(values: Values, seen: set<string>, name: string, text: string)
    requires PlainValues(values) && Rewritten(values, seen, name, text) != ""
    requires text != "" && !IsSpace(text[0]) && text[0] != '='
    ensures var r := Rewritten(values, seen, name, text); !IsSpace(r[0]) && r[0] != '='
  {
    if Names(values, name) {
      LookupPlain(values, name);
      PlainIsName(name);
    }
  }

  lemma BareEnds(p: Platform, s: string)
    requires FirstToken(p, s).Some? && FirstToken(p, s).value.form == Bare && FirstToken(p, s).value.length < |s|
    ensures var k := FirstToken(p, s).value.length;
            !IsSpace(s[k]) && (IsNameChar(s[k]) ==> IsSpace(s[k - 1]))
  {
    hide FirstToken, IsSpace, IsNameChar;
    BareShape(p, s);
    EqualsStops(s);
  }

  lemma EqualsStops(s: string)
    ensures var n, e := Run(s, IsNameChar), EqualsAt(s);
            n <= e && (e < |s| ==> !IsSpace(s[e])) && (n < e ==> IsSpace(s[e - 1])) && (n < |s| ==> !IsNameChar(s[n]))
  {
    hide IsSpace, IsNameChar;
    var n := Run(s, IsNameChar);
    assert forall i :: 0 <= i < |s| - n ==> s[n..][i] == s[n + i];
  }

  lemma UnquotedEnds(p: Platform, s: string)
    requires FirstToken(p, s).Some? && FirstToken(p, s).value.form == Unquoted
    ensures var t := FirstToken(p, s).value;
            (t.length < |s| ==> IsSpace(s[t.length])) && (t.raw == "" ==> t.length == |s|)
  {
    hide FirstToken, IsSpace, Run;
    ValuedShape(p, s);
    var t, start := FirstToken(p, s).value, ValueStart(s);
    UnquotedStops(s, t.name, start);
    StartStops(s);
  }

  lemma UnquotedStops(s: string, name: string, start: nat)
    requires 0 < start <= |s| && ValueToken(s, name, start).Some? && ValueToken(s, name, start).value.form == Unquoted
    ensures var t := ValueToken(s, name, start).value; t.length < |s| ==> IsSpace(s[t.length])
  {
    hide IsSpace;
    var t := ValueToken(s, name, start).value;
    if t.length < |s| { assert s[start..][|t.raw|] == s[t.length]; }
  }

  lemma StartStops(s: string)
    requires EqualsAt(s) < |s|
    ensures ValueStart(s) < |s| ==> !IsSpace(s[ValueStart(s)])
  {
    hide IsSpace, EqualsAt;
    var e := EqualsAt(s);
    var n := Run(s[e + 1..], IsSpace);
    if e + 1 + n < |s| { assert s[e + 1..][n] == s[e + 1 + n]; }
  }

  /** An attribute that stays is read as before, unless it is open. */
  lemma KeptThen(p: Platform, s: string, at: nat, values: Values, seen: set<string>, added: Values)
    requires PlainValues(values) && GoodAdded(added) && FirstToken(p, s).Some?
    requires var t := FirstToken(p, s).value;
             Parts(p, s[t.length..], at).Some? && (t.form == Unquoted && t.raw == "" ==> added == [])
    ensures var t := FirstToken(p, s).value;
            var b := Rebuild(p, s[t.length..], values, seen, AddedText(added));
            Attributes(p, s[..t.length] + b) == Prepend(Attr(t.name, Decode(p.resolve, t.raw)), Attributes(p, b))
  {
    hide FirstToken, IsSpace, IsNameChar, Rebuild, Decode, Attributes, PlainValues, GoodAdded, AddedText;
    var t := FirstToken(p, s).value;
    var rest := s[t.length..];
    var b := Rebuild(p, rest, values, seen, AddedText(added));
    var x := s[..t.length] + b;
    RebuiltStarts(p, rest, at, values, seen, added);
    if rest == "" { RebuildNothing(p, values, seen, added); }
    if t.form == Bare {
      if rest != "" {
        BareEnds(p, s);
        assert rest[0] == s[t.length];
        RestIsName(p, rest, at);
      }
      BareThen(p, s, b);
      assert x[t.length + Run(b, IsSpace)..] == AfterSpace(b);
      AttributesOf(p, x, Token(t.length + Run(b, IsSpace), t.name, "", Bare), AfterSpace(b));
      AttributesAfterSpace(p, b);
      assert t.raw == "" by { BareShape(p, s); }
    } else {
      if t.form == Unquoted {
        UnquotedEnds(p, s);
        if rest != "" { assert rest[0] == s[t.length]; }
      }
      if t.form == Unquoted && t.raw == "" {
        assert x == s[..t.length] && s[..t.length] == s;
      } else {
        ValuedThen(p, s, b);
      }
      assert x[t.length..] == b;
      AttributesOf(p, x, t, b);
    }
  }

  lemma RestIsName(p: Platform, rest: string, at: nat)
    requires rest != "" && Parts(p, rest, at).Some? && !IsSpace(rest[0])
    ensures IsNameChar(rest[0])
  {
    hide IsSpace, FirstToken;
    FirstIsName(p, rest);
  }

  lemma RebuildNothing(p: Platform, values: Values, seen: set<string>, added: Values)
    requires GoodAdded(added)
    ensures var b := Rebuild(p, "", values, seen, AddedText(added));
            b == AddedText(added) && (b == "" <==> added == []) && (b != "" ==> IsSpace(b[0]) && !IsNameChar(b[0]))
  {
    if added != [] { AddedStarts(added); }
  }

  /** One attribute of the text, when everything behind it is settled. */
  lemma TokenReadsBack(p: Platform, s: string, at: nat, values: Values, seen: set<string>, added: Values, e: seq<Attr>)
    requires GoodPlatform(p) && PlainValues(values) && GoodAdded(added) && s != "" && !IsSpace(s[0]) && FirstToken(p, s).Some?
    requires var t := FirstToken(p, s).value; Parts(p, s[t.length..], at).Some?
    ensures var t := FirstToken(p, s).value;
            var b := Rebuild(p, s[t.length..], values, seen + {t.name}, AddedText(added));
            var own := if !Names(values, t.name) then [Attr(t.name, Decode(p.resolve, t.raw))]
                       else if t.name in seen || Replacement(t.name, Lookup(values, t.name)) == "" then []
                       else [Attr(t.name, Lookup(values, t.name))];
            Attributes(p, Rewritten(values, seen, t.name, s[..t.length]) + b) == Some(own + e) <==>
            Attributes(p, b) == Some(e) && !(added != [] && t.form == Unquoted && t.raw == "" && !Names(values, t.name))
  {
    hide FirstToken, IsSpace, Rebuild, Decode, Attributes, PlainValues, GoodAdded, AddedText, GoodPlatform, Names, Lookup, Replacement;
    var t := FirstToken(p, s).value;
    var b := Rebuild(p, s[t.length..], values, seen + {t.name}, AddedText(added));
    if !Names(values, t.name) {
      var a := Attr(t.name, Decode(p.resolve, t.raw));
      if added != [] && t.form == Unquoted && t.raw == "" {
        UnquotedEnds(p, s);
        AddedStarts(added);
        assert s[..t.length] == s && s[t.length..] == "";
        RebuildNothing(p, values, seen + {t.name}, added);
        OpenSwallows(p, s, AddedText(added));
        DecodeNothing(p.resolve);
        assert ([a] + e)[0] == a;
      } else {
        KeptThen(p, s, at, values, seen + {t.name}, added);
        PrependIs(a, Attributes(p, b), e);
      }
    } else if t.name in seen || Replacement(t.name, Lookup(values, t.name)) == "" {
      assert "" + b == b && [] + e == e;
    } else {
      LookupPlain(values, t.name);
      ReplacementThen(p, t.name, Lookup(values, t.name), b);
      PrependIs(Attr(t.name, Lookup(values, t.name)), Attributes(p, b), e);
    }
  }

  lemma DecodeNothing(resolve: Resolver)
    ensures Decode(resolve, "") == ""
  {
  }

  /** Rebuilt text reads back as expected, except behind an open end. */
  lemma {:induction false} ReadsBack(p: Platform, s: string, at: nat, values: Values, seen: set<string>, added: Values)
    requires GoodPlatform(p) && PlainValues(values) && GoodAdded(added) && Parts(p, s, at).Some?
    ensures Attributes(p, Rebuild(p, s, values, seen, AddedText(added))) ==
            Some(Expected(Parts(p, s, at).value, values, seen) + AddedAttrs(added)) <==>
            !(added != [] && LastOpen(p, s, values))
    decreases |s|
  {
    hide FirstToken, IsSpace, Decode, PlainValues, GoodAdded, AddedText, AddedAttrs, GoodPlatform, Names, Lookup, Replacement, Rewritten;
    if s == "" {
      AddedReadsBack(p, added);
      assert [] + AddedAttrs(added) == AddedAttrs(added);
    } else if IsSpace(s[0]) {
      ReadsBack(p, s[1..], at + 1, values, seen, added);
      var r := Rebuild(p, s[1..], values, seen, AddedText(added));
      assert ([s[0]] + r)[1..] == r;
    } else {
      var t := FirstToken(p, s).value;
      var to := at + t.length;
      var rest := Parts(p, s[t.length..], to).value;
      var part := Part(at, to, t.name, Decode(p.resolve, t.raw));
      assert Parts(p, s, at).value == [part] + rest && ([part] + rest)[1..] == rest;
      ReadsBack(p, s[t.length..], to, values, seen + {t.name}, added);
      var e := Expected(rest, values, seen + {t.name}) + AddedAttrs(added);
      TokenReadsBack(p, s, to, values, seen, added, e);
      ExpectedStep(part, rest, values, seen, AddedAttrs(added));
      if t.form == Unquoted && t.raw == "" { UnquotedEnds(p, s); }
      if t.length == |s| { assert s[t.length..] == "" && !LastOpen(p, "", values); }
    }
  }

  lemma ExpectedStep(part: Part, rest: seq<Part>, values: Values, seen: set<string>, more: seq<Attr>)
    ensures var own := if !Names(values, part.name) then [Attr(part.name, part.value)]
                       else if part.name in seen || Replacement(part.name, Lookup(values, part.name)) == "" then []
                       else [Attr(part.name, Lookup(values, part.name))];
            Expected([part] + rest, values, seen) + more == own + (Expected(rest, values, seen + {part.name}) + more)
  {
    hide Names, Replacement, Lookup;
    assert ([part] + rest)[1..] == rest;
  }

  // ----- the open end, as a caller can see it

  predicate NotEquals(c: char) {
    c != '='
  }

  /** An equals sign with nothing but white space behind it. */
  predicate Valueless(text: string) {
    var e := Run(text, NotEquals);
    e < |text| && Run(text[e + 1..], IsSpace) == |text| - e - 1
  }

  /** The last attribute reaches the end of the tag without a value, and is not patched. */
  predicate OpenEnd(source: string, parts: seq<Part>, end: nat, values: Values) {
    parts != [] &&
    var last := parts[|parts| - 1];
    last.from <= last.to == end <= |source| && !Names(values, last.name) && Valueless(source[last.from..last.to])
  }

  lemma {:induction false} RunIs(s: string, test: char -> bool, n: nat)
    requires n <= |s| && (forall i :: 0 <= i < n ==> test(s[i])) && (n < |s| ==> !test(s[n]))
    ensures Run(s, test) == n
  {
    if n > 0 { RunIs(s[1..], test, n - 1); }
  }

  lemma BeforeEquals(s: string)
    ensures var e := EqualsAt(s); forall i :: 0 <= i < e ==> s[i] != '='
  {
    var n, e := Run(s, IsNameChar), EqualsAt(s);
    forall i | 0 <= i < e ensures s[i] != '=' {
      if i >= n { assert s[n..][i - n] == s[i]; } else { assert IsNameChar(s[i]); }
    }
  }

  lemma ValuelessIff(p: Platform, s: string)
    requires FirstToken(p, s).Some? && FirstToken(p, s).value.length == |s|
    ensures var t := FirstToken(p, s).value; Valueless(s) <==> t.form == Unquoted && t.raw == ""
  {
    hide FirstToken, IsSpace, IsNameChar, ValueToken, EqualsAt, Run;
    var t, e := FirstToken(p, s).value, EqualsAt(s);
    BeforeEquals(s);
    if t.form == Bare {
      BareShape(p, s);
      RunIs(s, NotEquals, |s|);
    } else {
      ValuedShape(p, s);
      RunIs(s, NotEquals, e);
    }
  }

  lemma {:induction false} OpenEndIsLastOpen(p: Platform, source: string, at: nat, end: nat, values: Values)
    requires at <= end <= |source| && Parts(p, source[at..end], at).Some?
    ensures OpenEnd(source, Parts(p, source[at..end], at).value, end, values) <==> LastOpen(p, source[at..end], values)
    decreases end - at
  {
    hide FirstToken, IsSpace, Names, Valueless;
    var s := source[at..end];
    if s != "" {
      if IsSpace(s[0]) {
        assert s[1..] == source[at + 1..end];
        OpenEndIsLastOpen(p, source, at + 1, end, values);
      } else {
        var t := FirstToken(p, s).value;
        var to := at + t.length;
        assert s[t.length..] == source[to..end];
        OpenEndIsLastOpen(p, source, to, end, values);
        var rest := Parts(p, source[to..end], to).value;
        var part := Part(at, to, t.name, Decode(p.resolve, t.raw));
        var parts := [part] + rest;
        assert Parts(p, s, at).value == parts;
        if to == end {
          assert source[to..end] == "" && parts == [part];
          ValuelessIff(p, s);
        } else if rest == [] {
          assert parts[|parts| - 1] == part;
        } else {
          assert parts[|parts| - 1] == rest[|rest| - 1];
        }
      }
    }
  }

  // ----- the theorem

  lemma {:induction false} AddedIsGood(parts: seq<Part>, values: Values)
    requires PlainValues(values)
    ensures GoodAdded(Added(parts, values))
  {
    if values != [] {
      hide Has, Replacement;
      NamesInit(values, "");
      AddedIsGood(parts, values[..|values| - 1]);
    }
  }

  lemma ResultSplits(source: string, start: nat, end: nat, middle: string)
    requires start <= end <= |source|
    ensures var result := source[..start] + middle + source[end..];
            var stop := |result| - (|source| - end);
            start <= stop && stop == start + |middle| && result[..start] == source[..start] &&
            result[start..stop] == middle && result[stop..] == source[end..]
  {
  }

  /**
    After a patch nothing outside the tag's attributes has changed, and reading them again gives the patched
    values and leaves every other attribute as it was, in the same sequence, exactly unless something was
    appended behind an open end.
  */
  lemma PatchReadsBack(p: Platform, source: string, start: nat, end: nat, values: Values)
    requires GoodPlatform(p) && PlainValues(values)
    requires start <= end <= |source| && Parts(p, source[start..end], start).Some?
    ensures var parts := Parts(p, source[start..end], start).value;
            var result := Patched(source, parts, end, values);
            var stop := |result| - (|source| - end);
            start <= stop && result[..start] == source[..start] && result[stop..] == source[end..] &&
            var again := Parts(p, result[start..stop], start);
            (again.Some? && Stripped(again.value) == Expected(parts, values, {}) + AddedAttrs(Added(parts, values))) <==>
            !(Added(parts, values) != [] && OpenEnd(source, parts, end, values))
  {
    hide Parts, Patched, Expected, AddedAttrs, Added, OpenEnd, LastOpen, Rebuild, GoodPlatform, PlainValues, Attributes, AddedText, GoodAdded;
    var parts := Parts(p, source[start..end], start).value;
    var added := Added(parts, values);
    var middle := Rebuild(p, source[start..end], values, {}, AddedText(added));
    PatchedIsRebuilt(p, source, start, end, values);
    ResultSplits(source, start, end, middle);
    AddedIsGood(parts, values);
    ReadsBack(p, source[start..end], start, values, {}, added);
    OpenEndIsLastOpen(p, source, start, end, values);
    PartsStripped(p, middle, start);
  }

  /** What a reader of the tag takes for a name: its first value, or nothing. */
  function Get(attrs: seq<Attr>, name: string): string {
    if attrs == [] then "" else if attrs[0].name == name then attrs[0].value else Get(attrs[1..], name)
  }

  lemma GetBehind(a: Attr, rest: Option<seq<Attr>>, name: string)
    requires a.name != name
    ensures Prepend(a, rest).Some? <==> rest.Some?
    ensures rest.Some? ==> Get(Prepend(a, rest).value, name) == Get(rest.value, name)
  {
    if rest.Some? { assert ([a] + rest.value)[1..] == rest.value; }
  }

  /** One attribute of another name in front of a rebuilt rest hides nothing of `name`. */
  lemma GetPastToken(p: Platform, s: string, at: nat, values: Values, seen: set<string>, added: Values, name: string)
    requires GoodPlatform(p) && PlainValues(values) && GoodAdded(added) && s != "" && !IsSpace(s[0]) && FirstToken(p, s).Some?
    requires var t := FirstToken(p, s).value; Parts(p, s[t.length..], at).Some? && t.name != name && t.length < |s|
    ensures var t := FirstToken(p, s).value;
            var b := Rebuild(p, s[t.length..], values, seen + {t.name}, AddedText(added));
            var again := Attributes(p, Rewritten(values, seen, t.name, s[..t.length]) + b);
            (again.Some? <==> Attributes(p, b).Some?) && (again.Some? ==> Get(again.value, name) == Get(Attributes(p, b).value, name))
  {
    hide FirstToken, IsSpace, Rebuild, Decode, Attributes, PlainValues, GoodAdded, AddedText, GoodPlatform, Names, Lookup, Replacement, Get,
         Prepend;
    var t := FirstToken(p, s).value;
    var b := Rebuild(p, s[t.length..], values, seen + {t.name}, AddedText(added));
    if !Names(values, t.name) {
      if t.form == Unquoted { UnquotedEnds(p, s); }
      KeptThen(p, s, at, values, seen + {t.name}, added);
      GetBehind(Attr(t.name, Decode(p.resolve, t.raw)), Attributes(p, b), name);
    } else if t.name in seen || Replacement(t.name, Lookup(values, t.name)) == "" {
      assert "" + b == b;
    } else {
      LookupPlain(values, t.name);
      ReplacementThen(p, t.name, Lookup(values, t.name), b);
      GetBehind(Attr(t.name, Lookup(values, t.name)), Attributes(p, b), name);
    }
  }

  /** The open attribute, if no other has its name, is read with a value, where it had none. */
  lemma {:induction false} OpenShows(p: Platform, s: string, at: nat, values: Values, seen: set<string>, added: Values)
    requires GoodPlatform(p) && PlainValues(values) && GoodAdded(added) && added != [] && Parts(p, s, at).Some? && LastOpen(p, s, values)
    ensures var parts := Parts(p, s, at).value;
            parts != [] && parts[|parts| - 1].value == "" &&
            var name, again := parts[|parts| - 1].name, Attributes(p, Rebuild(p, s, values, seen, AddedText(added)));
            (forall i :: 0 <= i < |parts| - 1 ==> parts[i].name != name) && again.Some? ==> Get(again.value, name) != ""
    decreases |s|
  {
    hide FirstToken, IsSpace, Decode, PlainValues, GoodAdded, AddedText, GoodPlatform, Names, Lookup, Replacement, Rewritten, Get;
    if IsSpace(s[0]) {
      OpenShows(p, s[1..], at + 1, values, seen, added);
      var r := Rebuild(p, s[1..], values, seen, AddedText(added));
      assert ([s[0]] + r)[1..] == r;
    } else {
      var t := FirstToken(p, s).value;
      var to := at + t.length;
      var part := Part(at, to, t.name, Decode(p.resolve, t.raw));
      var rest := Parts(p, s[t.length..], to).value;
      assert Parts(p, s, at).value == [part] + rest;
      if t.length == |s| {
        LastShows(p, s, values, seen, added);
        assert s[t.length..] == "" && rest == [];
        DecodeNothing(p.resolve);
      } else {
        OpenShows(p, s[t.length..], to, values, seen + {t.name}, added);
        var name := rest[|rest| - 1].name;
        assert ([part] + rest)[|rest|] == rest[|rest| - 1] && forall i :: 0 <= i < |rest| - 1 ==> ([part] + rest)[i + 1] == rest[i];
        if t.name != name { GetPastToken(p, s, to, values, seen, added, name); }
        assert ([part] + rest)[0].name == t.name;
      }
    }
  }

  /** The last of the attributes, where no other has its name. */
  predicate LastIsOnly(parts: seq<Part>) {
    parts != [] && forall i :: 0 <= i < |parts| - 1 ==> parts[i].name != parts[|parts| - 1].name
  }

  lemma OpenEndShows(p: Platform, source: string, start: nat, end: nat, values: Values)
    requires GoodPlatform(p) && PlainValues(values)
    requires start <= end <= |source| && Parts(p, source[start..end], start).Some?
    requires var parts := Parts(p, source[start..end], start).value;
             LastIsOnly(parts) && Added(parts, values) != [] && OpenEnd(source, parts, end, values)
    ensures var parts := Parts(p, source[start..end], start).value;
            var result, last := Patched(source, parts, end, values), parts[|parts| - 1];
            var stop := |result| - (|source| - end);
            last.value == "" && start <= stop &&
            var again := Parts(p, result[start..stop], start);
            again.Some? ==> Get(Stripped(again.value), last.name) != ""
  {
    hide Parts, Patched, Added, OpenEnd, LastOpen, Rebuild, GoodPlatform, PlainValues, Attributes, AddedText, GoodAdded, Get;
    var parts := Parts(p, source[start..end], start).value;
    var added := Added(parts, values);
    var middle := Rebuild(p, source[start..end], values, {}, AddedText(added));
    PatchedIsRebuilt(p, source, start, end, values);
    ResultSplits(source, start, end, middle);
    AddedIsGood(parts, values);
    OpenEndIsLastOpen(p, source, start, end, values);
    OpenShows(p, source[start..end], start, values, {}, added);
    PartsStripped(p, middle, start);
  }

  lemma LastShows(p: Platform, s: string, values: Values, seen: set<string>, added: Values)
    requires GoodPlatform(p) && GoodAdded(added) && added != [] && s != "" && !IsSpace(s[0]) && FirstToken(p, s).Some?
    requires var t := FirstToken(p, s).value; t.length == |s| && t.form == Unquoted && t.raw == "" && !Names(values, t.name)
    ensures var t := FirstToken(p, s).value;
            var again := Attributes(p, Rebuild(p, s, values, seen, AddedText(added)));
            again.Some? ==> Get(again.value, t.name) != ""
  {
    hide FirstToken, IsSpace, Attributes, GoodAdded, AddedText, GoodPlatform, Names;
    var t := FirstToken(p, s).value;
    AddedStarts(added);
    assert s[..t.length] == s && s[t.length..] == "";
    RebuildNothing(p, values, seen + {t.name}, added);
    OpenSwallows(p, s, AddedText(added));
  }

  /** The attributes that are not patched. */
  function Others(attrs: seq<Attr>, values: Values): seq<Attr> {
    if attrs == [] then []
    else (if Names(values, attrs[0].name) then [] else [attrs[0]]) + Others(attrs[1..], values)
  }

  lemma GetOwn(own: seq<Attr>, rest: seq<Attr>, name: string)
    requires |own| <= 1
    ensures Get(own + rest, name) == if own != [] && own[0].name == name then own[0].value else Get(rest, name)
  {
    if own == [] { assert own + rest == rest; } else { assert (own + rest)[1..] == rest; }
  }

  lemma {:induction false} GetExpected(parts: seq<Part>, values: Values, seen: set<string>, more: seq<Attr>, name: string)
    requires Names(values, name)
    ensures Get(Expected(parts, values, seen) + more, name) ==
            if Has(parts, name) && name !in seen && Replacement(name, Lookup(values, name)) != "" then Lookup(values, name)
            else Get(more, name)
    decreases |parts|
  {
    hide Names, Lookup, Replacement, Get, Has;
    if parts == [] {
      assert [] + more == more;
      NothingHas(name);
    } else {
      var part, rest := parts[0], parts[1..];
      assert parts == [part] + rest;
      GetExpected(rest, values, seen + {part.name}, more, name);
      HasTail(parts, name);
      ExpectedStep(part, rest, values, seen, more);
      var own := if !Names(values, part.name) then [Attr(part.name, part.value)]
                 else if part.name in seen || Replacement(part.name, Lookup(values, part.name)) == "" then []
                 else [Attr(part.name, Lookup(values, part.name))];
      GetOwn(own, Expected(rest, values, seen + {part.name}) + more, name);
    }
  }

  lemma NothingHas(name: string)
    ensures !Has([], name)
  {
  }

  lemma HasTail(parts: seq<Part>, name: string)
    requires parts != []
    ensures Has(parts, name) <==> parts[0].name == name || Has(parts[1..], name)
  {
    assert parts == [parts[0]] + parts[1..];
  }

  lemma {:induction false} AddedAttrsAppend(added: Values, v: (string, string))
    ensures AddedAttrs(added + [v]) == AddedAttrs(added) + [Attr(v.0, v.1)]
  {
    if added == [] {
      assert [] + [v] == [v] && [v][1..] == [];
    } else {
      AddedAttrsAppend(added[1..], v);
      assert (added + [v])[1..] == added[1..] + [v];
    }
  }

  lemma {:induction false} GetLast(attrs: seq<Attr>, a: Attr, name: string)
    ensures Get(attrs + [a], name) ==
            if (exists x <- attrs :: x.name == name) then Get(attrs, name) else if a.name == name then a.value else ""
    ensures !(exists x <- attrs :: x.name == name) ==> Get(attrs, name) == ""
  {
    if attrs == [] {
      assert [] + [a] == [a] && [a][1..] == [];
    } else {
      GetLast(attrs[1..], a, name);
      assert (attrs + [a])[1..] == attrs[1..] + [a];
      assert attrs == [attrs[0]] + attrs[1..];
    }
  }

  lemma {:induction false} AddedNamed(parts: seq<Part>, values: Values, a: Attr)
    requires PlainValues(values) && a in AddedAttrs(Added(parts, values))
    ensures Names(values, a.name)
  {
    hide Has, PlainValues, Names, Replacement;
    if values != [] {
      var init, v := values[..|values| - 1], values[|values| - 1];
      NamesInit(values, a.name);
      AddedAttrsAppend(Added(parts, init), v);
      assert Added(parts, init) + [] == Added(parts, init);
      if a in AddedAttrs(Added(parts, init)) { AddedNamed(parts, init, a); }
    }
  }

  lemma {:induction false} GetAdded(parts: seq<Part>, values: Values, name: string)
    requires PlainValues(values)
    ensures Get(AddedAttrs(Added(parts, values)), name) ==
            if Names(values, name) && !Has(parts, name) then Lookup(values, name) else ""
  {
    hide Has, PlainValues, Names, Lookup, Get, AddedAttrs, Replacement;
    if values == [] {
      NothingNamed(name);
    } else {
      var init, v := values[..|values| - 1], values[|values| - 1];
      NamesInit(values, name);
      GetAdded(parts, init, name);
      var before := Added(parts, init);
      AddedAttrsAppend(before, v);
      GetLast(AddedAttrs(before), Attr(v.0, v.1), name);
      if x :| x in AddedAttrs(before) && x.name == name { AddedNamed(parts, init, x); }
      assert before + [] == before;
      EmptyReplacement(v.0, v.1);
    }
  }

  lemma EmptyReplacement(name: string, value: string)
    ensures Replacement(name, value) == "" ==> value == ""
  {
  }

  lemma NothingNamed(name: string)
    ensures !Names([], name) && Get(AddedAttrs([]), name) == ""
  {
  }

  lemma {:induction false} OthersConcat(a: seq<Attr>, b: seq<Attr>, values: Values)
    ensures Others(a + b, values) == Others(a, values) + Others(b, values)
  {
    hide Names;
    if a == [] {
      assert a + b == b;
    } else {
      OthersConcat(a[1..], b, values);
      assert (a + b)[1..] == a[1..] + b && (a + b)[0] == a[0];
      var own := if Names(values, a[0].name) then [] else [a[0]];
      assert Others(a + b, values) == own + Others(a[1..] + b, values);
      ConcatAssoc(own, Others(a[1..], values), Others(b, values));
    }
  }

  lemma {:induction false} NoOthers(attrs: seq<Attr>, values: Values)
    requires forall a <- attrs :: Names(values, a.name)
    ensures Others(attrs, values) == []
  {
    hide Names;
    if attrs != [] {
      assert attrs[0] in attrs && forall a <- attrs[1..] :: a in attrs;
      NoOthers(attrs[1..], values);
    }
  }

  lemma {:induction false} OthersExpected(parts: seq<Part>, values: Values, seen: set<string>)
    ensures Others(Expected(parts, values, seen), values) == Others(Stripped(parts), values)
    decreases |parts|
  {
    hide Names, Lookup, Replacement;
    if parts != [] {
      var part, rest := parts[0], parts[1..];
      OthersExpected(rest, values, seen + {part.name});
      assert ([Attr(part.name, part.value)] + Stripped(rest))[1..] == Stripped(rest);
    }
  }

  /** Put and get: every patched name has its new value, and the other attributes are the same. */
  lemma PutGet(parts: seq<Part>, values: Values, name: string)
    requires PlainValues(values)
    ensures var attrs := Expected(parts, values, {}) + AddedAttrs(Added(parts, values));
            (Names(values, name) ==> Get(attrs, name) == Lookup(values, name)) &&
            Others(attrs, values) == Others(Stripped(parts), values)
  {
    hide PlainValues, Names, Lookup, Get, Has, Expected, Added, AddedAttrs, Others;
    var added := AddedAttrs(Added(parts, values));
    if Names(values, name) { GetExpected(parts, values, {}, added, name); }
    GetAdded(parts, values, name);
    forall a | a in added ensures Names(values, a.name) { AddedNamed(parts, values, a); }
    OthersConcat(Expected(parts, values, {}), added, values);
    NoOthers(added, values);
    OthersExpected(parts, values, {});
  }

  lemma {:induction false} DecodePlain(resolve: Resolver, s: string)
    requires '&' !in s
    ensures Decode(resolve, s) == s
  {
    if s != "" {
      assert s[0] in s && forall c <- s[1..] :: c in s;
      DecodePlain(resolve, s[1..]);
    }
  }

  /** A plain name, white space and a value without quotes, which may be missing at the end. */
  lemma PlainToken(p: Platform, name: string, gap: string, raw: string, b: string)
    requires GoodPlatform(p) && PlainName(name) && (forall c <- gap :: IsSpace(c)) && (forall c <- raw :: IsValueChar(c))
    requires if raw == "" then b == "" else raw[0] != '"' && raw[0] != '\'' && (b == "" || IsSpace(b[0]))
    ensures FirstToken(p, name + ("=" + (gap + (raw + b)))) == Some(Token(|name| + 1 + |gap| + |raw|, name, raw, Unquoted))
  {
    hide IsSpace, IsNameChar, IsValueChar, Run, EqualsAt, ValueStart, ValueToken, FirstToken;
    var rest := gap + (raw + b);
    var s := name + ("=" + rest);
    PlainEquals(name, rest);
    ValueCharIsNoSpace(raw);
    if raw != "" { assert (raw + b)[0] == raw[0]; }
    RunOf(gap, raw + b, IsSpace);
    NameSlices(name, rest, |gap|);
    assert rest[|gap|..] == raw + b;
    ValuedToken(p, s);
    PlainValue(s, name, |name| + 1 + |gap|, raw, b);
  }

  lemma NameSlices(name: string, rest: string, n: nat)
    requires n <= |rest|
    ensures var s := name + ("=" + rest);
            |s| == |name| + 1 + |rest| && s[..|name|] == name && s[|name|] == '=' && s[|name| + 1 + n..] == rest[n..]
  {
  }

  lemma ValueCharIsNoSpace(raw: string)
    requires forall c <- raw :: IsValueChar(c)
    ensures raw == "" || !IsSpace(raw[0])
  {
    if raw != "" { assert raw[0] in raw; }
  }

  lemma PlainValue(x: string, name: string, start: nat, raw: string, b: string)
    requires 0 < start <= |x| && x[start..] == raw + b && (forall c <- raw :: IsValueChar(c))
    requires if raw == "" then b == "" else raw[0] != '"' && raw[0] != '\'' && (b == "" || IsSpace(b[0]))
    ensures ValueToken(x, name, start) == Some(Token(start + |raw|, name, raw, Unquoted))
  {
    hide IsSpace;
    if raw != "" { assert x[start] == x[start..][0] == raw[0]; }
    RunOf(raw, b, IsValueChar);
    assert x[start..start + |raw|] == x[start..][..|raw|] == raw;
  }

  lemma SrcAttributes(p: Platform, gap: string, raw: string)
    requires GoodPlatform(p) && (forall c <- gap :: IsSpace(c)) && (forall c <- raw :: IsValueChar(c)) && '&' !in raw
    requires raw != "" ==> raw[0] != '"' && raw[0] != '\''
    ensures Attributes(p, "src" + ("=" + (gap + raw))) == Some([Attr("src", raw)])
  {
    hide FirstToken, IsSpace, IsValueChar, GoodPlatform, Attributes, Decode;
    var s := "src" + ("=" + (gap + raw));
    assert PlainName("src") && raw + "" == raw;
    PlainToken(p, "src", gap, raw, "");
    DecodePlain(p.resolve, raw);
    assert |s| == 4 + |gap| + |raw| && s[|s|..] == "";
    AttributesOf(p, s, Token(|s|, "src", raw, Unquoted), "");
    NothingReadsBack(p);
    assert [Attr("src", raw)] + [] == [Attr("src", raw)];
  }

  lemma AltAddition(parts: seq<Part>)
    requires !Has(parts, "alt")
    ensures Added(parts, [("alt", "a")]) == [("alt", "a")] && AddedText([("alt", "a")]) == " alt=\"a\""
  {
    hide EscapeAttribute;
    EscapeOne('a');
    var v := [("alt", "a")];
    assert v[..0] == [] && v[1..] == [] && Added(parts, []) == [] && AddedText([]) == "";
    assert Replacement("alt", "a") == "alt=\"a\"";
  }

  /** A concrete open end: appending `alt` behind `src=` makes it the value of `src`. */
  lemma OpenEndExample(p: Platform)
    requires GoodPlatform(p)
    ensures Attributes(p, "src= ") == Some([Attr("src", "")])
    ensures Parts(p, "src= ", 0) == Some([Part(0, 5, "src", "")])
    ensures Patched("src= ", [Part(0, 5, "src", "")], 5, [("alt", "a")]) == "src=  alt=\"a\""
    ensures Attributes(p, "src=  alt=\"a\"") == Some([Attr("src", "alt=\"a\"")])
  {
    hide FirstToken, Attributes, GoodPlatform, Patched, Added, AddedText, Has;
    var parts := [Part(0, 5, "src", "")];
    SrcAttributes(p, " ", "");
    assert "src" + ("=" + (" " + "")) == "src= ";
    SrcAttributes(p, "  ", "alt=\"a\"");
    assert "src" + ("=" + ("  " + "alt=\"a\"")) == "src=  alt=\"a\"";
    assert PlainName("src") && "src" + ("=" + (" " + ("" + ""))) == "src= ";
    PlainToken(p, "src", " ", "", "");
    DecodeNothing(p.resolve);
    NoParts(p, 5);
    assert "src= "[5..] == "" && parts + [] == parts;
    assert !IsSpace("src= "[0]);
    assert Parts(p, "src= ", 0) == Some(parts);
    assert !Has(parts, "alt") by { HasTail(parts, "alt"); assert parts[1..] == []; NothingHas("alt"); }
    AltAddition(parts);
    ExamplePatch(p, parts);
  }

  lemma NoParts(p: Platform, at: nat)
    ensures Parts(p, "", at) == Some([])
  {
  }

  lemma ExamplePatch(p: Platform, parts: seq<Part>)
    requires FirstToken(p, "src= ") == Some(Token(5, "src", "", Unquoted)) && Parts(p, "src= ", 0) == Some(parts)
    requires Added(parts, [("alt", "a")]) == [("alt", "a")] && AddedText([("alt", "a")]) == " alt=\"a\""
    ensures Patched("src= ", parts, 5, [("alt", "a")]) == "src=  alt=\"a\""
  {
    hide FirstToken, Patched, Added, AddedText, Parts;
    var s, v := "src= ", [("alt", "a")];
    assert s[0..5] == s && s[..0] == "" && s[5..] == "" && s[..5] == s;
    PatchedIsRebuilt(p, s, 0, 5, v);
    assert Rebuild(p, "", v, {} + {"src"}, " alt=\"a\"") == " alt=\"a\"";
    assert Rewritten(v, {}, "src", s) == s;
    assert !IsSpace(s[0]);
    assert "src= " + " alt=\"a\"" == "src=  alt=\"a\"";
  }
}

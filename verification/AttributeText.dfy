/**
  Attribute values: escaping, and decoding with character references. What one reference stands for
  is a parameter (`resolve`); which characters form a reference is decided here.
*/
module AttributeText {
  import opened Decimal

  type Resolver = string -> string

  /** The references that escaping writes mean the characters it replaced. */
  ghost predicate GoodResolver(resolve: Resolver) {
    resolve("&amp;") == "&" && resolve("&quot;") == "\"" && resolve("&lt;") == "<" && resolve("&gt;") == ">" &&
    resolve("&#13;") == "\r" && resolve("&#10;") == "\n"
  }

  /** How many leading characters pass the test. */
  function Run(s: string, test: char -> bool): (n: nat)
    ensures n <= |s| && (n < |s| ==> !test(s[n])) && forall i :: 0 <= i < n ==> test(s[i])
  {
    if s != "" && test(s[0]) then 1 + Run(s[1..], test) else 0
  }

  lemma {:induction false} RunConcat(a: string, b: string, test: char -> bool)
    requires forall c <- a :: test(c)
    ensures Run(a + b, test) == |a| + Run(b, test)
  {
    if a == "" {
      assert a + b == b;
    } else {
      assert a[0] in a && (a + b)[1..] == a[1..] + b;
      RunConcat(a[1..], b, test);
    }
  }

  lemma {:induction false} RunStops(a: string, b: string, test: char -> bool)
    requires Run(a, test) < |a|
    ensures Run(a + b, test) == Run(a, test)
  {
    if test(a[0]) {
      assert (a + b)[1..] == a[1..] + b;
      RunStops(a[1..], b, test);
    }
  }

  lemma RunOf(a: string, b: string, test: char -> bool)
    requires (forall c <- a :: test(c)) && (b == "" || !test(b[0]))
    ensures Run(a + b, test) == |a|
  {
    RunConcat(a, b, test);
  }

  // ----- escaping

  /** `replace(/c/g, with)` */
  function ReplaceAll(s: string, c: char, with: string): string {
    if s == "" then "" else (if s[0] == c then with else [s[0]]) + ReplaceAll(s[1..], c, with)
  }

  function EscapeAttribute(value: string): string {
    ReplaceAll(
      ReplaceAll(
        ReplaceAll(
          ReplaceAll(
            ReplaceAll(
              ReplaceAll(value, '&', "&amp;"),
              '"', "&quot;"),
            '<', "&lt;"),
          '>', "&gt;"),
        '\r', "&#13;"),
      '\n', "&#10;")
  }

  /** What one character becomes. */
  function EscapeChar(c: char): string {
    if c == '&' then "&amp;"
    else if c == '"' then "&quot;"
    else if c == '<' then "&lt;"
    else if c == '>' then "&gt;"
    else if c == '\r' then "&#13;"
    else if c == '\n' then "&#10;"
    else [c]
  }

  function EscapeEach(value: string): string {
    if value == "" then "" else EscapeChar(value[0]) + EscapeEach(value[1..])
  }

  lemma {:induction false} ReplaceConcat(a: string, b: string, c: char, with: string)
    ensures ReplaceAll(a + b, c, with) == ReplaceAll(a, c, with) + ReplaceAll(b, c, with)
  {
    if a == "" {
      assert a + b == b;
    } else {
      assert (a + b)[1..] == a[1..] + b;
      ReplaceConcat(a[1..], b, c, with);
    }
  }

  lemma {:induction false} ReplaceNothing(s: string, c: char, with: string)
    requires c !in s
    ensures ReplaceAll(s, c, with) == s
  {
    if s != "" {
      assert s[0] in s && forall x <- s[1..] :: x in s;
      ReplaceNothing(s[1..], c, with);
    }
  }

  lemma ReplaceOne(x: char, c: char, with: string)
    ensures ReplaceAll([x], c, with) == if x == c then with else [x]
  {
    assert [x][1..] == "" && ReplaceAll("", c, with) == "";
  }

  lemma EscapeConcat(a: string, b: string)
    ensures EscapeAttribute(a + b) == EscapeAttribute(a) + EscapeAttribute(b)
  {
    hide ReplaceAll;
    ReplaceConcat(a, b, '&', "&amp;");
    var a1, b1 := ReplaceAll(a, '&', "&amp;"), ReplaceAll(b, '&', "&amp;");
    ReplaceConcat(a1, b1, '"', "&quot;");
    var a2, b2 := ReplaceAll(a1, '"', "&quot;"), ReplaceAll(b1, '"', "&quot;");
    ReplaceConcat(a2, b2, '<', "&lt;");
    var a3, b3 := ReplaceAll(a2, '<', "&lt;"), ReplaceAll(b2, '<', "&lt;");
    ReplaceConcat(a3, b3, '>', "&gt;");
    var a4, b4 := ReplaceAll(a3, '>', "&gt;"), ReplaceAll(b3, '>', "&gt;");
    ReplaceConcat(a4, b4, '\r', "&#13;");
    ReplaceConcat(ReplaceAll(a4, '\r', "&#13;"), ReplaceAll(b4, '\r', "&#13;"), '\n', "&#10;");
  }

  lemma EscapeOne(c: char)
    ensures EscapeAttribute([c]) == EscapeChar(c)
  {
    hide ReplaceAll;
    ReplaceOne(c, '&', "&amp;");
    var s1 := if c == '&' then "&amp;" else [c];
    if c == '"' { ReplaceOne(c, '"', "&quot;"); } else { ReplaceNothing(s1, '"', "&quot;"); }
    var s2 := if c == '"' then "&quot;" else s1;
    if c == '<' { ReplaceOne(c, '<', "&lt;"); } else { ReplaceNothing(s2, '<', "&lt;"); }
    var s3 := if c == '<' then "&lt;" else s2;
    if c == '>' { ReplaceOne(c, '>', "&gt;"); } else { ReplaceNothing(s3, '>', "&gt;"); }
    var s4 := if c == '>' then "&gt;" else s3;
    if c == '\r' { ReplaceOne(c, '\r', "&#13;"); } else { ReplaceNothing(s4, '\r', "&#13;"); }
    var s5 := if c == '\r' then "&#13;" else s4;
    if c == '\n' { ReplaceOne(c, '\n', "&#10;"); } else { ReplaceNothing(s5, '\n', "&#10;"); }
  }

  /** The six passes, one after the other, amount to replacing each character once. */
  lemma {:induction false} EscapeIsCharwise(value: string)
    ensures EscapeAttribute(value) == EscapeEach(value)
  {
    if value != "" {
      hide EscapeAttribute, EscapeChar;
      EscapeConcat([value[0]], value[1..]);
      assert value == [value[0]] + value[1..];
      EscapeOne(value[0]);
      EscapeIsCharwise(value[1..]);
    }
  }

  /** Nothing that could end a quoted value or a tag is left. */
  lemma {:induction false} EscapedIsQuotable(value: string)
    ensures forall c <- EscapeAttribute(value) :: c != '"' && c != '<' && c != '>' && c != '\r' && c != '\n'
  {
    EscapeIsCharwise(value);
    EachIsQuotable(value);
  }

  lemma {:induction false} EachIsQuotable(value: string)
    ensures forall c <- EscapeEach(value) :: c != '"' && c != '<' && c != '>' && c != '\r' && c != '\n'
  {
    if value != "" { EachIsQuotable(value[1..]); }
  }

  // ----- decoding

  predicate IsHex(c: char) {
    '0' <= c <= '9' || 'a' <= c <= 'f' || 'A' <= c <= 'F'
  }

  predicate IsLetter(c: char) {
    'a' <= c <= 'z' || 'A' <= c <= 'Z'
  }

  predicate IsAlphanumeric(c: char) {
    IsLetter(c) || IsDigit(c)
  }

  /** The length of the character reference that `s` starts with, or 0. */
  function ReferenceLength(s: string): (n: nat)
    ensures n <= |s|
  {
    if |s| < 2 || s[0] != '&' then 0
    else if s[1] == '#' && |s| > 2 && (s[2] == 'x' || s[2] == 'X') then Terminated(s, 3, Run(s[3..], IsHex))
    else if s[1] == '#' then Terminated(s, 2, Run(s[2..], IsDigit))
    else if IsLetter(s[1]) then Terminated(s, 2, Run(s[2..], IsAlphanumeric))
    else 0
  }

  /** `n` characters from `from` on and a semicolon. */
  function Terminated(s: string, from: nat, n: nat): (length: nat)
    requires from + n <= |s|
    ensures length <= |s|
  {
    if n > 0 && from + n < |s| && s[from + n] == ';' then from + n + 1 else 0
  }

  function Decode(resolve: Resolver, s: string): string
    decreases |s|
  {
    if s == "" then ""
    else
      var n := ReferenceLength(s);
      if n > 0 then resolve(s[..n]) + Decode(resolve, s[n..]) else [s[0]] + Decode(resolve, s[1..])
  }

  lemma NamedReference(name: string, rest: string)
    requires |name| >= 2 && forall c <- name :: IsLetter(c)
    ensures ReferenceLength("&" + name + ";" + rest) == |name| + 2
  {
    var s := "&" + name + ";" + rest;
    assert s[1] == name[0] && name[0] in name;
    assert s[2..] == name[1..] + (";" + rest);
    assert forall c <- name[1..] :: c in name && IsAlphanumeric(c);
    RunOf(name[1..], ";" + rest, IsAlphanumeric);
    assert s[|name| + 1] == ';';
  }

  lemma NumericReference(digits: string, rest: string)
    requires digits != "" && forall c <- digits :: IsDigit(c)
    ensures ReferenceLength("&#" + digits + ";" + rest) == |digits| + 3
  {
    var s := "&#" + digits + ";" + rest;
    assert s[2] == digits[0] && digits[0] in digits;
    assert s[2..] == digits + (";" + rest);
    RunOf(digits, ";" + rest, IsDigit);
    assert s[|digits| + 2] == ';';
  }

  lemma EscapedReference(c: char, rest: string)
    ensures ReferenceLength(EscapeChar(c) + rest) == if |EscapeChar(c)| == 1 then 0 else |EscapeChar(c)|
  {
    hide ReferenceLength;
    if c == '&' {
      NamedReference("amp", rest);
      assert "&amp;" == "&" + "amp" + ";";
    } else if c == '"' {
      NamedReference("quot", rest);
      assert "&quot;" == "&" + "quot" + ";";
    } else if c == '<' {
      NamedReference("lt", rest);
      assert "&lt;" == "&" + "lt" + ";";
    } else if c == '>' {
      NamedReference("gt", rest);
      assert "&gt;" == "&" + "gt" + ";";
    } else if c == '\r' {
      NumericReference("13", rest);
      assert "&#13;" == "&#" + "13" + ";";
    } else if c == '\n' {
      NumericReference("10", rest);
      assert "&#10;" == "&#" + "10" + ";";
    } else {
      OrdinaryCharacter(c, rest);
    }
  }

  lemma OrdinaryCharacter(c: char, rest: string)
    requires c != '&'
    ensures ReferenceLength([c] + rest) == 0
  {
  }

  /** Decoding takes back what escaping did, for every value. */
  lemma {:induction false} DecodeInvertsEscape(resolve: Resolver, value: string)
    requires GoodResolver(resolve)
    ensures Decode(resolve, EscapeAttribute(value)) == value
  {
    EscapeIsCharwise(value);
    DecodeEach(resolve, value);
  }

  lemma ResolveEscaped(resolve: Resolver, c: char)
    requires GoodResolver(resolve)
    ensures |EscapeChar(c)| > 0
    ensures if |EscapeChar(c)| == 1 then EscapeChar(c) == [c] else resolve(EscapeChar(c)) == [c]
  {
  }

  lemma {:induction false} DecodeEach(resolve: Resolver, value: string)
    requires GoodResolver(resolve)
    ensures Decode(resolve, EscapeEach(value)) == value
  {
    if value != "" {
      hide ReferenceLength, EscapeChar, GoodResolver;
      var c, rest := value[0], EscapeEach(value[1..]);
      var e := EscapeChar(c);
      EscapedReference(c, rest);
      ResolveEscaped(resolve, c);
      assert (e + rest)[..|e|] == e && (e + rest)[|e|..] == rest && (e + rest)[0] == e[0];
      DecodeEach(resolve, value[1..]);
      assert value == [c] + value[1..];
    }
  }

  /** Text that does not begin with a reference does not vanish. */
  lemma DecodeKeepsFirst(resolve: Resolver, s: string)
    requires s != "" && s[0] != '&'
    ensures Decode(resolve, s) != ""
  {
  }
}

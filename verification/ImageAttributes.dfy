/**
  Editing the attributes of an HTML image in place: reading them with their places in the source,
  patching some, and reading them again.
*/
module ImageAttributes {
  import opened Basics
  import opened WhiteSpace
  import opened AttributeText
  import Sorting

  /** `resolve` expands character references and `lower` is toLowerCase. */
  datatype Platform = Platform(resolve: Resolver, lower: string -> string)

  datatype Part = Part(from: nat, to: nat, name: string, value: string)

  datatype Attr = Attr(name: string, value: string)

  // ----- one attribute

  predicate IsNameChar(c: char) {
    !IsSpace(c) && c !in "=/'\"<>`"
  }

  predicate IsValueChar(c: char) {
    !IsSpace(c)
  }

  predicate NoDouble(c: char) {
    c != '"'
  }

  predicate NoSingle(c: char) {
    c != '\''
  }

  function Until(quote: char): char -> bool {
    if quote == '"' then NoDouble else NoSingle
  }

  datatype Form = Bare | Unquoted | Quoted

  /** `raw` is the value as written. */
  datatype Token = Token(length: nat, name: string, raw: string, form: Form)

  /** Behind the name and its white space. */
  function EqualsAt(s: string): (n: nat)
    ensures n <= |s|
  {
    var n := Run(s, IsNameChar);
    n + Run(s[n..], IsSpace)
  }

  /** Behind the equals sign and its white space. */
  function ValueStart(s: string): (n: nat)
    requires EqualsAt(s) < |s|
    ensures EqualsAt(s) < n <= |s|
  {
    var e := EqualsAt(s);
    e + 1 + Run(s[e + 1..], IsSpace)
  }

  /** The value from `start` on, for an attribute that `s` starts with. */
  function ValueToken(s: string, name: string, start: nat): (r: Option<Token>)
    requires 0 < start <= |s|
    ensures r.Some? ==> start <= r.value.length <= |s| && r.value.name == name && r.value.form != Bare
    ensures r.Some? ==> r.value.length == start + |r.value.raw| + (if r.value.form == Quoted then 2 else 0)
  {
    if start < |s| && (s[start] == '"' || s[start] == '\'') then
      var m := Run(s[start + 1..], Until(s[start]));
      if start + 1 + m == |s| then None
      else Some(Token(start + m + 2, name, s[start + 1..start + 1 + m], Quoted))
    else
      var m := Run(s[start..], IsValueChar);
      Some(Token(start + m, name, s[start..start + m], Unquoted))
  }

  /** The attribute that `s` starts with; None where the source gives up. */
  function FirstToken(p: Platform, s: string): (r: Option<Token>)
    ensures r.Some? ==> 0 < r.value.length <= |s|
  {
    var n, equals := Run(s, IsNameChar), EqualsAt(s);
    if n == 0 then None
    else if equals == |s| || s[equals] != '=' then Some(Token(equals, p.lower(s[..n]), "", Bare))
    else ValueToken(s, p.lower(s[..n]), ValueStart(s))
  }

  /** `found` is in front of what the rest gives, if it gives anything. */
  function Behind(found: seq<Part>, rest: Option<seq<Part>>): Option<seq<Part>> {
    if rest.None? then None else Some(found + rest.value)
  }

  /** All attributes of `s`, which starts at offset `at` of the source. */
  function Parts(p: Platform, s: string, at: nat): Option<seq<Part>>
    decreases |s|
  {
    if s == "" then Some([])
    else if IsSpace(s[0]) then Parts(p, s[1..], at + 1)
    else
      match FirstToken(p, s)
      case None => None
      case Some(t) =>
        Behind([Part(at, at + t.length, t.name, Decode(p.resolve, t.raw))], Parts(p, s[t.length..], at + t.length))
  }

  lemma BehindNothing(rest: Option<seq<Part>>)
    ensures Behind([], rest) == rest
  {
    if rest.Some? { assert [] + rest.value == rest.value; }
  }

  lemma BehindOne(found: seq<Part>, part: Part, rest: Option<seq<Part>>)
    ensures Behind(found + [part], rest) == Behind(found, Behind([part], rest))
  {
    if rest.Some? { assert found + [part] + rest.value == found + ([part] + rest.value); }
  }

  lemma SliceOfSlice(s: string, from: nat, end: nat, a: nat, b: nat)
    requires from <= a <= b <= end <= |s|
    ensures s[from..end][a - from..b - from] == s[a..b]
  {
    var inner := s[from..end];
    forall i | 0 <= i < b - a ensures inner[a - from..b - from][i] == s[a..b][i] {
      assert inner[a - from + i] == s[a + i];
    }
  }

  method SkipWhile(source: string, start: nat, end: nat, test: char -> bool) returns (position: nat)
    requires start <= end <= |source|
    ensures position == start + Run(source[start..end], test)
  {
    position := start;
    while position < end && test(source[position])
      invariant start <= position <= end
      invariant start + Run(source[start..end], test) == position + Run(source[position..end], test)
    {
      assert source[position..end][1..] == source[position + 1..end];
      position := position + 1;
    }
  }

  /** One turn of the loop, past the white space: the name, then perhaps a value. */
  method ReadToken(p: Platform, source: string, from: nat, end: nat) returns (token: Option<Token>)
    requires from < end <= |source| && (end == |source| || source[end] != '=')
    ensures token == FirstToken(p, source[from..end])
  {
    hide IsNameChar, IsSpace, ValueToken, Run, EqualsAt, ValueStart;
    ghost var s := source[from..end];
    var position := SkipWhile(source, from, end, IsNameChar);
    if position == from {
      return None;
    }
    var name := p.lower(source[from..position]);
    SliceTail(source, from, end, position);
    position := SkipWhile(source, position, end, IsSpace);
    NameEnds(s);
    token := ReadBehindName(source, from, position, end, name);
  }

  /** From the place where an equals sign may stand. */
  method ReadBehindName(source: string, from: nat, equals: nat, end: nat, name: string) returns (token: Option<Token>)
    requires from < end <= |source| && (end == |source| || source[end] != '=') && from < equals == from + EqualsAt(source[from..end])
    ensures var s := source[from..end];
            token == if EqualsAt(s) == |s| || s[EqualsAt(s)] != '=' then Some(Token(EqualsAt(s), name, "", Bare))
                     else ValueToken(s, name, ValueStart(s))
  {
    hide IsSpace, ValueToken, Run, EqualsAt, ValueStart;
    ghost var s := source[from..end];
    SliceTail(source, from, end, equals);
    if equals == |source| || source[equals] != '=' {
      return Some(Token(equals - from, name, "", Bare));
    }
    SliceTail(source, from, end, equals + 1);
    var position := SkipWhile(source, equals + 1, end, IsSpace);
    ValueBegins(s);
    token := ReadValue(source, from, position, end, name);
  }

  lemma SliceTail(source: string, from: nat, end: nat, k: nat)
    requires from <= k <= end <= |source|
    ensures var s := source[from..end];
            s[..k - from] == source[from..k] && s[k - from..] == source[k..end] && (k < end ==> s[k - from] == source[k])
  {
  }

  lemma NameEnds(s: string)
    ensures EqualsAt(s) == Run(s, IsNameChar) + Run(s[Run(s, IsNameChar)..], IsSpace)
  {
  }

  lemma ValueBegins(s: string)
    requires EqualsAt(s) < |s|
    ensures ValueStart(s) == EqualsAt(s) + 1 + Run(s[EqualsAt(s) + 1..], IsSpace)
  {
  }

  method ReadValue(source: string, from: nat, start: nat, end: nat, name: string) returns (token: Option<Token>)
    requires from < start <= end <= |source|
    ensures token == ValueToken(source[from..end], name, start - from)
  {
    hide IsSpace, IsValueChar, Until, Run;
    ghost var s := source[from..end];
    var position := start;
    if position < end && (source[position] == '"' || source[position] == '\'') {
      var quote := source[position];
      position := position + 1;
      var valueStart := position;
      assert s[position - from..] == source[position..end];
      position := SkipWhile(source, position, end, Until(quote));
      if position == end {
        return None;
      }
      SliceOfSlice(source, from, end, valueStart, position);
      return Some(Token(position + 1 - from, name, source[valueStart..position], Quoted));
    } else {
      assert s[position - from..] == source[position..end];
      position := SkipWhile(source, position, end, IsValueChar);
      SliceOfSlice(source, from, end, start, position);
      return Some(Token(position - from, name, source[start..position], Unquoted));
    }
  }

  /** The character behind the attributes closes the tag, so it is no equals sign. */
  method HtmlAttributes(p: Platform, source: string, start: nat, end: nat) returns (parts: Option<seq<Part>>)
    requires start <= end <= |source| && (end == |source| || source[end] != '=')
    ensures parts == Parts(p, source[start..end], start)
  {
    hide FirstToken, IsSpace;
    var found: seq<Part> := [];
    var position := start;
    BehindNothing(Parts(p, source[start..end], start));
    while position < end
      invariant start <= position <= end
      invariant Parts(p, source[start..end], start) ==
                Behind(found, Parts(p, source[position..end], position))
      decreases end - position
    {
      ghost var s := source[position..end];
      assert s[1..] == source[position + 1..end] && s[0] == source[position];
      if IsSpace(source[position]) {
        position := position + 1;
        continue;
      }
      var from := position;
      var token := ReadToken(p, source, from, end);
      if token.None? {
        return None;
      }
      position := from + token.value.length;
      assert s[token.value.length..] == source[position..end];
      var part := Part(from, position, token.value.name, Decode(p.resolve, token.value.raw));
      BehindOne(found, part, Parts(p, source[position..end], position));
      found := found + [part];
    }
    assert source[position..end] == "" && found + [] == found;
    return Some(found);
  }

  // ----- patching

  type Values = seq<(string, string)>

  predicate Names(values: Values, name: string) {
    exists v <- values :: v.0 == name
  }

  /** What the record says for a name it has. */
  function Lookup(values: Values, name: string): (value: string)
    requires Names(values, name)
  {
    var v := values[|values| - 1];
    if v.0 == name then v.1
    else
      assert forall v <- values :: v in values[..|values| - 1] || v == values[|values| - 1];
      Lookup(values[..|values| - 1], name)
  }

  /** An emptied attribute is removed, except `alt`. */
  function Replacement(name: string, value: string): string {
    if value == "" && name != "alt" then "" else name + "=\"" + EscapeAttribute(value) + "\""
  }

  datatype Edit = Edit(from: nat, to: nat, value: string)

  /** The first attribute of the name gets the replacement, later ones go. */
  function MatchEdits(parts: seq<Part>, name: string, replacement: string): seq<Edit> {
    if parts == [] then []
    else if parts[0].name == name then
      [Edit(parts[0].from, parts[0].to, replacement)] + MatchEdits(parts[1..], name, "")
    else MatchEdits(parts[1..], name, replacement)
  }

  predicate Has(parts: seq<Part>, name: string) {
    exists part <- parts :: part.name == name
  }

  function EditsOf(parts: seq<Part>, values: Values): seq<Edit> {
    if values == [] then []
    else
      var (name, value) := values[|values| - 1];
      EditsOf(parts, values[..|values| - 1]) + MatchEdits(parts, name, Replacement(name, value))
  }

  /** The entries that no attribute has yet, unless there is nothing to add. */
  function Added(parts: seq<Part>, values: Values): Values {
    if values == [] then []
    else
      var (name, value) := values[|values| - 1];
      Added(parts, values[..|values| - 1]) +
      (if Has(parts, name) || Replacement(name, value) == "" then [] else [(name, value)])
  }

  function AddedText(added: Values): string {
    if added == [] then "" else " " + Replacement(added[0].0, added[0].1) + AddedText(added[1..])
  }

  predicate RightFirst(a: Edit, b: Edit) {
    a.from > b.from
  }

  function ByPlace(): Sorting.Less<Edit> {
    (a: Edit, b: Edit) => RightFirst(a, b)
  }

  function Slice(s: string, from: nat, to: nat): string {
    if from <= to <= |s| then s[from..to] else if from <= |s| < to then s[from..] else ""
  }

  function Apply(source: string, e: Edit): string {
    Slice(source, 0, e.from) + e.value + Slice(source, e.to, |source|)
  }

  function ApplyAll(source: string, edits: seq<Edit>): string
    decreases |edits|
  {
    if edits == [] then source else ApplyAll(Apply(source, edits[0]), edits[1..])
  }

  function ReplaceParts(source: string, edits: seq<Edit>): string {
    ApplyAll(source, Sorting.Sort(edits, ByPlace()))
  }

  function AllEdits(parts: seq<Part>, end: nat, values: Values): seq<Edit> {
    var text := AddedText(Added(parts, values));
    EditsOf(parts, values) + (if text == "" then [] else [Edit(end, end, text)])
  }

  function Patched(source: string, parts: seq<Part>, end: nat, values: Values): string {
    ReplaceParts(source, AllEdits(parts, end, values))
  }

  method ReplacePartsInOrder(source: string, edits: seq<Edit>) returns (result: string)
    ensures result == ReplaceParts(source, edits)
  {
    var sorted := Sorting.Sort(edits, ByPlace());
    result := source;
    assert sorted[0..] == sorted;
    for i := 0 to |sorted|
      invariant ApplyAll(result, sorted[i..]) == ApplyAll(source, sorted)
    {
      assert sorted[i..][1..] == sorted[i + 1..];
      var e := sorted[i];
      result := Slice(result, 0, e.from) + e.value + Slice(result, e.to, |result|);
    }
  }

  method MatchingEdits(parts: seq<Part>, name: string, replacement: string) returns (edits: seq<Edit>)
    ensures edits == MatchEdits(parts, name, replacement)
    ensures edits != [] <==> Has(parts, name)
  {
    edits := [];
    assert parts[0..] == parts;
    for i := 0 to |parts|
      invariant edits + MatchEdits(parts[i..], name, if edits == [] then replacement else "") == MatchEdits(parts, name, replacement)
      invariant edits != [] <==> exists j :: 0 <= j < i && parts[j].name == name
    {
      var part := parts[i];
      assert parts[i..][1..] == parts[i + 1..];
      if part.name == name {
        var e := Edit(part.from, part.to, if edits == [] then replacement else "");
        assert edits + ([e] + MatchEdits(parts[i + 1..], name, "")) == edits + [e] + MatchEdits(parts[i + 1..], name, "");
        edits := edits + [e];
      }
    }
  }

  method PatchAttributes(source: string, parts: seq<Part>, end: nat, values: Values) returns (result: string)
    ensures result == Patched(source, parts, end, values)
  {
    hide Replacement, MatchEdits, Has, EditsOf, Added, AddedText;
    var edits: seq<Edit> := [];
    var additions := "";
    NothingAdded(parts);
    for i := 0 to |values|
      invariant edits == EditsOf(parts, values[..i])
      invariant additions == AddedText(Added(parts, values[..i]))
    {
      OneMoreValue(parts, values, i);
      var (name, value) := values[i];
      var replacement := Replacement(name, value);
      var matches := MatchingEdits(parts, name, replacement);
      NoEditsWithoutParts(parts, name, replacement);
      if matches != [] {
        edits := edits + matches;
      } else if replacement != "" {
        AddedOneMore(Added(parts, values[..i]), name, value);
        additions := additions + " " + replacement;
      }
    }
    assert values[..|values|] == values;
    if additions != "" {
      edits := edits + [Edit(end, end, additions)];
    } else {
      assert edits + [] == edits;
    }
    assert edits == AllEdits(parts, end, values);
    result := ReplacePartsInOrder(source, edits);
  }

  lemma NothingAdded(parts: seq<Part>)
    ensures EditsOf(parts, []) == [] && Added(parts, []) == [] && AddedText([]) == ""
  {
  }

  lemma OneMoreValue(parts: seq<Part>, values: Values, i: nat)
    requires i < |values|
    ensures var (name, value) := values[i];
            EditsOf(parts, values[..i + 1]) == EditsOf(parts, values[..i]) + MatchEdits(parts, name, Replacement(name, value)) &&
            Added(parts, values[..i + 1]) ==
            if Has(parts, name) || Replacement(name, value) == "" then Added(parts, values[..i])
            else Added(parts, values[..i]) + [(name, value)]
  {
    hide Replacement, MatchEdits, Has;
    assert values[..i + 1][..i] == values[..i];
  }

  lemma {:induction false} NoEditsWithoutParts(parts: seq<Part>, name: string, replacement: string)
    ensures MatchEdits(parts, name, replacement) == [] <==> !Has(parts, name)
  {
    if parts != [] && parts[0].name != name {
      NoEditsWithoutParts(parts[1..], name, replacement);
      assert parts == [parts[0]] + parts[1..];
    }
  }

  lemma {:induction false} AddedOneMore(added: Values, name: string, value: string)
    ensures AddedText(added + [(name, value)]) == AddedText(added) + " " + Replacement(name, value)
  {
    hide Replacement;
    var v := (name, value);
    if added == [] {
      assert [] + [v] == [v] && [v][1..] == [];
      assert AddedText([v]) == " " + Replacement(name, value) + "";
    } else {
      AddedOneMore(added[1..], name, value);
      assert (added + [v])[1..] == added[1..] + [v];
    }
  }
}

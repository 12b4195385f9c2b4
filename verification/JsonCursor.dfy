/**
  The completion scanner for incomplete JSON. `decode` stands for JSON.parse on one
  string literal; everything else about the text is decided here.
*/
module JsonCursor {
  import opened Basics
  import opened WhiteSpace

  datatype Awaits = Key | Colon | Value | Comma

  datatype Frame = Frame(path: seq<string>, field: string, awaits: Awaits, isArray: bool, used: seq<string>)

  datatype Cursor = Cursor(
    from: nat,
    prefix: string,
    key: bool,
    field: string,
    path: seq<string>,
    rootKey: string,
    used: seq<string>,
    quoted: bool)

  type Decoder = string -> Option<string>

  // ----- the scanner on what is left of the text

  /** Where the closing quote is, counted from after the opening one. */
  function StringEnd(s: string): (r: Option<nat>)
    ensures r.Some? ==> r.value < |s| && s[r.value] == '"'
  {
    if s == "" then None
    else if s[0] == '\\' then
      if |s| == 1 then None
      else match StringEnd(s[2..]) case Some(n) => Some(n + 2) case None => None
    else if s[0] == '"' then Some(0)
    else match StringEnd(s[1..]) case Some(n) => Some(n + 1) case None => None
  }

  predicate EndsAtom(c: char) {
    IsSpace(c) || c == ',' || c == '}' || c == ']'
  }

  function AtomEnd(s: string): (n: nat)
    ensures n <= |s| && (n < |s| ==> EndsAtom(s[n]))
    ensures forall i :: 0 <= i < n ==> !EndsAtom(s[i])
  {
    if s == "" || EndsAtom(s[0]) then 0 else 1 + AtomEnd(s[1..])
  }

  function Top(stack: seq<Frame>): Frame
    requires stack != []
  {
    stack[|stack| - 1]
  }

  function SetTop(stack: seq<Frame>, f: Frame): seq<Frame>
    requires stack != []
  {
    stack[..|stack| - 1] + [f]
  }

  function AfterString(stack: seq<Frame>, value: string): seq<Frame> {
    if stack == [] then stack
    else
      var f := Top(stack);
      if f.awaits == Key then SetTop(stack, f.(field := value, used := f.used + [value], awaits := Colon))
      else SetTop(stack, f.(awaits := Comma))
  }

  function RootAfterString(stack: seq<Frame>, value: string, rootKey: string): string {
    if stack != [] && Top(stack).awaits != Key && Top(stack).path == [] && Top(stack).field == "key" then value else rootKey
  }

  function Push(stack: seq<Frame>, open: char): seq<Frame> {
    var path := if stack == [] then [] else if Top(stack).isArray then Top(stack).path else Top(stack).path + [Top(stack).field];
    var below := if stack == [] then stack else SetTop(stack, Top(stack).(awaits := Comma));
    below + [Frame(path, "", if open == '{' then Key else Value, open == '[', [])]
  }

  function Pop(stack: seq<Frame>): seq<Frame> {
    if stack == [] then stack else stack[..|stack| - 1]
  }

  function Here(stack: seq<Frame>, from: nat, prefix: string, key: bool, rootKey: string, quoted: bool): Option<Cursor> {
    if stack == [] then None
    else Some(Cursor(from, prefix, key, Top(stack).field, Top(stack).path, rootKey, Top(stack).used, quoted))
  }

  /** `pos` characters are behind us and `rest` is left. */
  function Scan(decode: Decoder, rest: string, pos: nat, stack: seq<Frame>, rootKey: string): Option<Cursor>
    decreases |rest|
  {
    if rest == "" then Here(stack, pos, "", stack != [] && Top(stack).awaits == Key, rootKey, false)
    else if IsSpace(rest[0]) then Scan(decode, rest[1..], pos + 1, stack, rootKey)
    else if rest[0] == '"' then
      match StringEnd(rest[1..])
      case None => Here(stack, pos + 1, rest[1..], stack != [] && Top(stack).awaits == Key, rootKey, true)
      case Some(n) =>
        match decode(rest[..n + 2])
        case None => None
        case Some(value) =>
          Scan(decode, rest[n + 2..], pos + n + 2, AfterString(stack, value), RootAfterString(stack, value, rootKey))
    else if rest[0] == '{' || rest[0] == '[' then Scan(decode, rest[1..], pos + 1, Push(stack, rest[0]), rootKey)
    else if rest[0] == '}' || rest[0] == ']' then Scan(decode, rest[1..], pos + 1, Pop(stack), rootKey)
    else if stack == [] then Scan(decode, rest[1..], pos + 1, stack, rootKey)
    else if rest[0] == ':' then Scan(decode, rest[1..], pos + 1, SetTop(stack, Top(stack).(awaits := Value)), rootKey)
    else if rest[0] == ',' then
      Scan(decode, rest[1..], pos + 1,
           SetTop(stack, Top(stack).(awaits := if Top(stack).isArray then Value else Key, field := "")), rootKey)
    else
      var n := AtomEnd(rest);
      if n == |rest| then Here(stack, pos, rest, false, rootKey, false)
      else Scan(decode, rest[n..], pos + n, SetTop(stack, Top(stack).(awaits := Comma)), rootKey)
  }

  lemma SpaceStep(decode: Decoder, rest: string, pos: nat, stack: seq<Frame>, rootKey: string)
    requires rest != ""
    requires IsSpace(rest[0]) || (stack == [] && rest[0] !in {'"', '{', '[', '}', ']'})
    ensures Scan(decode, rest, pos, stack, rootKey) == Scan(decode, rest[1..], pos + 1, stack, rootKey)
  {
  }

  lemma SignStep(decode: Decoder, rest: string, pos: nat, s: seq<Frame>, rootKey: string)
    requires rest != "" && (rest[0] in {'{', '[', '}', ']'} || (s != [] && rest[0] in {':', ','}))
    ensures Scan(decode, rest, pos, s, rootKey) ==
            Scan(decode, rest[1..], pos + 1,
                 if rest[0] == '{' || rest[0] == '[' then Push(s, rest[0])
                 else if rest[0] == '}' || rest[0] == ']' then Pop(s)
                 else if rest[0] == ':' then SetTop(s, Top(s).(awaits := Value))
                 else SetTop(s, Top(s).(awaits := if Top(s).isArray then Value else Key, field := "")),
                 rootKey)
  {
  }

  lemma StringStep(decode: Decoder, rest: string, pos: nat, stack: seq<Frame>, rootKey: string)
    requires rest != "" && rest[0] == '"'
    ensures Scan(decode, rest, pos, stack, rootKey) ==
            match StringEnd(rest[1..])
            case None => Here(stack, pos + 1, rest[1..], stack != [] && Top(stack).awaits == Key, rootKey, true)
            case Some(n) =>
              match decode(rest[..n + 2])
              case None => None
              case Some(value) =>
                Scan(decode, rest[n + 2..], pos + n + 2, AfterString(stack, value), RootAfterString(stack, value, rootKey))
  {
    hide AfterString, RootAfterString, Here;
  }

  lemma AtomStep(decode: Decoder, rest: string, pos: nat, stack: seq<Frame>, rootKey: string)
    requires rest != "" && stack != [] && !IsSpace(rest[0]) && rest[0] !in {'"', '{', '[', '}', ']', ':', ','}
    ensures Scan(decode, rest, pos, stack, rootKey) ==
            if AtomEnd(rest) == |rest| then Here(stack, pos, rest, false, rootKey, false)
            else Scan(decode, rest[AtomEnd(rest)..], pos + AtomEnd(rest), SetTop(stack, Top(stack).(awaits := Comma)), rootKey)
  {
    hide Here;
  }

  lemma EndStep(decode: Decoder, pos: nat, stack: seq<Frame>, rootKey: string)
    ensures Scan(decode, "", pos, stack, rootKey) ==
            Here(stack, pos, "", stack != [] && Top(stack).awaits == Key, rootKey, false)
  {
  }

  /** The index loop, its stack and its root key. */
  method FindCursor(decode: Decoder, source: string) returns (cursor: Option<Cursor>)
    ensures cursor == Scan(decode, source, 0, [], "")
  {
    hide Scan, Push, Pop, AfterString, RootAfterString, Here, IsSpace, AtomEnd, StringEnd;
    var stack: seq<Frame> := [];
    var rootKey := "";
    var index := 0;
    assert source[0..] == source;
    while index < |source|
      invariant index <= |source|
      invariant Scan(decode, source, 0, [], "") == Scan(decode, source[index..], index, stack, rootKey)
      decreases |source| - index
    {
      var character := source[index];
      ghost var rest := source[index..];
      assert rest[0] == character && rest[1..] == source[index + 1..];
      if IsSpace(character) {
        SpaceStep(decode, rest, index, stack, rootKey);
        index := index + 1;
      } else if character == '"' {
        var start := index;
        StringStep(decode, rest, index, stack, rootKey);
        index := SkipString(source, index + 1);
        if index >= |source| {
          return Here(stack, start + 1, source[start + 1..], stack != [] && Top(stack).awaits == Key, rootKey, true);
        }
        ghost var n := index - start - 1;
        assert rest[..n + 2] == source[start..index + 1] && rest[n + 2..] == source[index + 1..];
        var value := decode(source[start..index + 1]);
        if value.None? {
          return None;
        }
        rootKey, stack := RootAfterString(stack, value.value, rootKey), AfterString(stack, value.value);
        index := index + 1;
      } else if character == '{' || character == '[' {
        SignStep(decode, rest, index, stack, rootKey);
        stack := Push(stack, character);
        index := index + 1;
      } else if character == '}' || character == ']' {
        SignStep(decode, rest, index, stack, rootKey);
        stack := Pop(stack);
        index := index + 1;
      } else if stack == [] {
        SpaceStep(decode, rest, index, stack, rootKey);
        index := index + 1;
      } else if character == ':' {
        SignStep(decode, rest, index, stack, rootKey);
        stack := SetTop(stack, Top(stack).(awaits := Value));
        index := index + 1;
      } else if character == ',' {
        SignStep(decode, rest, index, stack, rootKey);
        stack := SetTop(stack, Top(stack).(awaits := if Top(stack).isArray then Value else Key, field := ""));
        index := index + 1;
      } else {
        var start := index;
        AtomStep(decode, rest, index, stack, rootKey);
        index := SkipAtom(source, index);
        assert rest[AtomEnd(rest)..] == source[index..];
        if index == |source| {
          return Here(stack, start, source[start..], false, rootKey, false);
        }
        stack := SetTop(stack, Top(stack).(awaits := Comma));
      }
    }
    assert source[index..] == "";
    EndStep(decode, index, stack, rootKey);
    return Here(stack, index, "", stack != [] && Top(stack).awaits == Key, rootKey, false);
  }

  method SkipString(source: string, start: nat) returns (index: nat)
    requires start <= |source|
    ensures start <= index
    ensures if index < |source| then StringEnd(source[start..]) == Some(index - start) else StringEnd(source[start..]).None?
  {
    index := start;
    while index < |source|
      invariant start <= index
      invariant index <= |source| ==>
                  (StringEnd(source[index..]).None? <==> StringEnd(source[start..]).None?) &&
                  (StringEnd(source[index..]).Some? ==>
                     StringEnd(source[start..]).Some? &&
                     StringEnd(source[start..]).value == StringEnd(source[index..]).value + (index - start))
      invariant index > |source| ==> StringEnd(source[start..]).None?
      decreases |source| - index
    {
      assert source[index..][1..] == source[index + 1..];
      if source[index] == '\\' {
        if index + 2 <= |source| { assert source[index..][2..] == source[index + 2..]; }
        index := index + 2;
      } else if source[index] == '"' {
        return;
      } else {
        index := index + 1;
      }
    }
    if index == |source| { assert source[index..] == ""; }
  }

  method SkipAtom(source: string, start: nat) returns (index: nat)
    requires start <= |source|
    ensures start <= index <= |source| && index == start + AtomEnd(source[start..])
    ensures start < |source| && !EndsAtom(source[start]) ==> start < index
  {
    index := start;
    while index < |source| && !EndsAtom(source[index])
      invariant start <= index <= |source|
      invariant start + AtomEnd(source[start..]) == index + AtomEnd(source[index..])
    {
      assert source[index..][1..] == source[index + 1..];
      index := index + 1;
    }
    if index == |source| { assert source[index..] == ""; }
  }

  // ----- JSON texts as trees

  /** A text with its white space; atoms are numbers and the three literal names. */
  datatype Json =
    | Str(raw: string)
    | Atom(text: string)
    | NoMembers(blank: string)
    | Obj(members: Members)
    | NoItems(blank: string)
    | Arr(items: Items)

  datatype Members = LastMember(m: Member) | MoreMembers(m: Member, rest: Members)

  /** `pre "name" mid : gap value post` */
  datatype Member = Member(pre: string, name: string, mid: string, gap: string, value: Json, post: string)

  datatype Items = LastItem(i: Item) | MoreItems(i: Item, rest: Items)

  datatype Item = Item(pre: string, value: Json, post: string)

  function Quote(raw: string): string {
    ['"'] + raw + ['"']
  }

  function Text(j: Json): string {
    match j
    case Str(raw) => Quote(raw)
    case Atom(text) => text
    case NoMembers(blank) => "{" + (blank + "}")
    case Obj(members) => "{" + MembersText(members)
    case NoItems(blank) => "[" + (blank + "]")
    case Arr(items) => "[" + ItemsText(items)
  }

  function MemberText(m: Member): string {
    m.pre + (Quote(m.name) + (m.mid + (":" + (m.gap + (Text(m.value) + m.post)))))
  }

  /** Up to and including the closing brace. */
  function MembersText(ms: Members): string {
    match ms
    case LastMember(m) => MemberText(m) + "}"
    case MoreMembers(m, rest) => MemberText(m) + ("," + MembersText(rest))
  }

  function ItemText(i: Item): string {
    i.pre + (Text(i.value) + i.post)
  }

  function ItemsText(items: Items): string {
    match items
    case LastItem(i) => ItemText(i) + "]"
    case MoreItems(i, rest) => ItemText(i) + ("," + ItemsText(rest))
  }

  /** White space of section 2 of RFC 8259. */
  predicate IsBlank(s: string) {
    forall c <- s :: c == ' ' || c == '\t' || c == '\n' || c == '\r'
  }

  /** No unescaped quote and no dangling backslash. */
  predicate IsRaw(s: string) {
    s == "" || (if s[0] == '\\' then |s| >= 2 && IsRaw(s[2..]) else s[0] != '"' && IsRaw(s[1..]))
  }

  /** Every number and literal name of RFC 8259 consists of these characters. */
  predicate IsAtom(s: string) {
    s != "" && forall c <- s :: '0' <= c <= '9' || 'a' <= c <= 'z' || 'A' <= c <= 'Z' || c == '+' || c == '-' || c == '.'
  }

  predicate Valid(decode: Decoder, j: Json) {
    match j
    case Str(raw) => IsRaw(raw) && decode(Quote(raw)).Some?
    case Atom(text) => IsAtom(text)
    case NoMembers(blank) => IsBlank(blank)
    case Obj(members) => ValidMembers(decode, members)
    case NoItems(blank) => IsBlank(blank)
    case Arr(items) => ValidItems(decode, items)
  }

  predicate ValidMember(decode: Decoder, m: Member) {
    IsBlank(m.pre) && IsBlank(m.mid) && IsBlank(m.gap) && IsBlank(m.post) &&
    IsRaw(m.name) && decode(Quote(m.name)).Some? && Valid(decode, m.value)
  }

  predicate ValidMembers(decode: Decoder, ms: Members) {
    ValidMember(decode, ms.m) && (ms.MoreMembers? ==> ValidMembers(decode, ms.rest))
  }

  predicate ValidItem(decode: Decoder, i: Item) {
    IsBlank(i.pre) && IsBlank(i.post) && Valid(decode, i.value)
  }

  predicate ValidItems(decode: Decoder, items: Items) {
    ValidItem(decode, items.i) && (items.MoreItems? ==> ValidItems(decode, items.rest))
  }

  // ----- what a cut text means, read off its tree

  function Name(decode: Decoder, raw: string): string
    requires decode(Quote(raw)).Some?
  {
    decode(Quote(raw)).value
  }

  /** The root key is the string value of the root member called "key". */
  function RootAfter(decode: Decoder, v: Json, path: seq<string>, field: string, rootKey: string): string
    requires Valid(decode, v)
  {
    if v.Str? && path == [] && field == "key" then Name(decode, v.raw) else rootKey
  }

  function RootAfterMembers(decode: Decoder, ms: Members, path: seq<string>, rootKey: string): string
    requires ValidMembers(decode, ms)
  {
    assert ValidMember(decode, ms.m);
    var next := RootAfter(decode, ms.m.value, path, Name(decode, ms.m.name), rootKey);
    if ms.LastMember? then next else RootAfterMembers(decode, ms.rest, path, next)
  }

  /** `n` characters of the value are there, and the value is not over yet. */
  predicate Unfinished(v: Json, n: nat) {
    0 < n && (n < |Text(v)| || (n == |Text(v)| && v.Atom?))
  }

  /** Inside a value of a container at `path`; a container value has path `inner`. */
  function InValue(decode: Decoder, v: Json, n: nat, pos: nat, path: seq<string>, field: string, used: seq<string>,
                   inner: seq<string>, rootKey: string): Cursor
    requires Valid(decode, v) && Unfinished(v, n)
    decreases v, 0
  {
    match v
    case Str(raw) => Cursor(pos + 1, raw[..n - 1], false, field, path, rootKey, used, true)
    case Atom(text) => Cursor(pos, text[..n], false, field, path, rootKey, used, false)
    case NoMembers(_) => Cursor(pos + n, "", true, "", inner, rootKey, [], false)
    case Obj(members) => AtMembers(decode, members, n - 1, pos + 1, inner, [], rootKey)
    case NoItems(_) => Cursor(pos + n, "", false, "", inner, rootKey, [], false)
    case Arr(items) => AtItems(decode, items, n - 1, pos + 1, inner, rootKey)
  }

  /** Among the members of an object at `path` whose earlier names are `used`. */
  function AtMembers(decode: Decoder, ms: Members, n: nat, pos: nat, path: seq<string>, used: seq<string>, rootKey: string): Cursor
    requires ValidMembers(decode, ms) && n < |MembersText(ms)|
    decreases ms, 1
  {
    var m, length := ms.m, |MemberText(ms.m)|;
    assert ValidMember(decode, m);
    if n <= length then AtMember(decode, m, n, pos, path, used, rootKey)
    else
      AtMembers(decode, ms.rest, n - length - 1, pos + length + 1, path, used + [Name(decode, m.name)],
                RootAfter(decode, m.value, path, Name(decode, m.name), rootKey))
  }

  function ValueStart(m: Member): nat {
    |m.pre| + |m.name| + 2 + |m.mid| + 1 + |m.gap|
  }

  function AtMember(decode: Decoder, m: Member, n: nat, pos: nat, path: seq<string>, used: seq<string>, rootKey: string): Cursor
    requires ValidMember(decode, m) && n <= |MemberText(m)|
    decreases m, 0
  {
    var name, start := Name(decode, m.name), ValueStart(m);
    if n <= |m.pre| then Cursor(pos + n, "", true, "", path, rootKey, used, false)
    else if n <= |m.pre| + 1 + |m.name| then
      Cursor(pos + |m.pre| + 1, m.name[..n - |m.pre| - 1], true, "", path, rootKey, used, true)
    else if n <= start then Cursor(pos + n, "", false, name, path, rootKey, used + [name], false)
    else if Unfinished(m.value, n - start) then
      InValue(decode, m.value, n - start, pos + start, path, name, used + [name], path + [name], rootKey)
    else
      Cursor(pos + n, "", false, name, path, RootAfter(decode, m.value, path, name, rootKey), used + [name], false)
  }

  /** Among the items of an array at `path`; arrays add nothing to the path and have no names. */
  function AtItems(decode: Decoder, items: Items, n: nat, pos: nat, path: seq<string>, rootKey: string): Cursor
    requires ValidItems(decode, items) && n < |ItemsText(items)|
    decreases items, 1
  {
    var length := |ItemText(items.i)|;
    assert ValidItem(decode, items.i);
    if n <= length then AtItem(decode, items.i, n, pos, path, rootKey)
    else AtItems(decode, items.rest, n - length - 1, pos + length + 1, path, rootKey)
  }

  function AtItem(decode: Decoder, i: Item, n: nat, pos: nat, path: seq<string>, rootKey: string): Cursor
    requires ValidItem(decode, i) && n <= |ItemText(i)|
    decreases i, 0
  {
    if n > |i.pre| && Unfinished(i.value, n - |i.pre|) then
      InValue(decode, i.value, n - |i.pre|, pos + |i.pre|, path, "", [], path, rootKey)
    else Cursor(pos + n, "", false, "", path, rootKey, [], false)
  }

  // ----- scanning tokens

  lemma StackTop(s: seq<Frame>, f: Frame, g: Frame)
    ensures Top(s + [f]) == f && SetTop(s + [f], g) == s + [g] && Pop(s + [f]) == s && s + [f] != []
  {
  }

  lemma {:induction false} SkipBlank(decode: Decoder, w: string, b: string, pos: nat, s: seq<Frame>, rootKey: string)
    requires IsBlank(w)
    ensures Scan(decode, w + b, pos, s, rootKey) == Scan(decode, b, pos + |w|, s, rootKey)
  {
    if w == "" {
      assert w + b == b;
    } else {
      assert w[0] in w && IsSpace(w[0]);
      assert (w + b)[0] == w[0] && (w + b)[1..] == w[1..] + b;
      assert forall c <- w[1..] :: c in w;
      SkipBlank(decode, w[1..], b, pos + 1, s, rootKey);
    }
  }

  lemma {:induction false} RawCloses(raw: string, b: string)
    requires IsRaw(raw)
    ensures StringEnd(raw + (['"'] + b)) == Some(|raw|)
  {
    var text := raw + (['"'] + b);
    if raw == "" {
      assert text[0] == '"';
    } else if raw[0] == '\\' {
      assert text[2..] == raw[2..] + (['"'] + b);
      RawCloses(raw[2..], b);
    } else {
      assert text[1..] == raw[1..] + (['"'] + b);
      RawCloses(raw[1..], b);
    }
  }

  lemma {:induction false} CutRawStaysOpen(raw: string, n: nat)
    requires IsRaw(raw) && n <= |raw|
    ensures StringEnd(raw[..n]).None?
  {
    if n > 0 {
      if raw[0] == '\\' {
        if n > 1 {
          assert raw[..n][2..] == raw[2..][..n - 2];
          CutRawStaysOpen(raw[2..], n - 2);
        }
      } else {
        assert raw[..n][1..] == raw[1..][..n - 1];
        CutRawStaysOpen(raw[1..], n - 1);
      }
    }
  }

  lemma ScanQuote(decode: Decoder, raw: string, b: string, pos: nat, s: seq<Frame>, rootKey: string)
    requires IsRaw(raw) && decode(Quote(raw)).Some?
    ensures Scan(decode, Quote(raw) + b, pos, s, rootKey) ==
            Scan(decode, b, pos + |raw| + 2, AfterString(s, Name(decode, raw)), RootAfterString(s, Name(decode, raw), rootKey))
  {
    hide Scan, AfterString, RootAfterString;
    var text := Quote(raw) + b;
    StringStep(decode, text, pos, s, rootKey);
    assert text[0] == '"' && text[1..] == raw + (['"'] + b);
    RawCloses(raw, b);
    assert text[..|raw| + 2] == Quote(raw) && text[|raw| + 2..] == b;
  }

  lemma ScanCutQuote(decode: Decoder, raw: string, n: nat, pos: nat, s: seq<Frame>, rootKey: string)
    requires IsRaw(raw) && n <= |raw|
    ensures Scan(decode, ['"'] + raw[..n], pos, s, rootKey) ==
            Here(s, pos + 1, raw[..n], s != [] && Top(s).awaits == Key, rootKey, true)
  {
    var text := ['"'] + raw[..n];
    assert text[1..] == raw[..n];
    CutRawStaysOpen(raw, n);
  }

  lemma {:induction false} AtomRun(text: string, b: string)
    requires (forall c <- text :: !EndsAtom(c)) && (b != "" ==> EndsAtom(b[0]))
    ensures AtomEnd(text + b) == |text|
  {
    if text == "" {
      assert text + b == b;
    } else {
      assert text[0] in text && (text + b)[1..] == text[1..] + b;
      AtomRun(text[1..], b);
    }
  }

  lemma AtomChars(text: string)
    requires IsAtom(text)
    ensures text != "" && forall c <- text :: !EndsAtom(c) && c != '"' && c != '{' && c != '[' && c != ':'
  {
  }

  lemma ScanAtom(decode: Decoder, text: string, b: string, pos: nat, s: seq<Frame>, rootKey: string)
    requires IsAtom(text) && s != [] && (b != "" ==> EndsAtom(b[0]))
    ensures Scan(decode, text + b, pos, s, rootKey) ==
            if b == "" then Here(s, pos, text, false, rootKey, false)
            else Scan(decode, b, pos + |text|, SetTop(s, Top(s).(awaits := Comma)), rootKey)
  {
    hide IsAtom, Here;
    AtomChars(text);
    AtomRun(text, b);
    assert text[0] in text && (text + b)[0] == text[0] && (text + b)[|text|..] == b;
    if b == "" { assert text + b == text; }
  }

  lemma ScanSign(decode: Decoder, c: char, b: string, pos: nat, s: seq<Frame>, rootKey: string)
    requires c in {'{', '[', '}', ']'} || (s != [] && c in {':', ','})
    ensures Scan(decode, [c] + b, pos, s, rootKey) ==
            Scan(decode, b, pos + 1,
                 if c == '{' || c == '[' then Push(s, c)
                 else if c == '}' || c == ']' then Pop(s)
                 else if c == ':' then SetTop(s, Top(s).(awaits := Value))
                 else SetTop(s, Top(s).(awaits := if Top(s).isArray then Value else Key, field := "")),
                 rootKey)
  {
    hide Scan;
    assert ([c] + b)[1..] == b;
    SignStep(decode, [c] + b, pos, s, rootKey);
  }

  lemma BlankEndsAtom(w: string, b: string)
    requires IsBlank(w) && (b != "" ==> EndsAtom(b[0]))
    ensures w + b != "" ==> EndsAtom((w + b)[0])
  {
    if w != "" {
      assert w[0] in w && (w + b)[0] == w[0];
    } else {
      assert w + b == b;
    }
  }

  // ----- scanning whole values

  function Inner(f: Frame): seq<string> {
    if f.isArray then f.path else f.path + [f.field]
  }

  /** Only the root object can change the root key. */
  lemma {:induction false} RootKeyIsRoot(decode: Decoder, ms: Members, path: seq<string>, rootKey: string)
    requires ValidMembers(decode, ms) && path != []
    ensures RootAfterMembers(decode, ms, path, rootKey) == rootKey
  {
    if ms.MoreMembers? { RootKeyIsRoot(decode, ms.rest, path, rootKey); }
  }

  lemma ScanStr(decode: Decoder, raw: string, b: string, pos: nat, s: seq<Frame>, f: Frame, rootKey: string)
    requires f.awaits != Key && IsRaw(raw) && decode(Quote(raw)).Some?
    ensures Scan(decode, Quote(raw) + b, pos, s + [f], rootKey) ==
            Scan(decode, b, pos + |raw| + 2, s + [f.(awaits := Comma)], RootAfter(decode, Str(raw), f.path, f.field, rootKey))
  {
    hide Scan;
    ScanQuote(decode, raw, b, pos, s + [f], rootKey);
    StackTop(s, f, f.(awaits := Comma));
  }

  function Opened(f: Frame, open: char): Frame {
    Frame(Inner(f), "", if open == '{' then Key else Value, open == '[', [])
  }

  lemma OpenStep(decode: Decoder, open: char, b: string, pos: nat, s: seq<Frame>, f: Frame, rootKey: string)
    requires open == '{' || open == '['
    ensures Scan(decode, [open] + b, pos, s + [f], rootKey) ==
            Scan(decode, b, pos + 1, s + [f.(awaits := Comma)] + [Opened(f, open)], rootKey)
  {
    hide Scan;
    StackTop(s, f, f.(awaits := Comma));
    ScanSign(decode, open, b, pos, s + [f], rootKey);
  }

  lemma ScanEmpty(decode: Decoder, open: char, blank: string, close: char, b: string, pos: nat, s: seq<Frame>, f: Frame,
                  rootKey: string)
    requires (open == '{' || open == '[') && (close == '}' || close == ']') && IsBlank(blank)
    ensures Scan(decode, [open] + (blank + ([close] + b)), pos, s + [f], rootKey) ==
            Scan(decode, b, pos + |blank| + 2, s + [f.(awaits := Comma)], rootKey)
  {
    hide Scan, IsBlank, Opened;
    var g, h := f.(awaits := Comma), Opened(f, open);
    OpenStep(decode, open, blank + ([close] + b), pos, s, f, rootKey);
    SkipBlank(decode, blank, [close] + b, pos + 1, s + [g] + [h], rootKey);
    ScanSign(decode, close, b, pos + 1 + |blank|, s + [g] + [h], rootKey);
    StackTop(s + [g], h, h);
  }

  /** Reading a whole value leaves its container waiting for a comma. */
  lemma {:induction false} ScanValue(decode: Decoder, v: Json, b: string, pos: nat, s: seq<Frame>, f: Frame, rootKey: string)
    requires Valid(decode, v) && f.awaits != Key && (f.isArray ==> f.path != [])
    requires v.Atom? && b != "" ==> EndsAtom(b[0])
    requires v.Atom? ==> b != ""
    ensures Scan(decode, Text(v) + b, pos, s + [f], rootKey) ==
            Scan(decode, b, pos + |Text(v)|, s + [f.(awaits := Comma)], RootAfter(decode, v, f.path, f.field, rootKey))
    decreases v, 0
  {
    hide Scan, IsBlank, IsRaw, IsAtom, EndsAtom, RootAfterMembers, Push, Pop, AfterString, RootAfterString, SetTop, Top;
    var g := f.(awaits := Comma);
    match v
    case Str(raw) =>
      ScanStr(decode, raw, b, pos, s, f, rootKey);
    case Atom(text) =>
      ScanAtom(decode, text, b, pos, s + [f], rootKey);
      StackTop(s, f, g);
    case NoMembers(blank) =>
      assert Text(v) + b == ['{'] + (blank + (['}'] + b));
      ScanEmpty(decode, '{', blank, '}', b, pos, s, f, rootKey);
    case NoItems(blank) =>
      assert Text(v) + b == ['['] + (blank + ([']'] + b));
      ScanEmpty(decode, '[', blank, ']', b, pos, s, f, rootKey);
    case Obj(members) =>
      var h := Opened(f, '{');
      assert Text(v) + b == ['{'] + (MembersText(members) + b);
      OpenStep(decode, '{', MembersText(members) + b, pos, s, f, rootKey);
      ScanMembers(decode, members, b, pos + 1, s + [g], h, rootKey);
      RootKeyIsRoot(decode, members, h.path, rootKey);
    case Arr(items) =>
      var h := Opened(f, '[');
      assert Text(v) + b == ['['] + (ItemsText(items) + b);
      OpenStep(decode, '[', ItemsText(items) + b, pos, s, f, rootKey);
      ScanItems(decode, items, b, pos + 1, s + [g], h, rootKey);
  }

  function AfterName(decode: Decoder, f: Frame, raw: string, awaits: Awaits): Frame
    requires decode(Quote(raw)).Some?
  {
    f.(field := Name(decode, raw), used := f.used + [Name(decode, raw)], awaits := awaits)
  }

  lemma ScanName(decode: Decoder, raw: string, b: string, pos: nat, s: seq<Frame>, f: Frame, rootKey: string)
    requires f.awaits == Key && IsRaw(raw) && decode(Quote(raw)).Some?
    ensures Scan(decode, Quote(raw) + b, pos, s + [f], rootKey) ==
            Scan(decode, b, pos + |raw| + 2, s + [AfterName(decode, f, raw, Colon)], rootKey)
  {
    ScanQuote(decode, raw, b, pos, s + [f], rootKey);
    StackTop(s, f, AfterName(decode, f, raw, Colon));
  }

  lemma {:induction false} ScanMember(decode: Decoder, m: Member, b: string, pos: nat, s: seq<Frame>, f: Frame, rootKey: string)
    requires ValidMember(decode, m) && f.awaits == Key && !f.isArray && b != "" && EndsAtom(b[0])
    ensures Scan(decode, MemberText(m) + b, pos, s + [f], rootKey) ==
            Scan(decode, b, pos + |MemberText(m)|, s + [AfterName(decode, f, m.name, Comma)],
                 RootAfter(decode, m.value, f.path, Name(decode, m.name), rootKey))
    decreases m, 0
  {
    hide Scan, RootAfter, Text;
    var f1, f2, f3 := AfterName(decode, f, m.name, Colon), AfterName(decode, f, m.name, Value), AfterName(decode, f, m.name, Comma);
    var t4 := m.post + b;
    var t3 := Text(m.value) + t4;
    var t2 := m.gap + t3;
    var t1 := [':'] + t2;
    var p1 := pos + |m.pre| + |m.name| + 2;
    var root := RootAfter(decode, m.value, f.path, f3.field, rootKey);
    assert MemberText(m) + b == m.pre + (Quote(m.name) + (m.mid + t1));
    SkipBlank(decode, m.pre, Quote(m.name) + (m.mid + t1), pos, s + [f], rootKey);
    ScanName(decode, m.name, m.mid + t1, pos + |m.pre|, s, f, rootKey);
    SkipBlank(decode, m.mid, t1, p1, s + [f1], rootKey);
    StackTop(s, f1, f2);
    ScanSign(decode, ':', t2, p1 + |m.mid|, s + [f1], rootKey);
    SkipBlank(decode, m.gap, t3, p1 + |m.mid| + 1, s + [f2], rootKey);
    BlankEndsAtom(m.post, b);
    ScanValue(decode, m.value, t4, p1 + |m.mid| + 1 + |m.gap|, s, f2, rootKey);
    SkipBlank(decode, m.post, b, p1 + |m.mid| + 1 + |m.gap| + |Text(m.value)|, s + [f3], root);
  }

  /** Reading the members of an object and its brace removes the object from the stack. */
  lemma {:induction false} ScanMembers(decode: Decoder, ms: Members, b: string, pos: nat, s: seq<Frame>, f: Frame, rootKey: string)
    requires ValidMembers(decode, ms) && f.awaits == Key && !f.isArray && f.field == ""
    ensures Scan(decode, MembersText(ms) + b, pos, s + [f], rootKey) ==
            Scan(decode, b, pos + |MembersText(ms)|, s, RootAfterMembers(decode, ms, f.path, rootKey))
    decreases ms, 1
  {
    hide Scan, RootAfter, MemberText, Valid, IsBlank, IsRaw;
    var m := ms.m;
    assert ValidMember(decode, m);
    var g := AfterName(decode, f, m.name, Comma);
    var root := RootAfter(decode, m.value, f.path, g.field, rootKey);
    if ms.LastMember? {
      assert MembersText(ms) + b == MemberText(m) + (['}'] + b);
      ScanMember(decode, m, ['}'] + b, pos, s, f, rootKey);
      ScanSign(decode, '}', b, pos + |MemberText(m)|, s + [g], root);
      StackTop(s, g, g);
    } else {
      var t, h := MembersText(ms.rest) + b, g.(awaits := Key, field := "");
      assert MembersText(ms) + b == MemberText(m) + ([','] + t);
      ScanMember(decode, m, [','] + t, pos, s, f, rootKey);
      ScanSign(decode, ',', t, pos + |MemberText(m)|, s + [g], root);
      StackTop(s, g, h);
      ScanMembers(decode, ms.rest, b, pos + |MemberText(m)| + 1, s, h, root);
    }
  }

  lemma {:induction false} ScanItem(decode: Decoder, i: Item, b: string, pos: nat, s: seq<Frame>, f: Frame, rootKey: string)
    requires ValidItem(decode, i) && f.awaits == Value && f.isArray && f.path != [] && b != "" && EndsAtom(b[0])
    ensures Scan(decode, ItemText(i) + b, pos, s + [f], rootKey) ==
            Scan(decode, b, pos + |ItemText(i)|, s + [f.(awaits := Comma)], rootKey)
    decreases i, 0
  {
    hide Scan, Text;
    var t := Text(i.value) + (i.post + b);
    assert ItemText(i) + b == i.pre + t;
    SkipBlank(decode, i.pre, t, pos, s + [f], rootKey);
    BlankEndsAtom(i.post, b);
    ScanValue(decode, i.value, i.post + b, pos + |i.pre|, s, f, rootKey);
    SkipBlank(decode, i.post, b, pos + |i.pre| + |Text(i.value)|, s + [f.(awaits := Comma)], rootKey);
  }

  lemma {:induction false} ScanItems(decode: Decoder, items: Items, b: string, pos: nat, s: seq<Frame>, f: Frame, rootKey: string)
    requires ValidItems(decode, items) && f.awaits == Value && f.isArray && f.path != [] && f.field == ""
    ensures Scan(decode, ItemsText(items) + b, pos, s + [f], rootKey) ==
            Scan(decode, b, pos + |ItemsText(items)|, s, rootKey)
    decreases items, 1
  {
    hide Scan, ItemText, ValidItem;
    var i, g := items.i, f.(awaits := Comma);
    assert ValidItem(decode, i);
    if items.LastItem? {
      assert ItemsText(items) + b == ItemText(i) + ([']'] + b);
      ScanItem(decode, i, [']'] + b, pos, s, f, rootKey);
      ScanSign(decode, ']', b, pos + |ItemText(i)|, s + [g], rootKey);
      StackTop(s, g, g);
    } else {
      var t := ItemsText(items.rest) + b;
      assert ItemsText(items) + b == ItemText(i) + ([','] + t);
      ScanItem(decode, i, [','] + t, pos, s, f, rootKey);
      ScanSign(decode, ',', t, pos + |ItemText(i)|, s + [g], rootKey);
      StackTop(s, g, f);
      ScanItems(decode, items.rest, b, pos + |ItemText(i)| + 1, s, f, rootKey);
    }
  }

  // ----- scanning cut values

  lemma CutShort<T>(a: seq<T>, b: seq<T>, n: nat)
    requires n <= |a|
    ensures (a + b)[..n] == a[..n]
  {
  }

  lemma CutLong<T>(a: seq<T>, b: seq<T>, n: nat)
    requires |a| <= n <= |a| + |b|
    ensures (a + b)[..n] == a + b[..n - |a|]
  {
  }

  lemma CutBlank(decode: Decoder, w: string, n: nat, pos: nat, s: seq<Frame>, rootKey: string)
    requires IsBlank(w) && n <= |w|
    ensures Scan(decode, w[..n], pos, s, rootKey) ==
            Here(s, pos + n, "", s != [] && Top(s).awaits == Key, rootKey, false)
  {
    assert forall c <- w[..n] :: c in w;
    assert w[..n] + "" == w[..n];
    SkipBlank(decode, w[..n], "", pos, s, rootKey);
  }

  lemma CutEmpty(decode: Decoder, open: char, blank: string, close: string, n: nat, pos: nat, s: seq<Frame>, f: Frame,
                 rootKey: string)
    requires (open == '{' || open == '[') && IsBlank(blank) && 0 < n <= |blank| + 1
    ensures Scan(decode, ([open] + (blank + close))[..n], pos, s + [f], rootKey) ==
            Some(Cursor(pos + n, "", open == '{', "", Inner(f), rootKey, [], false))
  {
    hide Scan, IsBlank;
    var g, h := f.(awaits := Comma), Opened(f, open);
    CutLong([open], blank + close, n);
    CutShort(blank, close, n - 1);
    OpenStep(decode, open, blank[..n - 1], pos, s, f, rootKey);
    CutBlank(decode, blank, n - 1, pos + 1, s + [g] + [h], rootKey);
    StackTop(s + [g], h, h);
  }

  lemma {:induction false} CutValue(decode: Decoder, v: Json, n: nat, pos: nat, s: seq<Frame>, f: Frame, rootKey: string)
    requires Valid(decode, v) && Unfinished(v, n) && n <= |Text(v)|
    requires f.awaits != Key && (f.isArray ==> f.path != [])
    ensures Scan(decode, Text(v)[..n], pos, s + [f], rootKey) ==
            Some(InValue(decode, v, n, pos, f.path, f.field, f.used, Inner(f), rootKey))
    decreases v, 0
  {
    hide Scan, IsBlank, IsRaw, EndsAtom, Push, Pop, AtMembers, AtItems;
    var g := f.(awaits := Comma);
    StackTop(s, f, g);
    match v
    case Str(raw) =>
      assert Text(v)[..n] == ['"'] + raw[..n - 1];
      ScanCutQuote(decode, raw, n - 1, pos, s + [f], rootKey);
    case Atom(text) =>
      assert text[..n] + "" == text[..n] && forall c <- text[..n] :: c in text;
      ScanAtom(decode, text[..n], "", pos, s + [f], rootKey);
    case NoMembers(blank) =>
      CutEmpty(decode, '{', blank, "}", n, pos, s, f, rootKey);
    case NoItems(blank) =>
      CutEmpty(decode, '[', blank, "]", n, pos, s, f, rootKey);
    case Obj(members) =>
      CutLong(['{'], MembersText(members), n);
      OpenStep(decode, '{', MembersText(members)[..n - 1], pos, s, f, rootKey);
      CutMembers(decode, members, n - 1, pos + 1, s + [g], Opened(f, '{'), rootKey);
    case Arr(items) =>
      CutLong(['['], ItemsText(items), n);
      OpenStep(decode, '[', ItemsText(items)[..n - 1], pos, s, f, rootKey);
      CutItems(decode, items, n - 1, pos + 1, s + [g], Opened(f, '['), rootKey);
  }

  lemma {:induction false} CutMembers(decode: Decoder, ms: Members, n: nat, pos: nat, s: seq<Frame>, f: Frame, rootKey: string)
    requires ValidMembers(decode, ms) && n < |MembersText(ms)|
    requires f.awaits == Key && !f.isArray && f.field == ""
    ensures Scan(decode, MembersText(ms)[..n], pos, s + [f], rootKey) ==
            Some(AtMembers(decode, ms, n, pos, f.path, f.used, rootKey))
    decreases ms, 1
  {
    hide Scan, RootAfter, MemberText, Valid, IsBlank, IsRaw, AtMember;
    var m := ms.m;
    assert ValidMember(decode, m);
    if n <= |MemberText(m)| {
      CutShort(MemberText(m), if ms.LastMember? then "}" else "," + MembersText(ms.rest), n);
      CutMember(decode, m, n, pos, s, f, rootKey);
    } else {
      var g := AfterName(decode, f, m.name, Comma);
      var h := g.(awaits := Key, field := "");
      var root := RootAfter(decode, m.value, f.path, g.field, rootKey);
      var k := n - |MemberText(m)| - 1;
      var t := MembersText(ms.rest)[..k];
      CutLong(MemberText(m), "," + MembersText(ms.rest), n);
      CutLong([','], MembersText(ms.rest), k + 1);
      ScanMember(decode, m, [','] + t, pos, s, f, rootKey);
      ScanSign(decode, ',', t, pos + |MemberText(m)|, s + [g], root);
      StackTop(s, g, h);
      CutMembers(decode, ms.rest, k, pos + |MemberText(m)| + 1, s, h, root);
    }
  }

  lemma {:induction false} CutMember(decode: Decoder, m: Member, n: nat, pos: nat, s: seq<Frame>, f: Frame, rootKey: string)
    requires ValidMember(decode, m) && n <= |MemberText(m)|
    requires f.awaits == Key && !f.isArray && f.field == ""
    ensures Scan(decode, MemberText(m)[..n], pos, s + [f], rootKey) ==
            Some(AtMember(decode, m, n, pos, f.path, f.used, rootKey))
    decreases m, 1
  {
    hide Scan, RootAfter, Text, IsBlank, IsRaw, InValue, Unfinished, Valid;
    var tail := m.mid + (":" + (m.gap + (Text(m.value) + m.post)));
    var k := |m.pre|;
    StackTop(s, f, f);
    if n <= k {
      CutShort(m.pre, Quote(m.name) + tail, n);
      CutBlank(decode, m.pre, n, pos, s + [f], rootKey);
    } else {
      CutLong(m.pre, Quote(m.name) + tail, n);
      if n <= k + 1 + |m.name| {
        CutShort(Quote(m.name), tail, n - k);
        assert Quote(m.name)[..n - k] == ['"'] + m.name[..n - k - 1];
        SkipBlank(decode, m.pre, ['"'] + m.name[..n - k - 1], pos, s + [f], rootKey);
        ScanCutQuote(decode, m.name, n - k - 1, pos + k, s + [f], rootKey);
      } else {
        var j := n - k - 2 - |m.name|;
        CutLong(Quote(m.name), tail, n - k);
        SkipBlank(decode, m.pre, Quote(m.name) + tail[..j], pos, s + [f], rootKey);
        ScanName(decode, m.name, tail[..j], pos + k, s, f, rootKey);
        CutTail(decode, m, j, pos + k + 2 + |m.name|, s, AfterName(decode, f, m.name, Colon), rootKey);
      }
    }
  }

  /** After the member's name: `n` counts from behind the closing quote. */
  lemma {:induction false} CutTail(decode: Decoder, m: Member, n: nat, pos: nat, s: seq<Frame>, f: Frame, rootKey: string)
    requires ValidMember(decode, m) && f.awaits == Colon && !f.isArray
    requires n <= |m.mid| + 1 + |m.gap| + |Text(m.value)| + |m.post|
    ensures Scan(decode, (m.mid + (":" + (m.gap + (Text(m.value) + m.post))))[..n], pos, s + [f], rootKey) ==
            Some(var start := |m.mid| + 1 + |m.gap|;
                 if n > start && Unfinished(m.value, n - start) then
                   InValue(decode, m.value, n - start, pos + start, f.path, f.field, f.used, f.path + [f.field], rootKey)
                 else
                   Cursor(pos + n, "", false, f.field, f.path,
                          if n <= start then rootKey else RootAfter(decode, m.value, f.path, f.field, rootKey), f.used, false))
    decreases m, 0
  {
    hide Scan, RootAfter, Text, IsBlank, IsRaw, InValue, Unfinished, Valid;
    var t3 := Text(m.value) + m.post;
    var t2 := m.gap + t3;
    var t1 := ":" + t2;
    var g := f.(awaits := Value);
    StackTop(s, f, g);
    if n <= |m.mid| {
      CutShort(m.mid, t1, n);
      CutBlank(decode, m.mid, n, pos, s + [f], rootKey);
    } else {
      var k := n - |m.mid| - 1;
      CutLong(m.mid, t1, n);
      CutLong([':'], t2, k + 1);
      SkipBlank(decode, m.mid, [':'] + t2[..k], pos, s + [f], rootKey);
      ScanSign(decode, ':', t2[..k], pos + |m.mid|, s + [f], rootKey);
      StackTop(s, g, g);
      if k <= |m.gap| {
        CutShort(m.gap, t3, k);
        CutBlank(decode, m.gap, k, pos + |m.mid| + 1, s + [g], rootKey);
      } else {
        CutLong(m.gap, t3, k);
        SkipBlank(decode, m.gap, t3[..k - |m.gap|], pos + |m.mid| + 1, s + [g], rootKey);
        CutRun(decode, m.value, m.post, k - |m.gap|, pos + |m.mid| + 1 + |m.gap|, s, g, rootKey);
      }
    }
  }

  /** A value and the white space behind it, cut anywhere but at the start. */
  lemma {:induction false} CutRun(decode: Decoder, v: Json, post: string, n: nat, pos: nat, s: seq<Frame>, f: Frame, rootKey: string)
    requires Valid(decode, v) && IsBlank(post) && 0 < n <= |Text(v)| + |post|
    requires f.awaits == Value && (f.isArray ==> f.path != [])
    ensures Scan(decode, (Text(v) + post)[..n], pos, s + [f], rootKey) ==
            Some(if Unfinished(v, n) then InValue(decode, v, n, pos, f.path, f.field, f.used, Inner(f), rootKey)
                 else Cursor(pos + n, "", false, f.field, f.path, RootAfter(decode, v, f.path, f.field, rootKey), f.used, false))
    decreases v, 1
  {
    hide Scan, RootAfter, Text, IsBlank, IsRaw, InValue, Valid, Inner;
    if Unfinished(v, n) {
      CutShort(Text(v), post, n);
      CutValue(decode, v, n, pos, s, f, rootKey);
    } else {
      var k := n - |Text(v)|;
      CutLong(Text(v), post, n);
      BlankHead(post, k);
      var g, root := f.(awaits := Comma), RootAfter(decode, v, f.path, f.field, rootKey);
      ScanValue(decode, v, post[..k], pos, s, f, rootKey);
      StackTop(s, g, g);
      CutBlank(decode, post, k, pos + |Text(v)|, s + [g], root);
    }
  }

  lemma BlankHead(w: string, k: nat)
    requires IsBlank(w) && k <= |w|
    ensures k > 0 ==> w[..k] != "" && EndsAtom(w[..k][0])
  {
    if k > 0 { assert w[..k][0] == w[0] && w[0] in w; }
  }

  lemma {:induction false} CutItems(decode: Decoder, items: Items, n: nat, pos: nat, s: seq<Frame>, f: Frame, rootKey: string)
    requires ValidItems(decode, items) && n < |ItemsText(items)|
    requires f.path != [] && f == Frame(f.path, "", Value, true, [])
    ensures Scan(decode, ItemsText(items)[..n], pos, s + [f], rootKey) ==
            Some(AtItems(decode, items, n, pos, f.path, rootKey))
    decreases items, 1
  {
    hide Scan, ItemText, Valid, IsBlank, AtItem;
    var i := items.i;
    assert ValidItem(decode, i);
    if n <= |ItemText(i)| {
      CutShort(ItemText(i), if items.LastItem? then "]" else "," + ItemsText(items.rest), n);
      CutItem(decode, i, n, pos, s, f, rootKey);
    } else {
      var g := f.(awaits := Comma);
      var k := n - |ItemText(i)| - 1;
      var t := ItemsText(items.rest)[..k];
      CutLong(ItemText(i), "," + ItemsText(items.rest), n);
      CutLong([','], ItemsText(items.rest), k + 1);
      ScanItem(decode, i, [','] + t, pos, s, f, rootKey);
      ScanSign(decode, ',', t, pos + |ItemText(i)|, s + [g], rootKey);
      StackTop(s, g, f);
      CutItems(decode, items.rest, k, pos + |ItemText(i)| + 1, s, f, rootKey);
    }
  }

  lemma {:induction false} CutItem(decode: Decoder, i: Item, n: nat, pos: nat, s: seq<Frame>, f: Frame, rootKey: string)
    requires ValidItem(decode, i) && n <= |ItemText(i)|
    requires f.path != [] && f == Frame(f.path, "", Value, true, [])
    ensures Scan(decode, ItemText(i)[..n], pos, s + [f], rootKey) ==
            Some(AtItem(decode, i, n, pos, f.path, rootKey))
    decreases i, 0
  {
    hide Scan, Text, IsBlank, InValue, Unfinished, Valid;
    var t := Text(i.value) + i.post;
    StackTop(s, f, f);
    if n <= |i.pre| {
      CutShort(i.pre, t, n);
      CutBlank(decode, i.pre, n, pos, s + [f], rootKey);
    } else {
      CutLong(i.pre, t, n);
      SkipBlank(decode, i.pre, t[..n - |i.pre|], pos, s + [f], rootKey);
      CutRun(decode, i.value, i.post, n - |i.pre|, pos + |i.pre|, s, f, rootKey);
    }
  }

  // ----- the theorem

  /** What the completion source should see after `n` characters of an object with `blank` before it. */
  function CursorAt(decode: Decoder, blank: string, root: Json, n: nat): Option<Cursor>
    requires Valid(decode, root) && (root.Obj? || root.NoMembers?)
    requires n < |blank| + |Text(root)|
  {
    if n <= |blank| then None
    else Some(InValue(decode, root, n - |blank|, |blank|, [], "", [], [], ""))
  }

  /**
    On every proper prefix of an object-rooted JSON text the scanner reports the enclosing member names,
    the names already read in the innermost container, and a key exactly where a member name may stand.
  */
  lemma CursorIsRight(decode: Decoder, blank: string, root: Json, n: nat)
    requires IsBlank(blank) && Valid(decode, root) && (root.Obj? || root.NoMembers?)
    requires n < |blank| + |Text(root)|
    ensures Scan(decode, (blank + Text(root))[..n], 0, [], "") == CursorAt(decode, blank, root, n)
  {
    hide Scan, IsBlank, ValidMembers, AtMembers;
    if n <= |blank| {
      CutShort(blank, Text(root), n);
      CutBlank(decode, blank, n, 0, [], "");
    } else {
      var k := n - |blank|;
      var h := Frame([], "", Key, false, []);
      CutLong(blank, Text(root), n);
      SkipBlank(decode, blank, Text(root)[..k], 0, [], "");
      StackTop([], h, h);
      assert Push([], '{') == [] + [h];
      match root
      case NoMembers(w) =>
        CutLong(['{'], w + "}", k);
        CutShort(w, "}", k - 1);
        ScanSign(decode, '{', w[..k - 1], |blank|, [], "");
        CutBlank(decode, w, k - 1, |blank| + 1, [] + [h], "");
      case Obj(members) =>
        CutLong(['{'], MembersText(members), k);
        ScanSign(decode, '{', MembersText(members)[..k - 1], |blank|, [], "");
        CutMembers(decode, members, k - 1, |blank| + 1, [], h, "");
    }
  }

  /** A finished text offers nothing. */
  lemma FinishedTextHasNoCursor(decode: Decoder, blank: string, root: Json, after: string)
    requires IsBlank(blank) && Valid(decode, root) && (root.Obj? || root.NoMembers?) && IsBlank(after)
    ensures Scan(decode, blank + (Text(root) + after), 0, [], "").None?
  {
    hide Scan, IsBlank, ValidMembers;
    var f, t := Frame([], "", Key, false, []), Text(root)[1..] + after;
    assert Text(root) + after == ['{'] + t && Push([], '{') == [] + [f];
    SkipBlank(decode, blank, ['{'] + t, 0, [], "");
    ScanSign(decode, '{', t, |blank|, [], "");
    assert after[..|after|] == after;
    match root
    case NoMembers(w) =>
      assert t == w + (['}'] + after);
      SkipBlank(decode, w, ['}'] + after, |blank| + 1, [] + [f], "");
      ScanSign(decode, '}', after, |blank| + 1 + |w|, [] + [f], "");
      CutBlank(decode, after, |after|, |blank| + |w| + 2, [], "");
    case Obj(members) =>
      assert t == MembersText(members) + after;
      ScanMembers(decode, members, after, |blank| + 1, [], f, "");
      CutBlank(decode, after, |after|, |blank| + 1 + |MembersText(members)|, [], RootAfterMembers(decode, members, [], ""));
  }
}

/**
  Collaboration updates travel as canonical base64 (sections 3.5 and 4 of RFC 4648).
  The platform's btoa and atob are modelled by their own standards: atob is forgiving about
  pad bits, so canonicity rests on the re-encoding check.
*/
module Base64 {
  import opened Basics

  type byte = x: int | 0 <= x < 256

  datatype Outcome<+T> = Ok(value: T) | NotCanonical | BadSize

  // ----- the alphabet

  predicate InAlphabet(c: char) {
    'A' <= c <= 'Z' || 'a' <= c <= 'z' || '0' <= c <= '9' || c == '+' || c == '/'
  }

  predicate AllDigits(s: string) {
    forall c <- s :: InAlphabet(c)
  }

  function Digit(v: nat): (c: char)
    requires v < 64
    ensures InAlphabet(c) && DigitValue(c) == v
  {
    if v < 26 then 'A' + v as char
    else if v < 52 then 'a' + (v - 26) as char
    else if v < 62 then '0' + (v - 52) as char
    else if v == 62 then '+' else '/'
  }

  function DigitValue(c: char): (v: nat)
    requires InAlphabet(c)
    ensures v < 64
  {
    if 'A' <= c <= 'Z' then (c - 'A') as nat
    else if 'a' <= c <= 'z' then (c - 'a') as nat + 26
    else if '0' <= c <= '9' then (c - '0') as nat + 52
    else if c == '+' then 62 else 63
  }

  lemma DigitOfValue(c: char)
    requires InAlphabet(c)
    ensures Digit(DigitValue(c)) == c
  {
  }

  // ----- how three bytes a, b, c and four digit values share twenty-four bits

  function S0(a: byte): (v: nat) ensures v < 64 { a / 4 }

  function S1(a: byte, b: byte): (v: nat) ensures v < 64 { a % 4 * 16 + b / 16 }

  function S2(b: byte, c: byte): (v: nat) ensures v < 64 { b % 16 * 4 + c / 64 }

  function S3(c: byte): (v: nat) ensures v < 64 { c % 64 }

  function B0(v0: nat, v1: nat): byte
    requires v0 < 64 && v1 < 64
  {
    v0 * 4 + v1 / 16
  }

  function B1(v1: nat, v2: nat): byte
    requires v1 < 64 && v2 < 64
  {
    v1 % 16 * 16 + v2 / 4
  }

  function B2(v2: nat, v3: nat): byte
    requires v2 < 64 && v3 < 64
  {
    v2 % 4 * 64 + v3
  }

  lemma SplitJoin0(a: byte, b: byte)
    ensures B0(S0(a), S1(a, b)) == a
  {
    assert S1(a, b) / 16 == a % 4;
  }

  lemma SplitJoin1(a: byte, b: byte, c: byte)
    ensures B1(S1(a, b), S2(b, c)) == b
  {
    assert S1(a, b) % 16 == b / 16 && S2(b, c) / 4 == b % 16;
  }

  lemma SplitJoin2(b: byte, c: byte)
    ensures B2(S2(b, c), S3(c)) == c
  {
    assert S2(b, c) % 4 == c / 64;
  }

  /** The pad bits of a split are zero. */
  lemma SplitPads(a: byte)
    ensures S1(a, 0) % 16 == 0 && S2(a, 0) % 4 == 0
  {
  }

  lemma JoinSplit0(v0: nat, v1: nat)
    requires v0 < 64 && v1 < 64
    ensures S0(B0(v0, v1)) == v0 && (v1 % 16 == 0 ==> S1(B0(v0, v1), 0) == v1)
  {
    assert B0(v0, v1) % 4 == v1 / 16;
  }

  lemma JoinSplit1(v0: nat, v1: nat, v2: nat)
    requires v0 < 64 && v1 < 64 && v2 < 64
    ensures S1(B0(v0, v1), B1(v1, v2)) == v1 && (v2 % 4 == 0 ==> S2(B1(v1, v2), 0) == v2)
  {
    assert B0(v0, v1) % 4 == v1 / 16 && B1(v1, v2) / 16 == v1 % 16 && B1(v1, v2) % 16 == v2 / 4;
  }

  lemma JoinSplit2(v1: nat, v2: nat, v3: nat)
    requires v1 < 64 && v2 < 64 && v3 < 64
    ensures S2(B1(v1, v2), B2(v2, v3)) == v2 && S3(B2(v2, v3)) == v3
  {
    assert B1(v1, v2) % 16 == v2 / 4 && B2(v2, v3) / 64 == v2 % 4;
  }

  // ----- the platform's conversions

  /** How many groups of four digits `n` bytes take. */
  function Groups(n: nat): nat {
    if n == 0 then 0 else if n <= 3 then 1 else Groups(n - 3) + 1
  }

  lemma {:induction false} GroupsAreCeil(n: nat)
    ensures Groups(n) == (n + 2) / 3
  {
    if n > 3 { GroupsAreCeil(n - 3); }
  }

  /** Three bytes become four digits; one or two left-over bytes are padded with zero bits and '='. */
  function Digits(bs: seq<byte>): (s: string)
    ensures |s| == 4 * Groups(|bs|)
  {
    if |bs| == 0 then ""
    else if |bs| == 1 then [Digit(S0(bs[0])), Digit(S1(bs[0], 0)), '=', '=']
    else if |bs| == 2 then [Digit(S0(bs[0])), Digit(S1(bs[0], bs[1])), Digit(S2(bs[1], 0)), '=']
    else
      [Digit(S0(bs[0])), Digit(S1(bs[0], bs[1])), Digit(S2(bs[1], bs[2])), Digit(S3(bs[2]))] + Digits(bs[3..])
  }

  /** Left-over digits keep their whole bytes and lose the bits behind them. */
  function Bytes(s: string): (bs: seq<byte>)
    requires AllDigits(s) && |s| % 4 != 1
    ensures |bs| == |s| / 4 * 3 + (if |s| % 4 == 0 then 0 else |s| % 4 - 1)
  {
    if |s| == 0 then []
    else if |s| == 2 then [B0(At(s, 0), At(s, 1))]
    else if |s| == 3 then [B0(At(s, 0), At(s, 1)), B1(At(s, 1), At(s, 2))]
    else
      assert forall c <- s[4..] :: c in s;
      assert |s[4..]| % 4 == |s| % 4 && |s[4..]| / 4 == |s| / 4 - 1;
      [B0(At(s, 0), At(s, 1)), B1(At(s, 1), At(s, 2)), B2(At(s, 2), At(s, 3))] + Bytes(s[4..])
  }

  function At(s: string, i: nat): (v: nat)
    requires AllDigits(s) && i < |s|
    ensures v < 64
  {
    assert InAlphabet(s[i]);
    DigitValue(s[i])
  }

  /** btoa: None where it throws, for a character beyond Latin-1. */
  function Btoa(binary: string): Option<string> {
    if forall c <- binary :: c as int < 256 then Some(Digits(CharCodes(binary))) else None
  }

  function Code(c: char): byte
    requires c as int < 256
  {
    c as int
  }

  function CharCodes(binary: string): seq<byte>
    requires forall c <- binary :: c as int < 256
  {
    seq(|binary|, i requires 0 <= i < |binary| => assert binary[i] in binary; Code(binary[i]))
  }

  function Unpadded(s: string): string {
    if |s| % 4 != 0 || s == "" || s[|s| - 1] != '=' then s
    else if s[|s| - 2] != '=' then s[..|s| - 1]
    else s[..|s| - 2]
  }

  /** atob on text without white space: forgiving about padding and pad bits. */
  function Atob(s: string): Option<seq<byte>> {
    var data := Unpadded(s);
    if |data| % 4 == 1 || !AllDigits(data) then None else Some(Bytes(data))
  }

  // ----- the codec

  /** The regular expression: whole groups, then at most one padded group. */
  predicate MatchesPattern(s: string) {
    s == "" ||
    (|s| >= 4 && AllDigits(s[..4]) && MatchesPattern(s[4..])) ||
    (|s| == 4 && AllDigits(s[..2]) && s[2..] == "==") ||
    (|s| == 4 && AllDigits(s[..3]) && s[3] == '=')
  }

  function Encode(value: seq<byte>, maxBytes: int): Outcome<string> {
    if |value| < 1 || |value| > maxBytes then BadSize else Ok(Digits(value))
  }

  function Decode(value: string, maxBytes: int): Outcome<seq<byte>> {
    if |value| < 1 || !MatchesPattern(value) then NotCanonical
    else
      match Atob(value)
      case None => NotCanonical
      case Some(bytes) =>
        if |bytes| < 1 || |bytes| > maxBytes then BadSize
        else if Encode(bytes, maxBytes) != Ok(value) then NotCanonical
        else Ok(bytes)
  }

  /** Live notes look at the length before they decode. */
  function BoundedUpdate(value: string, maxBytes: nat): Outcome<seq<byte>> {
    if |value| > (maxBytes + 2) / 3 * 4 then BadSize else Decode(value, maxBytes)
  }

  method EncodeCollaborationUpdate(value: seq<byte>, maxBytes: int) returns (r: Outcome<string>)
    ensures r == Encode(value, maxBytes)
  {
    if |value| < 1 || |value| > maxBytes {
      return BadSize;
    }
    var binary := "";
    for i := 0 to |value|
      invariant |binary| == i
      invariant forall j :: 0 <= j < i ==> binary[j] as int == value[j]
    {
      binary := binary + [value[i] as char];
    }
    assert CharCodes(binary) == value;
    return Ok(Btoa(binary).value);
  }

  method DecodeCollaborationUpdate(value: string, maxBytes: int) returns (r: Outcome<seq<byte>>)
    ensures r == Decode(value, maxBytes)
  {
    if |value| < 1 || !MatchesPattern(value) {
      return NotCanonical;
    }
    var bytes := Atob(value);
    if bytes.None? {
      return NotCanonical;
    }
    if |bytes.value| < 1 || |bytes.value| > maxBytes {
      return BadSize;
    }
    var again := EncodeCollaborationUpdate(bytes.value, maxBytes);
    if again != Ok(value) {
      return NotCanonical;
    }
    return Ok(bytes.value);
  }

  // ----- canonical texts

  /** Section 3.5 of RFC 4648: well padded, and every pad bit is zero. */
  predicate Canonical(s: string) {
    s == "" ||
    (|s| >= 4 && AllDigits(s[..4]) && Canonical(s[4..])) ||
    (|s| == 4 && InAlphabet(s[0]) && InAlphabet(s[1]) && s[2] == '=' && s[3] == '=' && DigitValue(s[1]) % 16 == 0) ||
    (|s| == 4 && InAlphabet(s[0]) && InAlphabet(s[1]) && InAlphabet(s[2]) && s[3] == '=' && DigitValue(s[2]) % 4 == 0)
  }

  /** How many bytes a well padded text stands for. */
  function Payload(s: string): int {
    |s| / 4 * 3 - (if s == "" || s[|s| - 1] != '=' then 0 else if |s| < 2 || s[|s| - 2] != '=' then 1 else 2)
  }

  lemma FirstGroup(s: string)
    requires |s| >= 4 && AllDigits(s[..4])
    ensures InAlphabet(s[0]) && InAlphabet(s[1]) && InAlphabet(s[2]) && InAlphabet(s[3])
    ensures '=' !in s[..4]
  {
    assert s[..4][0] == s[0] && s[..4][1] == s[1] && s[..4][2] == s[2] && s[..4][3] == s[3];
  }

  lemma UnpaddedRest(s: string)
    requires |s| > 4 && |s| % 4 == 0
    ensures Unpadded(s) == s[..4] + Unpadded(s[4..]) && Unpadded(s)[4..] == Unpadded(s[4..])
  {
  }

  /** One group that fills the text. */
  lemma LastGroup(s: string)
    requires |s| == 4 && InAlphabet(s[0]) && InAlphabet(s[1]) && s[3] == '='
    ensures s[2] == '=' ==> Unpadded(s) == s[..2] && s[2..] == "==" && AllDigits(s[..2])
    ensures InAlphabet(s[2]) ==> Unpadded(s) == s[..3] && AllDigits(s[..3])
    ensures !AllDigits(s[..4])
  {
    if AllDigits(s[..4]) { FirstGroup(s); }
  }

  lemma {:induction false} PatternLength(s: string)
    requires MatchesPattern(s)
    ensures |s| % 4 == 0
  {
    if |s| >= 4 && AllDigits(s[..4]) && MatchesPattern(s[4..]) { PatternLength(s[4..]); }
  }

  /** A full group in front of more text, for atob. */
  lemma GroupThenRest(s: string)
    requires |s| >= 4 && |s| % 4 == 0 && AllDigits(s[..4]) && AllDigits(Unpadded(s[4..])) && |Unpadded(s[4..])| % 4 != 1
    ensures AllDigits(Unpadded(s)) && |Unpadded(s)| % 4 != 1
    ensures Bytes(Unpadded(s)) ==
            [B0(At(s[..4], 0), At(s[..4], 1)), B1(At(s[..4], 1), At(s[..4], 2)), B2(At(s[..4], 2), At(s[..4], 3))] +
            Bytes(Unpadded(s[4..]))
  {
    hide InAlphabet, DigitValue, B0, B1, B2;
    var data := Unpadded(s);
    if |s| > 4 {
      UnpaddedRest(s);
    } else {
      FirstGroup(s);
      assert s[3] in s[..4];
      assert data == s && s[4..] == "" && s == s[..4];
    }
    assert data == s[..4] + Unpadded(s[4..]) && data[4..] == Unpadded(s[4..]);
    assert data[0] == s[..4][0] && data[1] == s[..4][1] && data[2] == s[..4][2] && data[3] == s[..4][3];
  }

  /** After the pattern, atob cannot fail, and it yields as many bytes as the padding says. */
  lemma {:induction false} PatternDecodes(s: string)
    requires MatchesPattern(s)
    ensures Atob(s).Some? && |Atob(s).value| == Payload(s)
  {
    hide InAlphabet, DigitValue, B0, B1, B2;
    PatternLength(s);
    if s == "" {
    } else if AllDigits(s[..4]) && MatchesPattern(s[4..]) {
      PatternDecodes(s[4..]);
      PatternLength(s[4..]);
      GroupThenRest(s);
      if |s| == 4 {
        FirstGroup(s);
        assert s[4..] == "" && s[3] in s[..4];
      } else {
        assert s[4..][|s| - 5] == s[|s| - 1] && (|s| > 5 ==> s[4..][|s| - 6] == s[|s| - 2]);
      }
    } else if AllDigits(s[..2]) && s[2..] == "==" {
      assert s[0] == s[..2][0] && s[1] == s[..2][1] && s[2] == s[2..][0] && s[3] == s[2..][1];
      LastGroup(s);
    } else {
      assert s[0] == s[..3][0] && s[1] == s[..3][1] && s[2] == s[..3][2];
      LastGroup(s);
      PaddingIsNoDigit(s[2]);
    }
  }

  lemma PaddingIsNoDigit(c: char)
    ensures InAlphabet(c) ==> c != '='
  {
  }

  lemma OneByteTrip(a: byte)
    ensures Canonical(Digits([a])) && Atob(Digits([a])) == Some([a])
  {
    hide InAlphabet, DigitValue, Digit, B0, B1, B2, S0, S1, S2, S3, Canonical;
    var s := Digits([a]);
    LastGroup(s);
    assert Canonical(s) by { SplitPads(a); PadTwo(s); }
    SplitJoin0(a, 0);
    assert At(s[..2], 0) == S0(a) && At(s[..2], 1) == S1(a, 0);
    assert Bytes(s[..2]) == [a];
  }

  lemma TwoByteTrip(a: byte, b: byte)
    ensures Canonical(Digits([a, b])) && Atob(Digits([a, b])) == Some([a, b])
  {
    hide InAlphabet, DigitValue, Digit, B0, B1, B2, S0, S1, S2, S3, Canonical;
    var s := Digits([a, b]);
    PaddingIsNoDigit(s[2]);
    LastGroup(s);
    assert Canonical(s) by { SplitPads(b); PadOne(s); }
    SplitJoin0(a, b);
    SplitJoin1(a, b, 0);
    assert At(s[..3], 0) == S0(a) && At(s[..3], 1) == S1(a, b) && At(s[..3], 2) == S2(b, 0);
    assert Bytes(s[..3]) == [a, b];
  }

  lemma PadTwo(s: string)
    requires |s| == 4 && InAlphabet(s[0]) && InAlphabet(s[1]) && s[2] == '=' && s[3] == '=' && DigitValue(s[1]) % 16 == 0
    ensures Canonical(s)
  {
  }

  lemma PadOne(s: string)
    requires |s| == 4 && InAlphabet(s[0]) && InAlphabet(s[1]) && InAlphabet(s[2]) && s[3] == '=' && DigitValue(s[2]) % 4 == 0
    ensures Canonical(s)
  {
  }

  /** Encoding produces canonical text that atob takes back to the same bytes. */
  lemma {:induction false} DigitsRoundTrip(bs: seq<byte>)
    ensures Canonical(Digits(bs)) && Atob(Digits(bs)) == Some(bs)
  {
    hide InAlphabet, DigitValue, Digit, B0, B1, B2, S0, S1, S2, S3;
    if |bs| == 0 {
    } else if |bs| == 1 {
      OneByteTrip(bs[0]);
      assert bs == [bs[0]];
    } else if |bs| == 2 {
      TwoByteTrip(bs[0], bs[1]);
      assert bs == [bs[0], bs[1]];
    } else {
      DigitsRoundTrip(bs[3..]);
      ThreeByteTrip(bs[0], bs[1], bs[2], bs[3..]);
      assert bs == [bs[0], bs[1], bs[2]] + bs[3..];
    }
  }

  lemma FourAreDigits(v0: nat, v1: nat, v2: nat, v3: nat)
    requires v0 < 64 && v1 < 64 && v2 < 64 && v3 < 64
    ensures AllDigits([Digit(v0), Digit(v1), Digit(v2), Digit(v3)])
  {
  }

  lemma CanonicalGroup(s: string)
    requires |s| >= 4 && AllDigits(s[..4]) && Canonical(s[4..])
    ensures Canonical(s)
  {
  }

  lemma ThreeByteTrip(a: byte, b: byte, c: byte, rest: seq<byte>)
    requires Canonical(Digits(rest)) && Atob(Digits(rest)) == Some(rest)
    ensures Canonical(Digits([a, b, c] + rest)) && Atob(Digits([a, b, c] + rest)) == Some([a, b, c] + rest)
  {
    hide InAlphabet, DigitValue, Digit, B0, B1, B2, S0, S1, S2, S3, Bytes, Unpadded, Canonical, AllDigits;
    var s := Digits([a, b, c] + rest);
    var g := [Digit(S0(a)), Digit(S1(a, b)), Digit(S2(b, c)), Digit(S3(c))];
    SplitJoin0(a, b);
    SplitJoin1(a, b, c);
    SplitJoin2(b, c);
    assert ([a, b, c] + rest)[3..] == rest;
    assert s == g + Digits(rest);
    assert s[..4] == g && s[4..] == Digits(rest);
    FourAreDigits(S0(a), S1(a, b), S2(b, c), S3(c));
    CanonicalGroup(s);
    GroupThenRest(s);
    assert At(g, 0) == S0(a) && At(g, 1) == S1(a, b) && At(g, 2) == S2(b, c) && At(g, 3) == S3(c);
  }

  /** Decoding canonical text and encoding again changes nothing. */
  lemma {:induction false} CanonicalRoundTrip(s: string)
    requires Canonical(s)
    ensures Atob(s).Some? && Digits(Atob(s).value) == s
  {
    hide InAlphabet, DigitValue, Digit, B0, B1, B2, S0, S1, S2, S3;
    if s == "" {
    } else if |s| >= 4 && AllDigits(s[..4]) && Canonical(s[4..]) {
      CanonicalRoundTrip(s[4..]);
      CanonicalMatches(s);
      PatternLength(s);
      GroupThenRest(s);
      FirstGroup(s);
      DigitsOfGroup(s[..4], Bytes(Unpadded(s[4..])));
      assert s == s[..4] + s[4..];
    } else {
      PaddingIsNoDigit(s[2]);
      if s[2] == '=' { TwoDigitTrip(s); } else { ThreeDigitTrip(s); }
    }
  }

  lemma DigitsOfGroup(g: string, rest: seq<byte>)
    requires |g| == 4 && AllDigits(g)
    ensures Digits([B0(At(g, 0), At(g, 1)), B1(At(g, 1), At(g, 2)), B2(At(g, 2), At(g, 3))] + rest) == g + Digits(rest)
  {
    hide InAlphabet, DigitValue, Digit, B0, B1, B2, S0, S1, S2, S3;
    var head := [B0(At(g, 0), At(g, 1)), B1(At(g, 1), At(g, 2)), B2(At(g, 2), At(g, 3))];
    JoinSplit0(At(g, 0), At(g, 1));
    JoinSplit1(At(g, 0), At(g, 1), At(g, 2));
    JoinSplit2(At(g, 1), At(g, 2), At(g, 3));
    assert g[0] in g && g[1] in g && g[2] in g && g[3] in g;
    DigitOfValue(g[0]);
    DigitOfValue(g[1]);
    DigitOfValue(g[2]);
    DigitOfValue(g[3]);
    assert (head + rest)[3..] == rest;
    assert g == [g[0], g[1], g[2], g[3]];
  }

  lemma TwoDigitTrip(s: string)
    requires |s| == 4 && InAlphabet(s[0]) && InAlphabet(s[1]) && s[2] == '=' && s[3] == '=' && DigitValue(s[1]) % 16 == 0
    ensures Atob(s).Some? && Digits(Atob(s).value) == s
  {
    hide InAlphabet, DigitValue, Digit, B0, B1, B2, S0, S1, S2, S3, AllDigits;
    LastGroup(s);
    DigitOfValue(s[0]);
    DigitOfValue(s[1]);
    JoinSplit0(DigitValue(s[0]), DigitValue(s[1]));
    assert At(s[..2], 0) == DigitValue(s[0]) && At(s[..2], 1) == DigitValue(s[1]);
    assert Bytes(s[..2]) == [B0(DigitValue(s[0]), DigitValue(s[1]))];
    assert s == [s[0], s[1], '=', '='];
  }

  lemma ThreeDigitTrip(s: string)
    requires |s| == 4 && InAlphabet(s[0]) && InAlphabet(s[1]) && InAlphabet(s[2]) && s[3] == '=' && DigitValue(s[2]) % 4 == 0
    ensures Atob(s).Some? && Digits(Atob(s).value) == s
  {
    hide InAlphabet, DigitValue, Digit, B0, B1, B2, S0, S1, S2, S3, AllDigits;
    var v0, v1, v2 := DigitValue(s[0]), DigitValue(s[1]), DigitValue(s[2]);
    PaddingIsNoDigit(s[2]);
    LastGroup(s);
    DigitOfValue(s[0]);
    DigitOfValue(s[1]);
    DigitOfValue(s[2]);
    JoinSplit0(v0, v1);
    JoinSplit1(v0, v1, v2);
    assert At(s[..3], 0) == v0 && At(s[..3], 1) == v1 && At(s[..3], 2) == v2;
    assert Bytes(s[..3]) == [B0(v0, v1), B1(v1, v2)];
    assert s == [s[0], s[1], s[2], '='];
  }

  lemma {:induction false} CanonicalMatches(s: string)
    requires Canonical(s)
    ensures MatchesPattern(s)
  {
    if s == "" {
    } else if |s| >= 4 && AllDigits(s[..4]) && Canonical(s[4..]) {
      CanonicalMatches(s[4..]);
    } else {
      LastGroup(s);
    }
  }

  // ----- the theorems

  /** Decoding inverts encoding at every admitted size. */
  lemma DecodeInvertsEncode(bytes: seq<byte>, maxBytes: int)
    requires 1 <= |bytes| <= maxBytes
    ensures Encode(bytes, maxBytes).Ok? && Decode(Encode(bytes, maxBytes).value, maxBytes) == Ok(bytes)
  {
    hide MatchesPattern, Canonical, Digits, Atob;
    DigitsRoundTrip(bytes);
    CanonicalMatches(Digits(bytes));
  }

  /** Exactly the canonical texts of admitted size are accepted, each as the encoding of its bytes. */
  lemma AcceptedIsCanonical(s: string, maxBytes: int)
    ensures Decode(s, maxBytes).Ok? <==> Canonical(s) && 1 <= Payload(s) <= maxBytes
    ensures Decode(s, maxBytes).Ok? ==>
              Encode(Decode(s, maxBytes).value, maxBytes) == Ok(s) && |Decode(s, maxBytes).value| == Payload(s)
  {
    assert Payload("") == 0;
    hide MatchesPattern, Canonical, Digits, Atob, Payload;
    if MatchesPattern(s) {
      PatternDecodes(s);
      DigitsRoundTrip(Atob(s).value);
      if Canonical(s) { CanonicalRoundTrip(s); }
    } else if Canonical(s) {
      CanonicalMatches(s);
    }
  }

  /** No bytes have two accepted texts. */
  lemma EncodingIsUnique(s: string, t: string, maxBytes: int)
    requires Decode(s, maxBytes).Ok? && Decode(s, maxBytes) == Decode(t, maxBytes)
    ensures s == t
  {
    AcceptedIsCanonical(s, maxBytes);
    AcceptedIsCanonical(t, maxBytes);
  }

  /** The length check in front of the decoder only ever refuses what the decoder refuses. */
  lemma PreCheckIsSafe(s: string, maxBytes: nat)
    ensures BoundedUpdate(s, maxBytes).Ok? <==> Decode(s, maxBytes).Ok?
    ensures Decode(s, maxBytes).Ok? ==> BoundedUpdate(s, maxBytes) == Decode(s, maxBytes)
  {
    hide MatchesPattern, Canonical, Digits, Atob, Encode;
    if Decode(s, maxBytes).Ok? {
      AcceptedIsCanonical(s, maxBytes);
      PatternLength(s);
      PayloadBound(s, maxBytes);
    }
  }

  lemma PayloadBound(s: string, maxBytes: nat)
    requires |s| % 4 == 0 && Payload(s) <= maxBytes
    ensures |s| <= (maxBytes + 2) / 3 * 4
  {
    var q := |s| / 4;
    assert 3 * q <= maxBytes + 2;
    assert q <= (maxBytes + 2) / 3;
  }

  /** The bound is tight: an update of full size reaches it. */
  lemma PreCheckIsTight(bytes: seq<byte>, maxBytes: nat)
    requires |bytes| == maxBytes >= 1
    ensures Encode(bytes, maxBytes).Ok? && |Encode(bytes, maxBytes).value| == (maxBytes + 2) / 3 * 4
    ensures BoundedUpdate(Encode(bytes, maxBytes).value, maxBytes) == Ok(bytes)
  {
    GroupsAreCeil(maxBytes);
    DecodeInvertsEncode(bytes, maxBytes);
    PreCheckIsSafe(Encode(bytes, maxBytes).value, maxBytes);
  }

  // ----- section 4 of RFC 4648: the digits spell the bits of the bytes

  /** The `width` low bits, highest first. */
  function Bits(n: nat, width: nat): (b: seq<bool>)
    ensures |b| == width
  {
    if width == 0 then [] else Bits(n / 2, width - 1) + [n % 2 == 1]
  }

  function Power(k: nat): (p: nat)
    ensures p > 0
  {
    if k == 0 then 1 else 2 * Power(k - 1)
  }

  function ByteBits(bs: seq<byte>): seq<bool> {
    if bs == [] then [] else Bits(bs[0], 8) + ByteBits(bs[1..])
  }

  function DigitBits(s: string): seq<bool>
    requires AllDigits(s)
  {
    if s == "" then []
    else
      assert InAlphabet(s[0]) && forall c <- s[1..] :: c in s;
      Bits(DigitValue(s[0]), 6) + DigitBits(s[1..])
  }

  lemma {:induction false} BitsConcat(hi: nat, lo: nat, w: nat, k: nat)
    requires lo < Power(k)
    ensures Bits(hi * Power(k) + lo, w + k) == Bits(hi, w) + Bits(lo, k)
  {
    if k == 0 {
    } else {
      var p := Power(k - 1);
      assert hi * Power(k) == 2 * (hi * p);
      assert (2 * (hi * p) + lo) / 2 == hi * p + lo / 2;
      assert (2 * (hi * p) + lo) % 2 == lo % 2;
      BitsConcat(hi, lo / 2, w, k - 1);
    }
  }

  lemma Powers()
    ensures Power(2) == 4 && Power(4) == 16 && Power(6) == 64 && Power(8) == 256
  {
    assert Power(1) == 2 && Power(3) == 8 && Power(5) == 32 && Power(7) == 128;
  }

  lemma BitsS0(a: byte)
    ensures Bits(a, 8) == Bits(S0(a), 6) + Bits(a % 4, 2)
  {
    hide Bits, Power;
    Powers();
    BitsConcat(a / 4, a % 4, 6, 2);
  }

  lemma BitsS1(a: byte, b: byte)
    ensures Bits(S1(a, b), 6) == Bits(a % 4, 2) + Bits(b / 16, 4)
  {
    hide Bits, Power;
    Powers();
    BitsConcat(a % 4, b / 16, 2, 4);
  }

  lemma BitsMiddle(b: byte)
    ensures Bits(b, 8) == Bits(b / 16, 4) + Bits(b % 16, 4)
  {
    hide Bits, Power;
    Powers();
    BitsConcat(b / 16, b % 16, 4, 4);
  }

  lemma BitsS2(b: byte, c: byte)
    ensures Bits(S2(b, c), 6) == Bits(b % 16, 4) + Bits(c / 64, 2)
  {
    hide Bits, Power;
    Powers();
    BitsConcat(b % 16, c / 64, 4, 2);
  }

  lemma BitsS3(c: byte)
    ensures Bits(c, 8) == Bits(c / 64, 2) + Bits(S3(c), 6)
  {
    hide Bits, Power;
    Powers();
    BitsConcat(c / 64, c % 64, 2, 6);
  }

  lemma GroupBits(a: byte, b: byte, c: byte)
    ensures Bits(S0(a), 6) + Bits(S1(a, 0), 6) == Bits(a, 8) + Bits(0, 4)
    ensures Bits(S0(a), 6) + Bits(S1(a, b), 6) + Bits(S2(b, 0), 6) == Bits(a, 8) + Bits(b, 8) + Bits(0, 2)
    ensures Bits(S0(a), 6) + Bits(S1(a, b), 6) + Bits(S2(b, c), 6) + Bits(S3(c), 6) == Bits(a, 8) + Bits(b, 8) + Bits(c, 8)
  {
    hide Bits, S0, S1, S2, S3;
    BitsS0(a);
    BitsS1(a, 0);
    BitsS1(a, b);
    BitsMiddle(b);
    BitsS2(b, 0);
    BitsS2(b, c);
    BitsS3(c);
  }

  function PadBits(n: nat): nat {
    if n % 3 == 1 then 4 else if n % 3 == 2 then 2 else 0
  }

  lemma DigitBitsStep(c: char, s: string)
    requires InAlphabet(c) && AllDigits(s)
    ensures AllDigits([c] + s) && DigitBits([c] + s) == Bits(DigitValue(c), 6) + DigitBits(s)
  {
    hide Bits, InAlphabet, DigitValue;
    assert ([c] + s)[1..] == s;
  }

  lemma ByteBitsStep(b: byte, bs: seq<byte>)
    ensures ByteBits([b] + bs) == Bits(b, 8) + ByteBits(bs)
  {
    hide Bits;
    assert ([b] + bs)[1..] == bs;
  }

  lemma TwoDigits(v0: nat, v1: nat)
    requires v0 < 64 && v1 < 64
    ensures var s := [Digit(v0), Digit(v1)]; AllDigits(s) && DigitBits(s) == Bits(v0, 6) + Bits(v1, 6)
  {
    hide Bits, InAlphabet, DigitValue, Digit;
    DigitBitsStep(Digit(v1), "");
    DigitBitsStep(Digit(v0), [Digit(v1)] + "");
    assert [Digit(v0), Digit(v1)] == [Digit(v0)] + ([Digit(v1)] + "");
  }

  lemma MoreDigits(s: string, v0: nat, v1: nat)
    requires v0 < 64 && v1 < 64 && AllDigits(s)
    ensures var t := [Digit(v0), Digit(v1)] + s; AllDigits(t) && DigitBits(t) == Bits(v0, 6) + Bits(v1, 6) + DigitBits(s)
  {
    hide Bits, InAlphabet, DigitValue, Digit;
    DigitBitsStep(Digit(v1), s);
    DigitBitsStep(Digit(v0), [Digit(v1)] + s);
    assert [Digit(v0), Digit(v1)] + s == [Digit(v0)] + ([Digit(v1)] + s);
  }

  lemma PadRepeats(n: nat)
    ensures n >= 3 ==> PadBits(n) == PadBits(n - 3)
    ensures PadBits(0) == 0 && PadBits(1) == 4 && PadBits(2) == 2
  {
  }

  /** The digits before the padding are the bits of the bytes, filled up with zero bits. */
  lemma {:induction false} DigitsSpellBits(bs: seq<byte>)
    ensures AllDigits(Unpadded(Digits(bs)))
    ensures DigitBits(Unpadded(Digits(bs))) == ByteBits(bs) + Bits(0, PadBits(|bs|))
  {
    hide Bits, InAlphabet, DigitValue, Digit, S0, S1, S2, S3, ByteBits, DigitBits, AllDigits, Digits, Unpadded, PadBits;
    PadRepeats(|bs|);
    if |bs| == 0 {
      NoBytesSpell();
      assert bs == [];
    } else if |bs| == 1 {
      OneSpells(bs[0]);
      assert bs == [bs[0]];
    } else if |bs| == 2 {
      TwoSpell(bs[0], bs[1]);
      assert bs == [bs[0], bs[1]];
    } else {
      DigitsSpellBits(bs[3..]);
      ThreeSpell(bs[0], bs[1], bs[2], bs[3..]);
      assert bs == [bs[0], bs[1], bs[2]] + bs[3..];
    }
  }

  lemma NoBytesSpell()
    ensures AllDigits(Unpadded(Digits([]))) && DigitBits(Unpadded(Digits([]))) == ByteBits([]) + Bits(0, 0)
    ensures DigitBits("") == [] && ByteBits([]) == []
  {
  }

  lemma OneSpells(a: byte)
    ensures var s := Unpadded(Digits([a])); AllDigits(s) && DigitBits(s) == ByteBits([a]) + Bits(0, 4)
  {
    hide Bits, InAlphabet, DigitValue, Digit, S0, S1, S2, S3, DigitBits;
    var s := Digits([a]);
    LastGroup(s);
    GroupBits(a, 0, 0);
    TwoDigits(S0(a), S1(a, 0));
    assert s[..2] == [Digit(S0(a)), Digit(S1(a, 0))];
    ByteBitsStep(a, []);
    assert [a] + [] == [a] && ByteBits([]) == [];
  }

  lemma TwoSpell(a: byte, b: byte)
    ensures var s := Unpadded(Digits([a, b])); AllDigits(s) && DigitBits(s) == ByteBits([a, b]) + Bits(0, 2)
  {
    hide Bits, InAlphabet, DigitValue, Digit, S0, S1, S2, S3, DigitBits, ByteBits;
    var s := Digits([a, b]);
    var last := [Digit(S2(b, 0))];
    assert DigitBits("") == [] && ByteBits([]) == [] by { NoBytesSpell(); }
    GroupBits(a, b, 0);
    PaddingIsNoDigit(s[2]);
    LastGroup(s);
    DigitBitsStep(Digit(S2(b, 0)), "");
    assert last + "" == last;
    MoreDigits(last, S0(a), S1(a, b));
    assert s[..3] == [Digit(S0(a)), Digit(S1(a, b))] + last;
    ByteBitsStep(b, []);
    assert [b] + [] == [b] && [a, b] == [a] + [b];
    ByteBitsStep(a, [b]);
    assert Bits(S2(b, 0), 6) + [] == Bits(S2(b, 0), 6) && Bits(b, 8) + [] == Bits(b, 8);
  }

  lemma ThreeSpell(a: byte, b: byte, c: byte, rest: seq<byte>)
    requires AllDigits(Unpadded(Digits(rest)))
    ensures var s := Unpadded(Digits([a, b, c] + rest));
            AllDigits(s) &&
            DigitBits(s) == Bits(a, 8) + Bits(b, 8) + Bits(c, 8) + DigitBits(Unpadded(Digits(rest)))
    ensures ByteBits([a, b, c] + rest) == Bits(a, 8) + Bits(b, 8) + Bits(c, 8) + ByteBits(rest)
  {
    hide Bits, InAlphabet, DigitValue, Digit, S0, S1, S2, S3, ByteBits, DigitBits, AllDigits;
    var bs := [a, b, c] + rest;
    GroupBits(a, b, c);
    UnpaddedGroup(a, b, c, rest);
    var tail := Unpadded(Digits(rest));
    MoreDigits(tail, S2(b, c), S3(c));
    MoreDigits([Digit(S2(b, c)), Digit(S3(c))] + tail, S0(a), S1(a, b));
    assert bs == [a] + ([b] + ([c] + rest));
    ByteBitsStep(c, rest);
    ByteBitsStep(b, [c] + rest);
    ByteBitsStep(a, [b] + ([c] + rest));
  }

  lemma UnpaddedGroup(a: byte, b: byte, c: byte, rest: seq<byte>)
    ensures Unpadded(Digits([a, b, c] + rest)) ==
            [Digit(S0(a)), Digit(S1(a, b))] + ([Digit(S2(b, c)), Digit(S3(c))] + Unpadded(Digits(rest)))
  {
    hide InAlphabet, DigitValue, Digit, S0, S1, S2, S3;
    var bs := [a, b, c] + rest;
    var s := Digits(bs);
    assert bs[3..] == rest && s[4..] == Digits(rest);
    PaddingIsNoDigit(s[3]);
    if |s| > 4 { UnpaddedRest(s); }
  }
}

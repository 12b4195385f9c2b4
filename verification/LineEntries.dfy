/** Which entries of the highlighted-line attribute are ranges of lines, told by their characters. */
module LineEntries {
  import opened Basics
  import opened Decimal
  import opened TextSplit
  import opened WhiteSpace
  import opened LineRanges

  predicate Blank(s: string) {
    forall c <- s :: IsSpace(c)
  }

  /** Digits that spell `n`, which JavaScript holds exactly; leading zeros are allowed. */
  ghost predicate Spells(digits: string, n: nat) {
    AllDigits(digits) && NumberOf(digits) == n && n <= 9_007_199_254_740_991
  }

  /** Digits between white space. */
  ghost predicate OneNumber(entry: string, before: string, a: string, after: string) {
    entry == before + a + after && Blank(before) && Blank(after)
  }

  /** Two numbers with a hyphen between them, and white space around each. */
  ghost predicate TwoNumbers(entry: string, before: string, a: string, left: string, right: string, b: string, after: string) {
    entry == before + a + left + "-" + right + b + after && Blank(before) && Blank(left) && Blank(right) && Blank(after)
  }

  /** The entry is one line, or the lines between two numbers in either order. */
  ghost predicate Means(entry: string, r: Range) {
    (exists before, a, after, n: nat :: OneNumber(entry, before, a, after) && Spells(a, n) && r == Range(n, n)) ||
    exists before, a, left, right, b, after, m: nat, n: nat ::
      TwoNumbers(entry, before, a, left, right, b, after) && Spells(a, m) && Spells(b, n) &&
      r == Range(if m <= n then m else n, if m <= n then n else m)
  }

  // ----- white space at the ends

  lemma {:induction false} TrimStartSplit(s: string) returns (w: string)
    ensures s == w + TrimStart(s) && Blank(w)
    ensures TrimStart(s) != "" ==> !IsSpace(TrimStart(s)[0])
  {
    hide IsSpace;
    if s != "" && IsSpace(s[0]) {
      w := TrimStartSplit(s[1..]);
      w := [s[0]] + w;
    } else {
      w := "";
    }
  }

  lemma {:induction false} TrimEndSplit(s: string) returns (w: string)
    ensures s == TrimEnd(s) + w && Blank(w)
    ensures TrimEnd(s) != "" ==> !IsSpace(TrimEnd(s)[|TrimEnd(s)| - 1]) && s != "" && TrimEnd(s)[0] == s[0]
  {
    hide IsSpace;
    if s != "" && IsSpace(s[|s| - 1]) {
      w := TrimEndSplit(s[..|s| - 1]);
      w := w + [s[|s| - 1]];
    } else {
      w := "";
    }
  }

  lemma {:induction false} TrimStartOf(w: string, s: string)
    requires Blank(w) && (s != "" ==> !IsSpace(s[0]))
    ensures TrimStart(w + s) == s
  {
    hide IsSpace;
    if w == "" {
      assert w + s == s;
    } else {
      assert w[0] in w && forall c <- w[1..] :: c in w;
      assert (w + s)[1..] == w[1..] + s;
      TrimStartOf(w[1..], s);
    }
  }

  lemma {:induction false} TrimEndOf(s: string, w: string)
    requires Blank(w) && (s != "" ==> !IsSpace(s[|s| - 1]))
    ensures TrimEnd(s + w) == s
  {
    hide IsSpace;
    if w == "" {
      assert s + w == s;
    } else {
      var n := |w| - 1;
      assert w[n] in w && forall c <- w[..n] :: c in w;
      assert (s + w)[..|s| + n] == s + w[..n];
      TrimEndOf(s, w[..n]);
    }
  }

  /** The ends of what is left of a trimmed text. */
  lemma TrimSplit(s: string) returns (before: string, after: string)
    ensures s == before + Trim(s) + after && Blank(before) && Blank(after)
  {
    hide IsSpace, Blank, TrimStart, TrimEnd;
    before := TrimStartSplit(s);
    after := TrimEndSplit(TrimStart(s));
    ConcatAssoc(before, Trim(s), after);
  }

  lemma TrimOf(before: string, s: string, after: string)
    requires Blank(before) && Blank(after) && s != "" && !IsSpace(s[0]) && !IsSpace(s[|s| - 1])
    ensures Trim(before + s + after) == s
  {
    hide IsSpace, Blank, TrimStart, TrimEnd;
    assert before + s + after == before + (s + after);
    TrimStartOf(before, s + after);
    TrimEndOf(s, after);
  }

  // ----- the characters of an entry

  lemma SpaceIsNoDigit(s: string)
    requires Blank(s) && s != ""
    ensures !IsDigit(s[0])
  {
    assert s[0] in s;
  }

  lemma HyphenIsNoDigit(left: string, hyphen: string)
    requires Blank(left) && hyphen != "" && hyphen[0] == '-'
    ensures !IsDigit((left + hyphen)[0])
  {
    if left != "" { SpaceIsNoDigit(left); }
  }

  lemma HyphenIsNoSpace()
    ensures !IsSpace('-')
  {
  }

  lemma SafeSpells(digits: string, n: nat)
    ensures SafeNumber(digits) == Some(n) <==> Spells(digits, n)
  {
  }

  lemma OneParses(entry: string, before: string, a: string, after: string, n: nat)
    requires OneNumber(entry, before, a, after) && Spells(a, n)
    ensures ParseEntry(entry) == Some(Range(n, n))
  {
    hide NumberOf, IsSpace, Blank;
    DigitsAreNotSpace(a);
    TrimOf(before, a, after);
    assert a + "" == a;
    DigitRunOf(a, "");
  }

  lemma TwoParse(entry: string, before: string, a: string, left: string, right: string, b: string, after: string, m: nat, n: nat)
    requires TwoNumbers(entry, before, a, left, right, b, after) && Spells(a, m) && Spells(b, n)
    ensures ParseEntry(entry) == Some(Range(if m <= n then m else n, if m <= n then n else m))
  {
    hide Trim, TrimStart, DigitRun, SafeNumber, IsSpace, IsDigit, NumberOf, Blank;
    var hyphen := "-" + right + b;
    var text := a + (left + hyphen);
    assert Trim(entry) == text by { PairTrims(entry, before, a, left, right, b, after); }
    assert DigitRun(text) == |a| by {
      HyphenIsNoDigit(left, hyphen);
      DigitRunOf(a, left + hyphen);
    }
    assert text[..|a|] == a && text[|a|..] == left + hyphen;
    assert TrimStart(left + hyphen) == hyphen by {
      HyphenIsNoSpace();
      TrimStartOf(left, hyphen);
    }
    assert hyphen[1..] == right + b;
    assert TrimStart(right + b) == b by {
      DigitsAreNotSpace(b);
      TrimStartOf(right, b);
    }
    SafeSpells(a, m);
    SafeSpells(b, n);
  }

  lemma PairTrims(entry: string, before: string, a: string, left: string, right: string, b: string, after: string)
    requires TwoNumbers(entry, before, a, left, right, b, after) && AllDigits(a) && AllDigits(b)
    ensures Trim(entry) == a + (left + ("-" + right + b))
  {
    hide IsSpace, Blank, IsDigit;
    var text := a + (left + ("-" + right + b));
    DigitsAreNotSpace(a);
    DigitsAreNotSpace(b);
    assert entry == before + text + after;
    assert text[0] == a[0] && text[|text| - 1] == b[|b| - 1];
    TrimOf(before, text, after);
  }

  lemma OneMeans(entry: string)
    requires DigitRun(Trim(entry)) == |Trim(entry)| && ParseEntry(entry).Some?
    ensures Means(entry, ParseEntry(entry).value)
  {
    hide IsSpace, Blank, NumberOf, Trim, DigitRun;
    var before, after := TrimSplit(entry);
    SafeSpells(Trim(entry), ParseEntry(entry).value.from);
    assert OneNumber(entry, before, Trim(entry), after);
  }

  /** The parts of an entry that is a pair, put together again. */
  lemma PairParts(entry: string, before: string, a: string, left: string, right: string, b: string, after: string)
    requires entry == before + (a + (left + ("-" + (right + b)))) + after
    ensures entry == before + a + left + "-" + right + b + after
  {
  }

  lemma TwoMean(entry: string)
    requires DigitRun(Trim(entry)) < |Trim(entry)| && ParseEntry(entry).Some?
    ensures Means(entry, ParseEntry(entry).value)
  {
    hide IsSpace, Blank, NumberOf, Trim, TrimStart, DigitRun;
    var text, k := Trim(entry), DigitRun(Trim(entry));
    var before, after := TrimSplit(entry);
    var left := TrimStartSplit(text[k..]);
    var tail := TrimStart(text[k..]);
    var right := TrimStartSplit(tail[1..]);
    var a, b := text[..k], TrimStart(tail[1..]);
    var m, n := SafeNumber(a).value, SafeNumber(b).value;
    SafeSpells(a, m);
    SafeSpells(b, n);
    hide SafeNumber, Spells;
    assert tail == "-" + tail[1..];
    assert text == a + text[k..];
    PairParts(entry, before, a, left, right, b, after);
    assert TwoNumbers(entry, before, a, left, right, b, after);
  }

  lemma ParsedMeans(entry: string)
    ensures ParseEntry(entry).Some? ==> Means(entry, ParseEntry(entry).value)
  {
    hide ParseEntry, Means, Trim;
    if ParseEntry(entry).Some? {
      if DigitRun(Trim(entry)) == |Trim(entry)| { OneMeans(entry); } else { TwoMean(entry); }
    }
  }

  /**
    An entry counts exactly when it is one number, or two with a hyphen between them, with white space allowed around
    each, and no number beyond the largest safe integer; two numbers span the lines between them in either order.
  */
  lemma EntryExactly(entry: string, r: Range)
    ensures ParseEntry(entry) == Some(r) <==> Means(entry, r)
  {
    hide ParseEntry, OneNumber, TwoNumbers, Spells;
    ParsedMeans(entry);
    if Means(entry, r) {
      if before, a, after, n: nat :| OneNumber(entry, before, a, after) && Spells(a, n) && r == Range(n, n) {
        OneParses(entry, before, a, after, n);
      } else {
        var before, a, left, right, b, after, m: nat, n: nat :|
          TwoNumbers(entry, before, a, left, right, b, after) && Spells(a, m) && Spells(b, n) &&
          r == Range(if m <= n then m else n, if m <= n then n else m);
        TwoParse(entry, before, a, left, right, b, after, m, n);
      }
    }
  }

  /** A line is highlighted exactly when some entry between commas means a range that contains it. */
  lemma HighlightedExactly(value: string, line: int)
    ensures Covers(Normalise(value), line) <==>
              exists e <- Split(value, ','), r :: Means(e, r) && r.from <= line <= r.to
  {
    hide ParseEntry, Split, Means, Normalise;
    NormaliseMeaning(value, line);
    forall e, r ensures ParseEntry(e) == Some(r) <==> Means(e, r) { EntryExactly(e, r); }
  }
}

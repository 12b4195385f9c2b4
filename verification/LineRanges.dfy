/** The highlighted-line attribute: parse, normalise to canonical intervals, serialise. */
module LineRanges {
  import opened Basics
  import opened Decimal
  import Sorting
  import opened TextSplit
  import opened WhiteSpace

  datatype Range = Range(from: nat, to: nat)

  // ----- text

  /** How many leading characters are digits. */
  function DigitRun(s: string): (n: nat)
    ensures n <= |s|
    ensures forall i :: 0 <= i < n ==> IsDigit(s[i])
    ensures n < |s| ==> !IsDigit(s[n])
  {
    if s != "" && IsDigit(s[0]) then 1 + DigitRun(s[1..]) else 0
  }

  function Between(a: nat, b: nat): Range {
    if a <= b then Range(a, b) else Range(b, a)
  }

  /** One entry: digits, or digits, a hyphen and digits, with optional white space. */
  function ParseEntry(entry: string): Option<Range> {
    var text := Trim(entry);
    var n := DigitRun(text);
    if n == 0 then None
    else
      var tail := TrimStart(text[n..]);
      if n == |text| then
        match SafeNumber(text) case Some(v) => Some(Range(v, v)) case None => None
      else if tail == "" || tail[0] != '-' then None
      else
        match (SafeNumber(text[..n]), SafeNumber(TrimStart(tail[1..])))
        case (Some(a), Some(b)) => Some(Between(a, b))
        case _ => None
  }

  // ----- intervals

  predicate Before(a: Range, b: Range) {
    a.from < b.from || (a.from == b.from && a.to <= b.to)
  }

  function ByStart(): Sorting.Less<Range> {
    (a: Range, b: Range) => !Before(b, a)
  }

  /** `ranges.sort` by start, then end. */
  function SortRanges(ranges: seq<Range>): seq<Range> {
    Sorting.Sort(ranges, ByStart())
  }

  /** Extend the last interval when the next range touches it, else start a new one. */
  function Absorb(merged: seq<Range>, r: Range): seq<Range> {
    if merged != [] && r.from <= merged[|merged| - 1].to + 1 then
      var last := merged[|merged| - 1];
      merged[|merged| - 1 := Range(last.from, if last.to < r.to then r.to else last.to)]
    else merged + [r]
  }

  function MergeAll(ranges: seq<Range>): seq<Range> {
    if ranges == [] then [] else Absorb(MergeAll(ranges[..|ranges| - 1]), ranges[|ranges| - 1])
  }

  function ValidRanges(entries: seq<string>): seq<Range> {
    if entries == [] then []
    else
      ValidRanges(entries[..|entries| - 1]) +
      match ParseEntry(entries[|entries| - 1]) case Some(r) => [r] case None => []
  }

  function Normalise(value: string): seq<Range> {
    MergeAll(SortRanges(ValidRanges(Split(value, ','))))
  }

  method ParseLineRanges(value: string) returns (merged: seq<Range>)
    ensures merged == Normalise(value)
  {
    hide ParseEntry, Split, Sorting.Sort;
    var entries := Split(value, ',');
    var ranges: seq<Range> := [];
    for i := 0 to |entries|
      invariant ranges == ValidRanges(entries[..i])
    {
      assert entries[..i + 1][..i] == entries[..i];
      var r := ParseEntry(entries[i]);
      if r.None? {
        continue;
      }
      ranges := ranges + [r.value];
    }
    assert entries[..|entries|] == entries;
    ranges := SortRanges(ranges);
    merged := [];
    for i := 0 to |ranges|
      invariant merged == MergeAll(ranges[..i])
    {
      assert ranges[..i + 1][..i] == ranges[..i];
      if merged != [] && ranges[i].from <= merged[|merged| - 1].to + 1 {
        var previous := merged[|merged| - 1];
        merged := merged[|merged| - 1 := previous.(to := if previous.to < ranges[i].to then ranges[i].to else previous.to)];
      } else {
        merged := merged + [ranges[i]];
      }
    }
    assert ranges[..|ranges|] == ranges;
  }

  ghost predicate Covers(ranges: seq<Range>, line: int) {
    exists r <- ranges :: r.from <= line <= r.to
  }

  /** Non-empty intervals in order, with at least one line between neighbours. */
  ghost predicate Canonical(ranges: seq<Range>) {
    (forall r <- ranges :: r.from <= r.to) &&
    forall i, j :: 0 <= i < j < |ranges| ==> ranges[i].to + 1 < ranges[j].from
  }

  ghost predicate Sorted(ranges: seq<Range>) {
    forall i, j :: 0 <= i < j < |ranges| ==> Before(ranges[i], ranges[j])
  }

  lemma SortMeaning(ranges: seq<Range>)
    ensures Sorted(SortRanges(ranges))
    ensures forall x :: x in SortRanges(ranges) <==> x in ranges
  {
    Sorting.SortMeaning(ranges, ByStart());
  }

  lemma CoversAppend(init: seq<Range>, last: Range, line: int)
    ensures Covers(init + [last], line) <==> Covers(init, line) || last.from <= line <= last.to
  {
    if Covers(init + [last], line) {
      var r :| r in init + [last] && r.from <= line <= r.to;
    } else {
      assert last in init + [last] && forall r <- init :: r in init + [last];
    }
  }

  lemma CanonicalAppend(init: seq<Range>, last: Range)
    ensures Canonical(init + [last]) <==>
              Canonical(init) && last.from <= last.to && forall i :: 0 <= i < |init| ==> init[i].to + 1 < last.from
  {
    var all := init + [last];
    assert all[|init|] == last && forall i :: 0 <= i < |init| ==> all[i] == init[i] && all[i] in all && init[i] in init;
    assert last in all;
  }

  lemma LastIsHighest(init: seq<Range>, last: Range)
    requires Canonical(init + [last])
    ensures forall i :: 0 <= i < |init| ==> init[i].from <= init[i].to && init[i].to + 1 < last.from
  {
    var all := init + [last];
    assert forall i :: 0 <= i < |init| ==> all[i] == init[i] && all[i] in all;
    assert all[|init|] == last;
  }

  lemma AbsorbMeaning(merged: seq<Range>, r: Range, line: int)
    requires Canonical(merged) && r.from <= r.to
    requires merged != [] ==> merged[|merged| - 1].from <= r.from
    ensures Canonical(Absorb(merged, r))
    ensures Covers(Absorb(merged, r), line) <==> Covers(merged, line) || r.from <= line <= r.to
    ensures Absorb(merged, r) != [] && Absorb(merged, r)[|Absorb(merged, r)| - 1].from <= r.from
  {
    hide Canonical, Covers;
    if merged == [] {
      CanonicalAppend([], r);
      CoversAppend([], r, line);
    } else {
      var init, last := merged[..|merged| - 1], merged[|merged| - 1];
      assert merged == init + [last];
      CanonicalAppend(init, last);
      CoversAppend(init, last, line);
      if r.from <= last.to + 1 {
        var grown := Range(last.from, if last.to < r.to then r.to else last.to);
        assert Absorb(merged, r) == init + [grown];
        CanonicalAppend(init, grown);
        CoversAppend(init, grown, line);
      } else {
        LastIsHighest(init, last);
        CanonicalAppend(merged, r);
        CoversAppend(merged, r, line);
      }
    }
  }

  lemma EmptyMerge(line: int)
    ensures Canonical(MergeAll([])) && !Covers(MergeAll([]), line) && !Covers([], line)
  {
  }

  lemma {:induction false} MergeMeaning(ranges: seq<Range>, line: int)
    requires Sorted(ranges) && forall r <- ranges :: r.from <= r.to
    ensures Canonical(MergeAll(ranges))
    ensures Covers(MergeAll(ranges), line) <==> Covers(ranges, line)
    ensures ranges != [] ==> MergeAll(ranges) != [] && MergeAll(ranges)[|MergeAll(ranges)| - 1].from <= ranges[|ranges| - 1].from
  {
    hide Absorb, Canonical, Covers;
    if ranges == [] {
      EmptyMerge(line);
    } else {
      var init, last := ranges[..|ranges| - 1], ranges[|ranges| - 1];
      assert ranges == init + [last];
      MergeMeaning(init, line);
      assert init != [] ==> Before(init[|init| - 1], last);
      AbsorbMeaning(MergeAll(init), last, line);
      CoversAppend(init, last, line);
    }
  }

  lemma {:induction false} ValidMeaning(entries: seq<string>)
    ensures forall r :: r in ValidRanges(entries) <==> exists e <- entries :: ParseEntry(e) == Some(r)
    ensures forall r <- ValidRanges(entries) :: r.from <= r.to <= MAX_SAFE
  {
    if entries != [] {
      hide ParseEntry;
      var init, last := entries[..|entries| - 1], entries[|entries| - 1];
      assert entries == init + [last];
      ValidMeaning(init);
      EntryBounded(last);
    }
  }

  lemma EntryBounded(entry: string)
    ensures ParseEntry(entry).Some? ==> ParseEntry(entry).value.from <= ParseEntry(entry).value.to <= MAX_SAFE
  {
  }

  /** The result is canonical and covers exactly the lines of the valid entries. */
  lemma NormaliseMeaning(value: string, line: int)
    ensures Canonical(Normalise(value))
    ensures Covers(Normalise(value), line) <==>
              exists e <- Split(value, ','), r :: ParseEntry(e) == Some(r) && r.from <= line <= r.to
  {
    hide ParseEntry, Split;
    var entries := Split(value, ',');
    var ranges := ValidRanges(entries);
    ValidMeaning(entries);
    SortMeaning(ranges);
    MergeMeaning(SortRanges(ranges), line);
  }

  // ----- one canonical form per set of lines

  lemma CoversHead(a: seq<Range>, line: int)
    requires Canonical(a) && a != []
    ensures Covers(a, line) <==> a[0].from <= line <= a[0].to || Covers(a[1..], line)
    ensures Covers(a[1..], line) ==> line > a[0].to + 1
    ensures Canonical(a[1..])
  {
    assert a == [a[0]] + a[1..];
  }

  lemma CoversOwnStart(a: seq<Range>)
    requires Canonical(a) && a != []
    ensures Covers(a, a[0].from)
  {
    assert a[0] in a;
  }

  lemma NothingCovered()
    ensures forall line: int :: !Covers([], line)
  {
  }

  /** Two canonical lists that cover the same lines are the same list. */
  lemma {:induction false} CanonicalUnique(a: seq<Range>, b: seq<Range>)
    requires Canonical(a) && Canonical(b) && forall line: int :: Covers(a, line) <==> Covers(b, line)
    ensures a == b
  {
    hide Canonical, Covers;
    if a == [] || b == [] {
      NothingCovered();
      if a != [] { CoversOwnStart(a); }
      if b != [] { CoversOwnStart(b); }
    } else {
      SameHead(a, b);
      forall line: int ensures Covers(a[1..], line) <==> Covers(b[1..], line) {
        CoversHead(a, line);
        CoversHead(b, line);
      }
      CoversHead(a, 0);
      CoversHead(b, 0);
      CanonicalUnique(a[1..], b[1..]);
      assert a == [a[0]] + a[1..] && b == [b[0]] + b[1..];
    }
  }

  lemma SameHead(a: seq<Range>, b: seq<Range>)
    requires Canonical(a) && Canonical(b) && a != [] && b != []
    requires forall line: int :: Covers(a, line) <==> Covers(b, line)
    ensures a[0] == b[0]
  {
    assert a[0] in a && b[0] in b;
    CoversHead(a, a[0].from);
    CoversHead(b, a[0].from);
    CoversHead(a, b[0].from);
    CoversHead(b, b[0].from);
    assert a[0].from == b[0].from by {
      assert Covers(b, a[0].from) && Covers(a, b[0].from);
    }
    CoversHead(a, a[0].to + 1);
    CoversHead(b, a[0].to + 1);
    CoversHead(a, b[0].to + 1);
    CoversHead(b, b[0].to + 1);
  }

  // ----- serialising

  function Show(r: Range): string {
    if r.from == r.to then ToDigits(r.from) else ToDigits(r.from) + "-" + ToDigits(r.to)
  }

  function ShowAll(ranges: seq<Range>): seq<string> {
    seq(|ranges|, i requires 0 <= i < |ranges| => Show(ranges[i]))
  }

  function SerializeLineRanges(ranges: seq<Range>): string {
    Join(ShowAll(ranges), ',')
  }

  lemma {:induction false} DigitRunOf(digits: string, tail: string)
    requires (forall c <- digits :: IsDigit(c)) && (tail != "" ==> !IsDigit(tail[0]))
    ensures DigitRun(digits + tail) == |digits|
  {
    if digits == "" {
      assert digits + tail == tail;
    } else {
      assert (digits + tail)[1..] == digits[1..] + tail;
      DigitRunOf(digits[1..], tail);
    }
  }

  lemma ShowOne(v: nat)
    requires v <= MAX_SAFE
    ensures ParseEntry(ToDigits(v)) == Some(Range(v, v))
  {
    var a := ToDigits(v);
    ToDigitsMeaning(v);
    assert IsDigit(a[0]) && IsDigit(a[|a| - 1]);
    hide NumberOf, ToDigits;
    NoTrim(a);
    assert a + "" == a;
    DigitRunOf(a, "");
  }

  predicate AllDigits(s: string) {
    s != "" && forall c <- s :: IsDigit(c)
  }

  lemma DigitsAreNotSpace(s: string)
    requires AllDigits(s)
    ensures !IsSpace(s[0]) && !IsSpace(s[|s| - 1])
  {
    assert IsDigit(s[0]) && IsDigit(s[|s| - 1]);
  }

  lemma PairParses(a: string, b: string)
    requires AllDigits(a) && AllDigits(b)
    ensures ParseEntry(a + "-" + b) ==
            match (SafeNumber(a), SafeNumber(b)) case (Some(x), Some(y)) => Some(Between(x, y)) case _ => None
  {
    var text, tail := a + "-" + b, "-" + b;
    assert text == a + tail;
    assert Trim(text) == text by {
      DigitsAreNotSpace(a);
      DigitsAreNotSpace(b);
      assert text[0] == a[0] && text[|text| - 1] == b[|b| - 1];
      NoTrim(text);
    }
    assert DigitRun(text) == |a| by { DigitRunOf(a, tail); }
    assert text[..|a|] == a && text[|a|..] == tail && tail[1..] == b;
    assert TrimStart(tail) == tail by { NoTrimStart(tail); }
    assert TrimStart(b) == b by {
      DigitsAreNotSpace(b);
      NoTrimStart(b);
    }
    hide Trim, TrimStart, DigitRun, SafeNumber, AllDigits;
  }

  lemma ShowTwo(from: nat, to: nat)
    requires from < to <= MAX_SAFE
    ensures ParseEntry(ToDigits(from) + "-" + ToDigits(to)) == Some(Range(from, to))
  {
    hide ParseEntry, ToDigits, NumberOf;
    ToDigitsMeaning(from);
    ToDigitsMeaning(to);
    PairParses(ToDigits(from), ToDigits(to));
  }

  lemma ShowRoundTrip(r: Range)
    requires r.from <= r.to <= MAX_SAFE
    ensures ParseEntry(Show(r)) == Some(r)
    ensures forall c <- Show(r) :: c != ','
  {
    hide NumberOf, ToDigits, ParseEntry;
    ToDigitsMeaning(r.from);
    ToDigitsMeaning(r.to);
    if r.from == r.to { ShowOne(r.from); } else { ShowTwo(r.from, r.to); }
  }

  lemma {:induction false} ValidOfShown(ranges: seq<Range>)
    requires forall r <- ranges :: r.from <= r.to <= MAX_SAFE
    ensures ValidRanges(ShowAll(ranges)) == ranges
  {
    if ranges != [] {
      hide ParseEntry, Show;
      var init, last := ranges[..|ranges| - 1], ranges[|ranges| - 1];
      ValidOfShown(init);
      assert ShowAll(ranges)[..|ranges| - 1] == ShowAll(init);
      ShowRoundTrip(last);
      assert ranges == init + [last];
    }
  }

  lemma {:induction false} InsertLast(r: Range, sorted: seq<Range>)
    requires forall x <- sorted :: Before(x, r)
    ensures Sorting.Insert(r, sorted, ByStart()) == sorted + [r]
  {
    if sorted != [] { InsertLast(r, sorted[1..]); }
  }

  lemma CanonicalSplits(init: seq<Range>, last: Range)
    requires Canonical(init + [last])
    ensures Canonical(init) && forall x <- init :: Before(x, last)
    ensures init != [] ==> init[|init| - 1].to + 1 < last.from
  {
    var ranges := init + [last];
    assert forall i :: 0 <= i < |init| ==> ranges[i] == init[i] && ranges[i].to + 1 < ranges[|init|].from;
    forall x <- init ensures Before(x, last) {
      var i :| 0 <= i < |init| && init[i] == x;
      assert ranges[i] in ranges;
    }
    forall x <- init ensures x.from <= x.to { assert x in ranges; }
  }

  lemma {:induction false} CanonicalIsFixed(ranges: seq<Range>)
    requires Canonical(ranges)
    ensures SortRanges(ranges) == ranges && MergeAll(ranges) == ranges
  {
    if ranges != [] {
      hide Canonical, Before;
      var init, last := ranges[..|ranges| - 1], ranges[|ranges| - 1];
      assert ranges == init + [last];
      CanonicalSplits(init, last);
      CanonicalIsFixed(init);
      InsertLast(last, init);
    }
  }

  lemma NothingNormalises()
    ensures Normalise("") == []
  {
    assert Split("", ',') == [""];
    EmptyEntry();
    hide ParseEntry;
    assert [""][..0] == [];
    assert ValidRanges([""]) == [];
  }

  /** Serialising a canonical list and parsing it again changes nothing. */
  lemma RoundTrip(ranges: seq<Range>)
    requires Canonical(ranges) && forall r <- ranges :: r.to <= MAX_SAFE
    ensures Normalise(SerializeLineRanges(ranges)) == ranges
  {
    hide ParseEntry, Show, Split, MergeAll, SortRanges, ValidRanges;
    if ranges == [] {
      NothingNormalises();
    } else {
      var shown := ShowAll(ranges);
      forall p <- shown ensures ',' !in p {
        var i :| 0 <= i < |shown| && shown[i] == p;
        ShowRoundTrip(ranges[i]);
      }
      SplitJoin(shown, ',');
      ValidOfShown(ranges);
      CanonicalIsFixed(ranges);
    }
  }

  lemma EmptyEntry()
    ensures ParseEntry("").None?
  {
  }

  lemma {:induction false} MergeBounded(ranges: seq<Range>)
    requires forall r <- ranges :: r.to <= MAX_SAFE
    ensures forall r <- MergeAll(ranges) :: r.to <= MAX_SAFE
  {
    if ranges != [] {
      var init, last := ranges[..|ranges| - 1], ranges[|ranges| - 1];
      assert ranges == init + [last];
      MergeBounded(init);
      assert forall i :: 0 <= i < |MergeAll(init)| ==> MergeAll(init)[i] in MergeAll(init);
    }
  }

  /** So normalising an attribute twice is normalising it once. */
  lemma NormaliseIdempotent(value: string)
    ensures Normalise(SerializeLineRanges(Normalise(value))) == Normalise(value)
  {
    hide ParseEntry, Split, Show;
    NormaliseMeaning(value, 0);
    var ranges := ValidRanges(Split(value, ','));
    ValidMeaning(Split(value, ','));
    SortMeaning(ranges);
    MergeBounded(SortRanges(ranges));
    RoundTrip(Normalise(value));
  }
}

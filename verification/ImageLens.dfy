/**
  Patching attributes behaves like a lens: what is put is read back, the rest is untouched.
  The one exception is stated exactly: an attribute left without a value at the very end
  swallows whatever is appended behind it.
*/
module ImageLens {
  import opened Basics
  import opened WhiteSpace
  import opened AttributeText
  import opened ImageAttributes
  import Sorting

  // ----- patching seen from left to right

  function Rewritten(values: Values, seen: set<string>, name: string, text: string): string {
    if !Names(values, name) then text
    else if name in seen then ""
    else Replacement(name, Lookup(values, name))
  }

  /** `s` with every patched attribute rewritten where it stands, and `tail` behind it. */
  function Rebuild(p: Platform, s: string, values: Values, seen: set<string>, tail: string): string
    decreases |s|
  {
    if s == "" then tail
    else if IsSpace(s[0]) then [s[0]] + Rebuild(p, s[1..], values, seen, tail)
    else
      match FirstToken(p, s)
      case None => s + tail
      case Some(t) =>
        Rewritten(values, seen, t.name, s[..t.length]) + Rebuild(p, s[t.length..], values, seen + {t.name}, tail)
  }

  /** The edits of all parts, rightmost first. */
  function EditsFromRight(parts: seq<Part>, values: Values, seen: set<string>): seq<Edit>
    decreases |parts|
  {
    if parts == [] then []
    else
      var part := parts[0];
      EditsFromRight(parts[1..], values, seen + {part.name}) +
      (if Names(values, part.name) then [Edit(part.from, part.to, Rewritten(values, seen, part.name, ""))] else [])
  }

  lemma {:induction false} ApplyConcat(source: string, a: seq<Edit>, b: seq<Edit>)
    ensures ApplyAll(source, a + b) == ApplyAll(ApplyAll(source, a), b)
    decreases |a|
  {
    hide Apply;
    if a == [] {
      assert a + b == b;
    } else {
      assert (a + b)[1..] == a[1..] + b && (a + b)[0] == a[0];
      ApplyConcat(Apply(source, a[0]), a[1..], b);
    }
  }

  lemma ApplyOne(source: string, e: Edit)
    ensures ApplyAll(source, [e]) == Apply(source, e)
  {
    hide Apply;
    assert [e][1..] == [];
  }

  lemma ApplyBetween(a: string, b: string, c: string, value: string)
    ensures Apply(a + b + c, Edit(|a|, |a| + |b|, value)) == a + value + c
  {
    var s := a + b + c;
    assert s[..|a|] == a && s[|a| + |b|..] == c;
  }

  /** One attribute, when everything behind it is already rebuilt. */
  lemma ApplyToken(patched: string, right: seq<Edit>, left: string, text: string, behind: string, suffix: string,
                   values: Values, seen: set<string>, name: string)
    requires ApplyAll(patched, right) == left + text + behind + suffix
    ensures ApplyAll(patched, right + (if Names(values, name) then [Edit(|left|, |left| + |text|, Rewritten(values, seen, name, ""))] else [])) ==
            left + (Rewritten(values, seen, name, text) + behind) + suffix
  {
    hide Names, Apply, Replacement, Lookup;
    if Names(values, name) {
      var value := Rewritten(values, seen, name, "");
      var e := Edit(|left|, |left| + |text|, value);
      ApplyConcat(patched, right, [e]);
      ApplyOne(ApplyAll(patched, right), e);
      assert left + text + behind + suffix == left + text + (behind + suffix);
      ApplyBetween(left, text, behind + suffix, value);
      assert left + value + (behind + suffix) == left + (value + behind) + suffix;
    } else {
      assert right + [] == right;
      assert left + text + behind + suffix == left + (text + behind) + suffix;
    }
  }

  /** Applied from the right, the edits rebuild the text from `at` to `end`. */
  lemma {:induction false} ApplyRebuilds(p: Platform, source: string, at: nat, end: nat, values: Values,
                                         seen: set<string>, tail: string)
    requires at <= end <= |source| && Parts(p, source[at..end], at).Some?
    ensures ApplyAll(source[..end] + tail + source[end..], EditsFromRight(Parts(p, source[at..end], at).value, values, seen)) ==
            source[..at] + Rebuild(p, source[at..end], values, seen, tail) + source[end..]
    decreases end - at
  {
    hide FirstToken, IsSpace, Rewritten, Apply, ApplyAll, Names;
    var s := source[at..end];
    var patched := source[..end] + tail + source[end..];
    if at == end {
      assert s == "";
      NothingApplied(patched);
    } else if IsSpace(s[0]) {
      assert s[1..] == source[at + 1..end] && source[..at] + [s[0]] == source[..at + 1];
      ApplyRebuilds(p, source, at + 1, end, values, seen, tail);
      var behind := Rebuild(p, s[1..], values, seen, tail);
      assert source[..at] + [s[0]] + behind + source[end..] == source[..at] + ([s[0]] + behind) + source[end..];
    } else {
      var t := FirstToken(p, s).value;
      var to := at + t.length;
      assert s[t.length..] == source[to..end] && s[..t.length] == source[at..to] && source[..to] == source[..at] + source[at..to];
      ApplyRebuilds(p, source, to, end, values, seen + {t.name}, tail);
      var rest := Parts(p, source[to..end], to).value;
      var part := Part(at, to, t.name, Decode(p.resolve, t.raw));
      assert Parts(p, s, at).value == [part] + rest && ([part] + rest)[1..] == rest;
      ApplyToken(patched, EditsFromRight(rest, values, seen + {t.name}), source[..at], source[at..to],
                 Rebuild(p, source[to..end], values, seen + {t.name}, tail), source[end..], values, seen, t.name);
    }
  }

  lemma NothingApplied(source: string)
    ensures ApplyAll(source, []) == source
  {
  }

  // ----- the sorted edits are the edits from the right

  /** Lower-case names, each at most once: what the callers put into the record. */
  predicate PlainName(name: string) {
    name != "" && forall c <- name :: 'a' <= c <= 'z'
  }

  ghost predicate PlainValues(values: Values) {
    (forall v <- values :: PlainName(v.0)) && forall i, j :: 0 <= i < j < |values| ==> values[i].0 != values[j].0
  }

  ghost predicate Placed(parts: seq<Part>, at: nat, end: nat) {
    (forall part <- parts :: at <= part.from < part.to <= end) &&
    forall i, j :: 0 <= i < j < |parts| ==> parts[i].to <= parts[j].from
  }

  lemma PlacedCons(part: Part, rest: seq<Part>, end: nat)
    requires Placed(rest, part.to, end) && part.from < part.to <= end
    ensures Placed([part] + rest, part.from, end)
  {
    var parts := [part] + rest;
    forall i, j | 0 <= i < j < |parts| ensures parts[i].to <= parts[j].from {
      assert parts[j] == rest[j - 1] && rest[j - 1] in rest;
      if i > 0 { assert parts[i] == rest[i - 1]; }
    }
  }

  lemma PlacedTail(parts: seq<Part>, at: nat, end: nat)
    requires Placed(parts, at, end) && parts != []
    ensures Placed(parts[1..], parts[0].to, end) && at <= parts[0].from < parts[0].to <= end
  {
    forall part | part in parts[1..] ensures parts[0].to <= part.from < part.to <= end {
      var i :| 0 <= i < |parts[1..]| && parts[1..][i] == part;
      assert parts[i + 1] in parts && parts[0].to <= parts[i + 1].from;
    }
    assert forall i :: 0 <= i < |parts| - 1 ==> parts[1..][i] == parts[i + 1];
  }

  /** Attributes are found from left to right and do not overlap. */
  lemma {:induction false} PartsPlaced(p: Platform, s: string, at: nat)
    requires Parts(p, s, at).Some?
    ensures Placed(Parts(p, s, at).value, at, at + |s|)
    decreases |s|
  {
    hide FirstToken, IsSpace;
    if s != "" {
      if IsSpace(s[0]) {
        PartsPlaced(p, s[1..], at + 1);
      } else {
        var t := FirstToken(p, s).value;
        PartsPlaced(p, s[t.length..], at + t.length);
        PlacedCons(Part(at, at + t.length, t.name, Decode(p.resolve, t.raw)), Parts(p, s[t.length..], at + t.length).value, at + |s|);
      }
    }
  }

  predicate Repeats(parts: seq<Part>, i: nat)
    requires i < |parts|
  {
    exists j :: 0 <= j < i && parts[j].name == parts[i].name
  }

  /** The edit of part `i`. */
  function EditAt(parts: seq<Part>, values: Values, seen: set<string>, i: nat): Edit
    requires i < |parts| && Names(values, parts[i].name)
  {
    Edit(parts[i].from, parts[i].to,
         if parts[i].name in seen || Repeats(parts, i) then "" else Replacement(parts[i].name, Lookup(values, parts[i].name)))
  }

  predicate IsEdit(parts: seq<Part>, values: Values, seen: set<string>, i: nat, e: Edit) {
    i < |parts| && Names(values, parts[i].name) && e == EditAt(parts, values, seen, i)
  }

  lemma RepeatsTail(parts: seq<Part>, i: nat)
    requires 0 < i < |parts|
    ensures Repeats(parts, i) <==> parts[0].name == parts[i].name || Repeats(parts[1..], i - 1)
  {
    if j :| 0 <= j < i && parts[j].name == parts[i].name {
      if j > 0 { assert parts[1..][j - 1] == parts[j]; }
    }
    if Repeats(parts[1..], i - 1) {
      var j :| 0 <= j < i - 1 && parts[1..][j].name == parts[1..][i - 1].name;
      assert parts[j + 1].name == parts[i].name;
    }
  }

  lemma {:induction false} FromRightMember(parts: seq<Part>, values: Values, seen: set<string>, e: Edit)
    ensures e in EditsFromRight(parts, values, seen) <==> exists i: nat :: IsEdit(parts, values, seen, i, e)
    decreases |parts|
  {
    hide Names, Replacement, Lookup;
    if parts != [] {
      var part, rest, more := parts[0], parts[1..], seen + {parts[0].name};
      FromRightMember(rest, values, more, e);
      forall i: nat | 0 < i < |parts| ensures IsEdit(parts, values, seen, i, e) <==> IsEdit(rest, values, more, i - 1, e) {
        RepeatsTail(parts, i);
      }
      if i: nat :| IsEdit(rest, values, more, i, e) { assert IsEdit(parts, values, seen, i + 1, e); }
      if i: nat :| IsEdit(parts, values, seen, i, e) {
        if i > 0 { assert IsEdit(rest, values, more, i - 1, e); }
      }
      if Names(values, part.name) {
        assert Edit(part.from, part.to, Rewritten(values, seen, part.name, "")) == EditAt(parts, values, seen, 0);
        if e == EditAt(parts, values, seen, 0) { assert IsEdit(parts, values, seen, 0, e); }
      }
    }
  }

  /** Part `i` has the name, and the edit is the one for it. */
  predicate IsMatchEdit(parts: seq<Part>, name: string, replacement: string, i: nat, e: Edit) {
    i < |parts| && parts[i].name == name &&
    e == Edit(parts[i].from, parts[i].to, if Repeats(parts, i) then "" else replacement)
  }

  lemma {:induction false} MatchMember(parts: seq<Part>, name: string, replacement: string, e: Edit)
    ensures e in MatchEdits(parts, name, replacement) <==> exists i: nat :: IsMatchEdit(parts, name, replacement, i, e)
    decreases |parts|
  {
    if parts != [] {
      var rest, next := parts[1..], if parts[0].name == name then "" else replacement;
      MatchMember(rest, name, next, e);
      forall i: nat | 0 < i < |parts|
        ensures IsMatchEdit(parts, name, replacement, i, e) <==> IsMatchEdit(rest, name, next, i - 1, e)
      {
        RepeatsTail(parts, i);
      }
      if i: nat :| IsMatchEdit(rest, name, next, i, e) { assert IsMatchEdit(parts, name, replacement, i + 1, e); }
      if i: nat :| IsMatchEdit(parts, name, replacement, i, e) {
        if i > 0 { assert IsMatchEdit(rest, name, next, i - 1, e); }
      }
      if parts[0].name == name && e == Edit(parts[0].from, parts[0].to, replacement) {
        assert IsMatchEdit(parts, name, replacement, 0, e);
      }
    }
  }

  lemma NamesInit(values: Values, name: string)
    requires PlainValues(values) && values != []
    ensures var init, last := values[..|values| - 1], values[|values| - 1];
            PlainValues(init) && PlainName(last.0) && (Names(values, name) <==> Names(init, name) || name == last.0) &&
            !Names(init, last.0) &&
            (Names(values, name) ==> Lookup(values, name) == if name == last.0 then last.1 else Lookup(init, name))
  {
    var init, last := values[..|values| - 1], values[|values| - 1];
    assert values == init + [last];
    assert forall v <- init :: v in values;
  }

  lemma {:induction false} EditsMember(parts: seq<Part>, values: Values, e: Edit)
    requires PlainValues(values)
    ensures e in EditsOf(parts, values) <==> exists i: nat :: IsEdit(parts, values, {}, i, e)
  {
    if values == [] {
      assert forall name :: !Names(values, name);
    } else {
      hide Names, Lookup, Replacement, PlainValues, Repeats;
      var init, last := values[..|values| - 1], values[|values| - 1];
      NamesInit(values, last.0);
      EditsMember(parts, init, e);
      var replacement := Replacement(last.0, last.1);
      MatchMember(parts, last.0, replacement, e);
      forall i: nat
        ensures IsEdit(parts, values, {}, i, e) <==> IsEdit(parts, init, {}, i, e) || IsMatchEdit(parts, last.0, replacement, i, e)
      {
        if i < |parts| { NamesInit(values, parts[i].name); }
      }
    }
  }

  predicate OtherPlace(a: Edit, b: Edit) {
    a.from != b.from
  }

  lemma PairwiseJoin(a: seq<Edit>, b: seq<Edit>, related: (Edit, Edit) -> bool)
    requires Sorting.Pairwise(a, related) && Sorting.Pairwise(b, related)
    requires forall x <- a, y <- b :: related(x, y)
    ensures Sorting.Pairwise(a + b, related)
  {
    var c := a + b;
    forall i, j | 0 <= i < j < |c| ensures related(c[i], c[j]) {
      if j < |a| {
        assert c[i] == a[i] && c[j] == a[j];
      } else if i < |a| {
        assert c[i] == a[i] && c[j] == b[j - |a|] && a[i] in a && b[j - |a|] in b;
      } else {
        assert c[i] == b[i - |a|] && c[j] == b[j - |a|];
      }
    }
  }

  lemma SamePart(parts: seq<Part>, at: nat, end: nat, i: nat, j: nat)
    requires Placed(parts, at, end) && i < |parts| && j < |parts| && i != j
    ensures parts[i].from != parts[j].from
  {
    assert parts[i] in parts && parts[j] in parts;
    if i < j { assert parts[i].to <= parts[j].from; } else { assert parts[j].to <= parts[i].from; }
  }

  lemma {:induction false} MatchesApart(parts: seq<Part>, name: string, replacement: string, at: nat, end: nat)
    requires Placed(parts, at, end)
    ensures Sorting.Pairwise(MatchEdits(parts, name, replacement), OtherPlace)
    decreases |parts|
  {
    if parts != [] {
      hide Placed;
      var next := if parts[0].name == name then "" else replacement;
      PlacedTail(parts, at, end);
      MatchesApart(parts[1..], name, next, parts[0].to, end);
      if parts[0].name == name {
        var head := [Edit(parts[0].from, parts[0].to, replacement)];
        forall y | y in MatchEdits(parts[1..], name, next) ensures OtherPlace(head[0], y) {
          MatchMember(parts[1..], name, next, y);
          var i: nat :| IsMatchEdit(parts[1..], name, next, i, y);
          SamePart(parts, at, end, 0, i + 1);
        }
        PairwiseJoin(head, MatchEdits(parts[1..], name, next), OtherPlace);
      }
    }
  }

  lemma {:induction false} EditsApart(parts: seq<Part>, values: Values, at: nat, end: nat)
    requires PlainValues(values) && Placed(parts, at, end)
    ensures Sorting.Pairwise(EditsOf(parts, values), OtherPlace)
    ensures forall e <- EditsOf(parts, values) :: e.from < end
    decreases |values|
  {
    if values != [] {
      hide Placed, PlainValues, Names, MatchEdits;
      var init, last := values[..|values| - 1], values[|values| - 1];
      NamesInit(values, last.0);
      EditsApart(parts, init, at, end);
      var replacement := Replacement(last.0, last.1);
      var matches := MatchEdits(parts, last.0, replacement);
      MatchesApart(parts, last.0, replacement, at, end);
      forall x, y | x in EditsOf(parts, init) && y in matches ensures OtherPlace(x, y) {
        EditsMember(parts, init, x);
        MatchMember(parts, last.0, replacement, y);
        var i: nat :| IsEdit(parts, init, {}, i, x);
        var j: nat :| IsMatchEdit(parts, last.0, replacement, j, y);
        SamePart(parts, at, end, i, j);
      }
      PairwiseJoin(EditsOf(parts, init), matches, OtherPlace);
      forall e | e in matches ensures e.from < end {
        MatchMember(parts, last.0, replacement, e);
        var j: nat :| IsMatchEdit(parts, last.0, replacement, j, e);
        PartInside(parts, at, end, j);
      }
    }
  }

  lemma PartInside(parts: seq<Part>, at: nat, end: nat, i: nat)
    requires Placed(parts, at, end) && i < |parts|
    ensures at <= parts[i].from < parts[i].to <= end
  {
    assert parts[i] in parts;
  }

  lemma {:induction false} FromRightOrdered(parts: seq<Part>, values: Values, seen: set<string>, at: nat, end: nat)
    requires Placed(parts, at, end)
    ensures Sorting.Pairwise(EditsFromRight(parts, values, seen), ByPlace())
    ensures forall e <- EditsFromRight(parts, values, seen) :: at <= e.from < end
    decreases |parts|
  {
    if parts != [] {
      hide Placed, Names, Rewritten;
      var part := parts[0];
      PlacedTail(parts, at, end);
      FromRightOrdered(parts[1..], values, seen + {part.name}, part.to, end);
      if Names(values, part.name) {
        var e := Edit(part.from, part.to, Rewritten(values, seen, part.name, ""));
        PairwiseJoin(EditsFromRight(parts[1..], values, seen + {part.name}), [e], ByPlace());
      }
    }
  }

  /** Sorting brings the edits, in whatever order the record made them, into the order of their places. */
  lemma SortedEdits(parts: seq<Part>, values: Values, at: nat, end: nat)
    requires PlainValues(values) && Placed(parts, at, end)
    ensures var text := AddedText(Added(parts, values));
            Sorting.Sort(AllEdits(parts, end, values), ByPlace()) ==
            (if text == "" then [] else [Edit(end, end, text)]) + EditsFromRight(parts, values, {})
  {
    hide Placed, PlainValues, AddedText, Added, EditsOf, EditsFromRight;
    var text := AddedText(Added(parts, values));
    var addition := if text == "" then [] else [Edit(end, end, text)];
    var edits, ordered := AllEdits(parts, end, values), addition + EditsFromRight(parts, values, {});
    EditsApart(parts, values, at, end);
    PairwiseJoin(EditsOf(parts, values), addition, OtherPlace);
    FromRightOrdered(parts, values, {}, at, end);
    PairwiseJoin(addition, EditsFromRight(parts, values, {}), ByPlace());
    forall e ensures e in edits <==> e in ordered {
      EditsMember(parts, values, e);
      FromRightMember(parts, values, {}, e);
    }
    SortedStrictly(edits);
    Sorting.StrictUnique(Sorting.Sort(edits, ByPlace()), ordered, ByPlace());
  }

  lemma SortedStrictly(edits: seq<Edit>)
    requires Sorting.Pairwise(edits, OtherPlace)
    ensures Sorting.Pairwise(Sorting.Sort(edits, ByPlace()), ByPlace())
    ensures forall e :: e in Sorting.Sort(edits, ByPlace()) <==> e in edits
  {
    var sorted := Sorting.Sort(edits, ByPlace());
    Sorting.SortMeaning(edits, ByPlace());
    Sorting.SortPairwise(edits, ByPlace(), OtherPlace);
    forall i, j | 0 <= i < j < |sorted| ensures RightFirst(sorted[i], sorted[j]) {
      assert OtherPlace(sorted[i], sorted[j]) && !RightFirst(sorted[j], sorted[i]);
    }
  }

  /** The bytes outside the patched attributes stay, and the attributes are rewritten where they stand. */
  lemma PatchedIsRebuilt(p: Platform, source: string, start: nat, end: nat, values: Values)
    requires start <= end <= |source| && PlainValues(values) && Parts(p, source[start..end], start).Some?
    ensures var parts := Parts(p, source[start..end], start).value;
            Patched(source, parts, end, values) ==
            source[..start] + Rebuild(p, source[start..end], values, {}, AddedText(Added(parts, values))) + source[end..]
  {
    hide Apply, ApplyAll, PlainValues, Placed, AddedText, Added, Rebuild, EditsFromRight, AllEdits, Parts, Sorting.Sort;
    var parts := Parts(p, source[start..end], start).value;
    PartsPlaced(p, source[start..end], start);
    assert start + |source[start..end]| == end;
    SortedEdits(parts, values, start, end);
    var text := AddedText(Added(parts, values));
    var ordered := EditsFromRight(parts, values, {});
    ApplyRebuilds(p, source, start, end, values, {}, text);
    ApplyAddition(source, end, text, ordered);
  }

  lemma ApplyAddition(source: string, end: nat, text: string, edits: seq<Edit>)
    requires end <= |source|
    ensures ApplyAll(source, (if text == "" then [] else [Edit(end, end, text)]) + edits) ==
            ApplyAll(source[..end] + text + source[end..], edits)
  {
    hide Apply, ApplyAll;
    if text == "" {
      assert [] + edits == edits && source[..end] + text + source[end..] == source;
    } else {
      var e := Edit(end, end, text);
      ApplyConcat(source, [e], edits);
      ApplyOne(source, e);
      assert source == source[..end] + "" + source[end..];
      ApplyBetween(source[..end], "", source[end..], text);
    }
  }
}

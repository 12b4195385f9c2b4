/**
  What an editor shows for an image and what an edit keeps, told by words, declarations
  and numerals rather than by the functions that split, match and filter them.
*/
module ImageMeaning {
  import opened Basics
  import opened WhiteSpace
  import opened TextSplit
  import opened Decimal
  import opened Numerals
  import opened AttributeText
  import opened ImageAttributes
  import opened ImageReadBack
  import opened Percentages
  import opened ImageProperties
  import opened SourceImage
  import opened ImageEditing
  import QuoteMeaning

  // ----- character references

  /** `&#x…;`, `&#…;` or `&name;`, with at least one digit, or two characters of a name. */
  predicate IsReference(r: string) {
    |r| >= 4 && r[0] == '&' && r[|r| - 1] == ';' &&
    if r[1] == '#' && (r[2] == 'x' || r[2] == 'X') then |r| >= 5 && forall i :: 3 <= i < |r| - 1 ==> IsHex(r[i])
    else if r[1] == '#' then forall i :: 2 <= i < |r| - 1 ==> '0' <= r[i] <= '9'
    else IsLetter(r[1]) && forall i :: 2 <= i < |r| - 1 ==> IsLetter(r[i]) || '0' <= r[i] <= '9'
  }

  lemma RunTo(s: string, from: nat, n: nat, test: char -> bool)
    requires from + n < |s| && s[from + n] == ';' && !test(';') && forall i :: from <= i < from + n ==> test(s[i])
    ensures Run(s[from..], test) == n
  {
    var a, b := s[from..from + n], s[from + n..];
    assert s[from..] == a + b;
    assert forall i :: 0 <= i < |a| ==> a[i] == s[from + i];
    RunOf(a, b, test);
  }

  lemma ReferenceIsRead(s: string, n: nat)
    requires n <= |s| && IsReference(s[..n])
    ensures ReferenceLength(s) == n
  {
    var r := s[..n];
    assert forall i :: 0 <= i < n ==> r[i] == s[i];
    if r[1] == '#' && (r[2] == 'x' || r[2] == 'X') { RunTo(s, 3, n - 4, IsHex); }
    else if r[1] == '#' { RunTo(s, 2, n - 3, IsDigit); }
    else { RunTo(s, 2, n - 3, IsAlphanumeric); }
  }

  lemma ReadIsReference(s: string)
    requires ReferenceLength(s) > 0
    ensures IsReference(s[..ReferenceLength(s)])
  {
    var n := ReferenceLength(s);
    var r := s[..n];
    if s[1] == '#' && |s| > 2 && (s[2] == 'x' || s[2] == 'X') {
      assert forall i :: 3 <= i < n - 1 ==> r[i] == s[3..][i - 3];
    } else {
      assert forall i :: 2 <= i < n - 1 ==> r[i] == s[2..][i - 2];
    }
  }

  /** Decoding replaces what stands at the start of a text exactly when it is a whole character reference. */
  lemma ReferenceExactly(s: string, n: nat)
    requires n > 0
    ensures ReferenceLength(s) == n <==> n <= |s| && IsReference(s[..n])
  {
    hide IsReference;
    if ReferenceLength(s) == n { ReadIsReference(s); }
    if n <= |s| && IsReference(s[..n]) { ReferenceIsRead(s, n); }
  }

  // ----- attributes by name

  /** The value of the first attribute of the name, or nothing where there is none. */
  lemma {:induction false} GetExactly(attrs: seq<Attr>, name: string)
    ensures (exists i :: 0 <= i < |attrs| && attrs[i] == Attr(name, Get(attrs, name)) && forall j :: 0 <= j < i ==> attrs[j].name != name) ||
            (Get(attrs, name) == "" && forall a <- attrs :: a.name != name)
  {
    if attrs != [] {
      if attrs[0].name == name {
        assert attrs[0] == Attr(name, Get(attrs, name));
      } else {
        var rest := attrs[1..];
        GetExactly(rest, name);
        if i :| 0 <= i < |rest| && rest[i] == Attr(name, Get(rest, name)) && forall j :: 0 <= j < i ==> rest[j].name != name {
          assert attrs[i + 1] == Attr(name, Get(attrs, name));
          forall j | 0 <= j < i + 1 ensures attrs[j].name != name {
            if j > 0 { assert attrs[j] == rest[j - 1]; }
          }
        } else {
          assert attrs == [attrs[0]] + rest;
        }
      }
    }
  }

  // ----- classes

  function Full(words: seq<string>): seq<string> {
    if words == [] then [] else (if words[0] == "" then [] else [words[0]]) + Full(words[1..])
  }

  lemma FullOf(word: string, rest: seq<string>)
    ensures Full([word] + rest) == (if word == "" then [] else [word]) + Full(rest)
  {
    assert ([word] + rest)[1..] == rest;
  }

  lemma {:induction false} FullMembers(words: seq<string>)
    ensures forall w :: w in Full(words) <==> w in words && w != ""
  {
    if words != [] {
      FullMembers(words[1..]);
      assert words == [words[0]] + words[1..];
    }
  }

  /** What the split gives, apart from empty ends, are the words. */
  lemma {:induction false} SplitGivesWords(s: string)
    ensures Full(SplitSpaces(s)) == QuoteMeaning.Words(s)
    ensures s == "" || IsSpace(s[0]) <==> SplitSpaces(s)[0] == ""
    decreases |s|
  {
    hide IsSpace, Full;
    if s == "" {
      NothingFull();
    } else if IsSpace(s[0]) {
      var rest := TrimStart(s[1..]);
      SplitGivesWords(rest);
      QuoteMeaning.TrimmedWords(s[1..]);
      FullOf("", SplitSpaces(rest));
      assert [] + Full(SplitSpaces(rest)) == Full(SplitSpaces(rest));
    } else {
      SplitGivesWords(s[1..]);
      var rest := SplitSpaces(s[1..]);
      assert rest == [rest[0]] + rest[1..];
      FullOf(rest[0], rest[1..]);
      FullOf([s[0]] + rest[0], rest[1..]);
      LetterJoins(s);
    }
  }

  lemma NothingFull()
    ensures Full([""]) == [] && Full([]) == []
  {
    assert [""][1..] == [];
  }

  lemma LetterJoins(s: string)
    requires s != "" && !IsSpace(s[0])
    requires Full(SplitSpaces(s[1..])) == QuoteMeaning.Words(s[1..])
    requires s[1..] == "" || IsSpace(s[1]) <==> SplitSpaces(s[1..])[0] == ""
    requires var rest := SplitSpaces(s[1..]);
             Full(rest) == (if rest[0] == "" then [] else [rest[0]]) + Full(rest[1..])
    ensures QuoteMeaning.Words(s) == [[s[0]] + SplitSpaces(s[1..])[0]] + Full(SplitSpaces(s[1..])[1..])
  {
    hide IsSpace, Full, SplitSpaces;
    var rest := SplitSpaces(s[1..]);
    if |s| == 1 {
      assert s[1..] == "";
    } else {
      assert s[1..][0] == s[1];
    }
    if rest[0] == "" {
      assert [s[0]] + rest[0] == [s[0]];
      assert [] + Full(rest[1..]) == Full(rest[1..]);
    }
  }

  predicate AlignWord(w: string) {
    w == "align-left" || w == "align-center" || w == "align-right" || w == "align-abstopright"
  }

  predicate StyleWord(w: string) {
    w == "wiki-image-border" || w == "wiki-image-rounded" || w == "wiki-image-shadow"
  }

  lemma AlignWordMeaning(w: string)
    ensures IsAlignClass(w) <==> AlignWord(w)
    ensures IsStyleClass(w) <==> StyleWord(w)
  {
    if IsAlignClass(w) { assert w == w[..6] + w[6..]; }
    if AlignWord(w) { AlignSuffix(); }
  }

  lemma AlignSuffix()
    ensures "align-left"[..6] == "align-" && "align-left"[6..] == "left"
    ensures "align-center"[..6] == "align-" && "align-center"[6..] == "center"
    ensures "align-right"[..6] == "align-" && "align-right"[6..] == "right"
    ensures "align-abstopright"[..6] == "align-" && "align-abstopright"[6..] == "abstopright"
  {
  }

  /** The first word that names an alignment, if any. */
  ghost predicate FirstAlign(words: seq<string>, align: string) {
    if align == "" then forall w <- words :: !AlignWord(w)
    else exists i :: 0 <= i < |words| && AlignWord(words[i]) && words[i] == "align-" + align && forall j :: 0 <= j < i ==> !AlignWord(words[j])
  }

  lemma {:induction false} AlignOfFull(words: seq<string>)
    ensures FirstAlign(Full(words), AlignOf(words))
  {
    hide AlignWord, IsAlignClass;
    if words != [] {
      var w, rest := words[0], words[1..];
      AlignOfFull(rest);
      AlignWordMeaning(w);
      AlignNotEmpty(w);
      StyleIsNoAlign(w);
      if w == "" {
        assert [] + Full(rest) == Full(rest);
      } else if IsAlignClass(w) {
        AlignOwn(w);
        assert Full(words)[0] == w;
      } else {
        AlignLater(w, Full(rest), AlignOf(rest));
      }
    }
  }

  lemma AlignOwn(w: string)
    requires IsAlignClass(w)
    ensures w == "align-" + w[6..] && w[6..] != ""
  {
  }

  lemma AlignLater(w: string, words: seq<string>, align: string)
    requires !AlignWord(w) && FirstAlign(words, align)
    ensures FirstAlign([w] + words, align)
  {
    hide AlignWord;
    if align != "" {
      var i :| 0 <= i < |words| && AlignWord(words[i]) && words[i] == "align-" + align && forall j :: 0 <= j < i ==> !AlignWord(words[j]);
      assert ([w] + words)[i + 1] == words[i];
      forall j | 0 <= j < i + 1 ensures !AlignWord(([w] + words)[j]) {
        if j > 0 { assert ([w] + words)[j] == words[j - 1]; }
      }
    }
  }

  /** The styles an editor offers, in their sequence, that `has` chooses. */
  function Chosen(border: bool, rounded: bool, shadow: bool): seq<Style> {
    (if border then [Border] else []) + (if rounded then [Rounded] else []) + (if shadow then [Shadow] else [])
  }

  /** What is shown: the first value of each name, the first alignment word, and the styles whose words are there. */
  lemma ShownExactly(attrs: seq<Attr>)
    ensures var shown, words := ReadProperties(attrs), QuoteMeaning.Words(Get(attrs, "class"));
            shown.src == Get(attrs, "src") && shown.alt == Get(attrs, "alt") && FirstAlign(words, shown.align) &&
            shown.styles == Chosen("wiki-image-border" in words, "wiki-image-rounded" in words, "wiki-image-shadow" in words)
  {
    hide SplitSpaces, DimensionOf, AlignOf, FirstAlign;
    var split := SplitSpaces(Get(attrs, "class"));
    SplitGivesWords(Get(attrs, "class"));
    FullMembers(split);
    AlignOfFull(split);
  }

  /** The edit replaces alignments and styles where it has some; every other word stays. */
  predicate WordStays(w: string, patch: ImagePatch) {
    !(patch.align.Some? && AlignWord(w)) && !(patch.styles.Some? && StyleWord(w))
  }

  function Staying(words: seq<string>, patch: ImagePatch): seq<string> {
    if words == [] then [] else (if WordStays(words[0], patch) then [words[0]] else []) + Staying(words[1..], patch)
  }

  lemma StayingOf(word: string, rest: seq<string>, patch: ImagePatch)
    ensures Staying([word] + rest, patch) == (if WordStays(word, patch) then [word] else []) + Staying(rest, patch)
  {
    assert ([word] + rest)[1..] == rest;
  }

  lemma {:induction false} KeptIsStaying(words: seq<string>, patch: ImagePatch)
    ensures KeptClasses(words, patch) == Staying(Full(words), patch)
  {
    hide IsAlignClass, IsStyleClass, WordStays;
    if words != [] {
      var w, rest := words[0], words[1..];
      KeptIsStaying(rest, patch);
      WordStaysMeaning(w, patch);
      StayingOf(w, Full(rest), patch);
      assert [] + Full(rest) == Full(rest);
      assert [] + Staying(Full(rest), patch) == Staying(Full(rest), patch);
    }
  }

  lemma WordStaysMeaning(w: string, patch: ImagePatch)
    ensures WordStays(w, patch) <==> !(patch.align.Some? && IsAlignClass(w)) && !(patch.styles.Some? && IsStyleClass(w))
  {
    hide IsAlignClass, IsStyleClass, AlignWord, StyleWord;
    AlignWordMeaning(w);
  }

  function WordOf(style: Style): string {
    match style
    case Border => "wiki-image-border"
    case Rounded => "wiki-image-rounded"
    case Shadow => "wiki-image-shadow"
  }

  lemma {:induction false} ClassesOf(styles: seq<Style>)
    ensures StyleClasses(styles) == seq(|styles|, i requires 0 <= i < |styles| => WordOf(styles[i]))
  {
    if styles != [] { ClassesOf(styles[1..]); }
  }

  /** The words of a merged class: those that stay, in their sequence, the new alignment, and the new styles. */
  lemma MergedExactly(current: string, patch: ImagePatch)
    requires GoodAlign(patch)
    ensures QuoteMeaning.Words(MergeClasses(current, patch)) ==
            Staying(QuoteMeaning.Words(current), patch) +
            (if patch.align.Some? && patch.align.value != "" then ["align-" + patch.align.value] else []) +
            (if patch.styles.Some? then seq(|patch.styles.value|, i requires 0 <= i < |patch.styles.value| => WordOf(patch.styles.value[i]))
             else [])
  {
    hide SplitSpaces, MergeClasses, IsWord, IsAlignClass, IsStyleClass, KeptClasses, Staying, WordOf;
    MergedReadBack(current, patch);
    MergedAreWords(current, patch);
    SplitGivesWords(MergeClasses(current, patch));
    SplitGivesWords(current);
    KeptIsStaying(SplitSpaces(current), patch);
    if patch.styles.Some? { ClassesOf(patch.styles.value); }
    NothingFull();
    WordsAreFull(MergedWords(current, patch));
  }

  lemma {:induction false} WordsAreFull(words: seq<string>)
    requires forall w <- words :: IsWord(w)
    ensures Full(words) == words
  {
    if words != [] {
      assert words[0] in words && forall w <- words[1..] :: w in words;
      WordsAreFull(words[1..]);
    }
  }
}

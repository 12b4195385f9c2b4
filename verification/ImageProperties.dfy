/**
  The properties an editor shows for an HTML image, patching them, and writing a new image.
  The rounding and writing of numbers and the safety of addresses are parameters.
*/
module ImageProperties {
  import opened Basics
  import opened WhiteSpace
  import opened TextSplit
  import opened AttributeText
  import opened ImageAttributes
  import opened ImageLens
  import opened ImageReadBack
  import opened Decimal
  import opened Percentages

  datatype Style = Border | Rounded | Shadow

  datatype Properties = Properties(src: string, alt: string, width: string, height: string, align: string, styles: seq<Style>)

  datatype ImagePatch = ImagePatch(
    src: Option<string>,
    alt: Option<string>,
    width: Option<string>,
    height: Option<string>,
    align: Option<string>,
    styles: Option<seq<Style>>)

  // ----- classes

  /** `split(/\s+/)` */
  function SplitSpaces(s: string): (words: seq<string>)
    ensures |words| > 0
    decreases |s|
  {
    if s == "" then [""]
    else if IsSpace(s[0]) then [""] + SplitSpaces(TrimStart(s[1..]))
    else
      var rest := SplitSpaces(s[1..]);
      [[s[0]] + rest[0]] + rest[1..]
  }

  const ALIGNMENTS: set<string> := {"left", "center", "right", "abstopright"}

  predicate IsAlignClass(word: string) {
    |word| > 6 && word[..6] == "align-" && word[6..] in ALIGNMENTS
  }

  function StyleClass(style: Style): string {
    match style
    case Border => "wiki-image-border"
    case Rounded => "wiki-image-rounded"
    case Shadow => "wiki-image-shadow"
  }

  predicate IsStyleClass(word: string) {
    word == StyleClass(Border) || word == StyleClass(Rounded) || word == StyleClass(Shadow)
  }

  function StyleClasses(styles: seq<Style>): seq<string> {
    if styles == [] then [] else [StyleClass(styles[0])] + StyleClasses(styles[1..])
  }

  /** The alignment of the first class that names one. */
  function AlignOf(words: seq<string>): string {
    if words == [] then "" else if IsAlignClass(words[0]) then words[0][6..] else AlignOf(words[1..])
  }

  function Selected(style: Style, chosen: bool): seq<Style> {
    if chosen then [style] else []
  }

  /** The styles whose classes are there, in their fixed order. */
  function StylesOf(words: seq<string>): seq<Style> {
    Selected(Border, StyleClass(Border) in words) + Selected(Rounded, StyleClass(Rounded) in words) +
    Selected(Shadow, StyleClass(Shadow) in words)
  }

  /** The same styles in their fixed order, each once. */
  function Canonical(styles: seq<Style>): seq<Style> {
    Selected(Border, Border in styles) + Selected(Rounded, Rounded in styles) + Selected(Shadow, Shadow in styles)
  }

  /** The classes that a patch leaves. */
  function KeptClasses(words: seq<string>, patch: ImagePatch): seq<string> {
    if words == [] then []
    else
      (if words[0] == "" || (patch.align.Some? && IsAlignClass(words[0])) || (patch.styles.Some? && IsStyleClass(words[0])) then []
       else [words[0]]) + KeptClasses(words[1..], patch)
  }

  function MergedWords(current: string, patch: ImagePatch): seq<string> {
    KeptClasses(SplitSpaces(current), patch) +
    (if patch.align.Some? && patch.align.value != "" then ["align-" + patch.align.value] else []) +
    (if patch.styles.Some? then StyleClasses(patch.styles.value) else [])
  }

  function MergeClasses(current: string, patch: ImagePatch): string {
    Join(MergedWords(current, patch), ' ')
  }

  predicate IsWord(s: string) {
    s != "" && forall c <- s :: !IsSpace(c)
  }

  lemma {:induction false} SplitWords(word: string, rest: string)
    requires forall c <- word :: !IsSpace(c)
    requires rest == "" || !IsSpace(rest[0])
    ensures SplitSpaces(word + " " + rest) == [word] + SplitSpaces(rest)
    ensures SplitSpaces(word) == [word]
    decreases |word|
  {
    var text := word + " " + rest;
    if word == "" {
      assert text == " " + rest && text[1..] == rest && TrimStart(rest) == rest;
    } else {
      assert word[0] in word && forall c <- word[1..] :: c in word;
      assert text[1..] == word[1..] + " " + rest && text[0] == word[0];
      SplitWords(word[1..], rest);
      assert word == [word[0]] + word[1..];
    }
  }

  lemma {:induction false} WordsRoundTrip(words: seq<string>)
    requires words != [] && forall w <- words :: IsWord(w)
    ensures SplitSpaces(Join(words, ' ')) == words
    ensures Join(words, ' ') != "" && !IsSpace(Join(words, ' ')[0])
  {
    var head := words[0];
    assert head in words && head[0] in head;
    if |words| == 1 {
      SplitWords(head, "");
    } else {
      assert forall w <- words[1..] :: w in words;
      WordsRoundTrip(words[1..]);
      SplitWords(head, Join(words[1..], ' '));
      assert words == [head] + words[1..];
    }
  }

  lemma {:induction false} SplitsIntoWords(s: string)
    ensures forall w <- SplitSpaces(s) :: w == "" || IsWord(w)
    decreases |s|
  {
    if s != "" {
      if IsSpace(s[0]) {
        SplitsIntoWords(TrimStart(s[1..]));
      } else {
        SplitsIntoWords(s[1..]);
        var rest := SplitSpaces(s[1..]);
        assert rest[0] in rest && forall w <- rest[1..] :: w in rest;
        assert IsWord([s[0]] + rest[0]);
      }
    }
  }

  lemma {:induction false} KeptMeaning(words: seq<string>, patch: ImagePatch)
    ensures forall w :: w in KeptClasses(words, patch) <==>
              w in words && w != "" && !(patch.align.Some? && IsAlignClass(w)) && !(patch.styles.Some? && IsStyleClass(w))
  {
    hide IsAlignClass, IsStyleClass;
    if words != [] {
      KeptMeaning(words[1..], patch);
      assert words == [words[0]] + words[1..];
    }
  }

  lemma {:induction false} KeptAlign(words: seq<string>, patch: ImagePatch, more: seq<string>)
    ensures AlignOf(KeptClasses(words, patch) + more) ==
            if patch.align.Some? || AlignOf(words) == "" then AlignOf(more) else AlignOf(words)
  {
    if words == [] {
      assert [] + more == more;
    } else {
      hide IsStyleClass, ALIGNMENTS;
      var w, rest := words[0], KeptClasses(words[1..], patch);
      KeptAlign(words[1..], patch, more);
      assert ([w] + rest + more)[1..] == rest + more;
      assert [] + rest + more == rest + more;
      StyleIsNoAlign(w);
      AlignNotEmpty(w);
    }
  }

  lemma StyleIsNoAlign(w: string)
    ensures IsStyleClass(w) ==> !IsAlignClass(w)
    ensures !IsAlignClass("")
  {
  }

  lemma AlignNotEmpty(w: string)
    ensures IsAlignClass(w) ==> w[6..] != ""
  {
  }

  lemma {:induction false} NoAlign(styles: seq<Style>)
    ensures AlignOf(StyleClasses(styles)) == ""
  {
    if styles != [] {
      NoAlign(styles[1..]);
      StyleIsNoAlign(StyleClass(styles[0]));
    }
  }

  lemma {:induction false} ClassesMeaning(styles: seq<Style>, style: Style)
    ensures StyleClass(style) in StyleClasses(styles) <==> style in styles
    ensures forall w <- StyleClasses(styles) :: IsStyleClass(w)
  {
    if styles != [] {
      ClassesMeaning(styles[1..], style);
      assert styles == [styles[0]] + styles[1..];
      DistinctClasses(styles[0], style);
    }
  }

  lemma DistinctClasses(a: Style, b: Style)
    ensures StyleClass(a) == StyleClass(b) <==> a == b
    ensures IsStyleClass(StyleClass(a))
  {
  }

  lemma StyleClassIsWord(w: string)
    ensures IsStyleClass(w) ==> IsWord(w)
  {
  }

  lemma AlignmentsAreWords(w: string)
    requires w in ALIGNMENTS
    ensures forall c <- w :: !IsSpace(c)
    ensures w != ""
  {
  }

  lemma AlignClassIsWord(w: string)
    requires w in ALIGNMENTS
    ensures IsWord("align-" + w) && IsAlignClass("align-" + w) && ("align-" + w)[6..] == w
  {
    hide IsSpace, ALIGNMENTS;
    AlignmentsAreWords(w);
    assert ("align-" + w)[6..] == w && ("align-" + w)[..6] == "align-";
    AlignPrefix();
    assert forall c <- "align-" + w :: c in "align-" || c in w;
  }

  lemma AlignPrefix()
    ensures forall c <- "align-" :: !IsSpace(c)
  {
  }

  lemma StyleOrAlign(w: string)
    ensures !(IsStyleClass(w) && IsAlignClass(w))
  {
    StyleIsNoAlign(w);
  }

  /** A patch that could have been validated, as far as classes go. */
  predicate GoodAlign(patch: ImagePatch) {
    patch.align.Some? && patch.align.value != "" ==> patch.align.value in ALIGNMENTS
  }

  lemma MergedAreWords(current: string, patch: ImagePatch)
    requires GoodAlign(patch)
    ensures forall w <- MergedWords(current, patch) :: IsWord(w)
  {
    hide IsStyleClass, IsAlignClass, ALIGNMENTS, IsWord, IsSpace;
    SplitsIntoWords(current);
    KeptMeaning(SplitSpaces(current), patch);
    if patch.align.Some? && patch.align.value != "" { AlignClassIsWord(patch.align.value); }
    if patch.styles.Some? { ClassesMeaning(patch.styles.value, Border); }
    forall w | w in MergedWords(current, patch) ensures IsWord(w) { StyleClassIsWord(w); }
  }

  /** The classes read back are the merged ones, or a single empty one. */
  lemma MergedReadBack(current: string, patch: ImagePatch)
    requires GoodAlign(patch)
    ensures SplitSpaces(MergeClasses(current, patch)) ==
            if MergedWords(current, patch) == [] then [""] else MergedWords(current, patch)
  {
    hide MergedWords, IsWord, SplitSpaces;
    MergedAreWords(current, patch);
    if MergedWords(current, patch) == [] { NoWords(); } else { WordsRoundTrip(MergedWords(current, patch)); }
  }

  lemma NoWords()
    ensures SplitSpaces("") == [""] && Join([], ' ') == ""
  {
  }

  lemma NothingInEmpty()
    ensures AlignOf([""]) == "" && AlignOf([]) == "" && StylesOf([""]) == StylesOf([])
  {
    StyleIsNoAlign("");
    assert [""][1..] == [];
  }

  lemma MergedAlign(current: string, patch: ImagePatch)
    requires GoodAlign(patch)
    ensures AlignOf(MergedWords(current, patch)) == if patch.align.Some? then patch.align.value else AlignOf(SplitSpaces(current))
  {
    hide IsStyleClass, IsAlignClass, ALIGNMENTS, SplitSpaces;
    var words := SplitSpaces(current);
    var own := if patch.align.Some? && patch.align.value != "" then ["align-" + patch.align.value] else [];
    var classes := if patch.styles.Some? then StyleClasses(patch.styles.value) else [];
    assert MergedWords(current, patch) == KeptClasses(words, patch) + (own + classes);
    KeptAlign(words, patch, own + classes);
    if patch.styles.Some? { NoAlign(patch.styles.value); }
    NothingInEmpty();
    if own == [] {
      assert own + classes == classes;
    } else {
      AlignClassIsWord(patch.align.value);
      assert (own + classes)[1..] == classes;
    }
  }

  lemma MergedStyle(current: string, patch: ImagePatch, style: Style)
    requires GoodAlign(patch)
    ensures StyleClass(style) in MergedWords(current, patch) <==>
            if patch.styles.Some? then style in patch.styles.value else StyleClass(style) in SplitSpaces(current)
  {
    hide IsStyleClass, IsAlignClass, ALIGNMENTS, SplitSpaces;
    var w := StyleClass(style);
    KeptMeaning(SplitSpaces(current), patch);
    DistinctClasses(style, style);
    StyleOrAlign(w);
    if patch.styles.Some? { ClassesMeaning(patch.styles.value, style); }
    if patch.align.Some? && patch.align.value != "" { AlignClassIsWord(patch.align.value); }
    assert w != "" by { StyleClassIsWord(w); }
  }

  /** Merged classes show the alignment and the styles that were put, and otherwise those that were there. */
  lemma MergeReadsBack(current: string, patch: ImagePatch)
    requires GoodAlign(patch)
    ensures var words := SplitSpaces(MergeClasses(current, patch));
            AlignOf(words) == (if patch.align.Some? then patch.align.value else AlignOf(SplitSpaces(current))) &&
            StylesOf(words) == (if patch.styles.Some? then Canonical(patch.styles.value) else StylesOf(SplitSpaces(current)))
  {
    hide MergedWords, SplitSpaces, AlignOf, MergeClasses;
    MergedReadBack(current, patch);
    MergedAlign(current, patch);
    MergedStyle(current, patch, Border);
    MergedStyle(current, patch, Rounded);
    MergedStyle(current, patch, Shadow);
    NothingInEmpty();
  }

  // ----- dimensions

  function WithoutPx(s: string): string {
    if |s| >= 2 && s[|s| - 2..] == "px" then s[..|s| - 2] else s
  }

  predicate AreDigits(s: string) {
    s != "" && forall c <- s :: IsDigit(c)
  }

  function NormalizeDimension(percent: Percent, input: string): Option<string> {
    var value := Trim(input);
    var digits := WithoutPx(value);
    if value == "" || value == "auto" then Some(value)
    else if AreDigits(digits) && digits[0] != '0' then
      if NumberOf(digits) <= 16384 then Some(ToDigits(NumberOf(digits))) else None
    else if value[|value| - 1] == '%' && IsDecimal(value[..|value| - 1]) then
      match Written(percent, value[..|value| - 1]) case None => None case Some(text) => Some(text + "%")
    else None
  }

  /** How a normalised dimension stands in a style. */
  function Shown(dimension: string): string {
    if AreDigits(dimension) then dimension + "px" else dimension
  }

  lemma PixelsReadBack(percent: Percent, n: nat)
    requires 1 <= n <= 16384
    ensures NormalizeDimension(percent, ToDigits(n) + "px") == Some(ToDigits(n))
  {
    var d := ToDigits(n);
    var value := d + "px";
    ToDigitsMeaning(n);
    assert IsDigit(d[0]) && value[0] == d[0];
    NoTrim(value);
    assert WithoutPx(value) == d;
    NoLeadingZero(n);
    assert value[1] != 'u' by { if |d| > 1 { assert IsDigit(d[1]); } else { assert value[1] == 'p'; } }
    assert value != "auto";
  }

  lemma {:induction false} NoLeadingZero(n: nat)
    requires n >= 1
    ensures ToDigits(n) != "" && ToDigits(n)[0] != '0'
  {
    if n >= 10 { NoLeadingZero(n / 10); }
  }

  /** A dimension that a style can hold as it is. */
  predicate PlainDimension(d: string) {
    d != "" && forall c <- d :: IsDigit(c) || c in "autopxe%.+-"
  }

  lemma NormalizedIsPlain(percent: Percent, input: string)
    requires GoodPercent(percent) && NormalizeDimension(percent, input).Some?
    ensures var d := NormalizeDimension(percent, input).value; d != "" ==> PlainDimension(d) && PlainDimension(Shown(d))
  {
    hide IsDecimal, Trim;
    var value := Trim(input);
    var digits := WithoutPx(value);
    if AreDigits(digits) { ToDigitsMeaning(NumberOf(digits)); }
    if !(value == "" || value == "auto" || (AreDigits(digits) && digits[0] != '0')) {
      WrittenMeaning(percent, value[..|value| - 1]);
    }
  }

  /** The input is a percentage, and the number it is read as is smaller than 0.000001. */
  predicate IsTinyPercentage(percent: Percent, input: string) {
    var value := Trim(input);
    value != "" && value[|value| - 1] == '%' && IsDecimal(value[..|value| - 1]) && IsTiny(percent, value[..|value| - 1])
  }

  /** Shown dimensions normalise to themselves, except tiny percentages, whose text is refused. */
  lemma ShownReadsBack(percent: Percent, input: string)
    requires GoodPercent(percent) && NormalizeDimension(percent, input).Some?
    ensures var d := NormalizeDimension(percent, input).value;
            NormalizeDimension(percent, Shown(d)) == if IsTinyPercentage(percent, input) then None else Some(d)
  {
    hide IsDecimal, Trim, IsSpace, IsTiny, GoodPercent, Written;
    var value := Trim(input);
    var digits := WithoutPx(value);
    var d := NormalizeDimension(percent, input).value;
    if value == "" {
      EmptyReadsBack(percent);
    } else if value == "auto" {
      AutoReadsBack(percent);
    } else if AreDigits(digits) && digits[0] != '0' {
      var n := NumberOf(digits);
      ToDigitsMeaning(n);
      FirstDigitCounts(digits);
      PixelsReadBack(percent, n);
      NoPercentSign(value);
    } else {
      PercentReadsBack(percent, value[..|value| - 1]);
    }
  }

  lemma NoPercentSign(value: string)
    requires AreDigits(WithoutPx(value)) && value != ""
    ensures value[|value| - 1] != '%'
  {
    if WithoutPx(value) == value {
      assert IsDigit(value[|value| - 1]);
    } else {
      assert value[|value| - 2..][1] == 'x';
    }
  }

  lemma TinyDigits()
    ensures IsDecimal("0.0000001") && Whole("0.0000001") == "0" && Fraction("0.0000001") == "0000001"
  {
    RunOf("0", ".0000001", IsDigit);
    assert "0" + ".0000001" == "0.0000001";
    RunOf("0000001", "", IsDigit);
    assert "0000001" + "" == "0000001" == "0.0000001"[2..];
  }

  lemma TinyValue()
    ensures IsDecimal("0.0000001") && Value("0.0000001") == 0.0000001
  {
    hide NumberOf, Ten, IsDecimal, Whole, Fraction;
    TinyDigits();
    TinyNumbers();
  }

  lemma TinyNumbers()
    ensures NumberOf("0") == 0 && NumberOf("0000001") == 1 && Ten(7) == 10000000
  {
    ZeroIff("0");
    ZeroIff("000000");
    assert "0000001"[..6] == "000000";
    assert Ten(7) == 10000000 by { TenAdds(3, 4); assert Ten(4) == 10 * Ten(3); assert Ten(3) == 1000; }
  }

  /** A percentage of 0.0000001 is accepted, and what is written for it is refused. */
  lemma TinyExample(percent: Percent)
    requires GoodPercent(percent)
    ensures IsTinyPercentage(percent, "0.0000001%")
    ensures NormalizeDimension(percent, "0.0000001%").Some?
    ensures NormalizeDimension(percent, Shown(NormalizeDimension(percent, "0.0000001%").value)) == None
    ensures percent.show(percent.round(0.0000001)) == "1e-7" ==>
              NormalizeDimension(percent, "0.0000001%") == Some("1e-7%") && NormalizeDimension(percent, "1e-7%") == None
  {
    hide IsDecimal, Value, GoodPercent, Trim, IsTiny, Written, AreDigits, WithoutPx;
    var input := "0.0000001%";
    TinyValue();
    TinyText();
    TinyIsAccepted(percent);
    ShownReadsBack(percent, input);
    ExponentText();
  }

  lemma TinyText()
    ensures var input := "0.0000001%";
            Trim(input) == input && !AreDigits(WithoutPx(input)) && input[..|input| - 1] == "0.0000001"
  {
    hide TrimEnd, TrimStart, Trim;
    var input := "0.0000001%";
    NoTrim(input);
    NotDigits(input);
    assert input[|input| - 2..][1] == '%';
  }

  lemma ExponentText()
    ensures "1e-7" + "%" == "1e-7%" && Shown("1e-7%") == "1e-7%"
  {
    NotDigits("1e-7%");
  }

  lemma TinyIsAccepted(percent: Percent)
    requires GoodPercent(percent) && IsDecimal("0.0000001") && Value("0.0000001") == 0.0000001
    ensures IsTiny(percent, "0.0000001") && Written(percent, "0.0000001") == Some(percent.show(percent.round(0.0000001)))
  {
    hide IsDecimal, Value;
    var tiny := percent.round(0.0000001);
    assert Close(percent);
    var edge := percent.round(THRESHOLD);
    assert 0.0 < tiny < edge <= 100.0;
  }

  lemma {:induction false} FirstDigitCounts(digits: string)
    requires AreDigits(digits) && digits[0] != '0'
    ensures NumberOf(digits) >= 1
  {
    assert IsDigit(digits[0]) && IsDigit(digits[|digits| - 1]);
    if |digits| > 1 {
      assert forall c <- digits[..|digits| - 1] :: c in digits;
      FirstDigitCounts(digits[..|digits| - 1]);
    } else {
      assert digits[..0] == "" && NumberOf("") == 0;
    }
  }

  lemma EmptyReadsBack(percent: Percent)
    ensures NormalizeDimension(percent, Shown("")) == Some("")
  {
  }

  lemma AutoReadsBack(percent: Percent)
    ensures NormalizeDimension(percent, Shown("auto")) == Some("auto")
  {
    assert !AreDigits("auto") by { assert "auto"[0] in "auto" && !IsDigit('a'); }
    NoTrim("auto");
  }

  lemma PercentReadsBack(percent: Percent, s: string)
    requires GoodPercent(percent) && IsDecimal(s) && Written(percent, s).Some?
    ensures var d := Written(percent, s).value + "%";
            NormalizeDimension(percent, Shown(d)) == if IsTiny(percent, s) then None else Some(d)
  {
    hide IsDecimal, IsTiny, GoodPercent, Written;
    WrittenMeaning(percent, s);
    var text := Written(percent, s).value;
    var d := text + "%";
    assert d[..|d| - 1] == text && d[|d| - 1] == '%';
    NotDigits(d);
    assert text[0] in text;
    NoTrim(d);
    assert WithoutPx(d) == d by { if |d| >= 2 { assert d[|d| - 2..][1] == '%'; } }
    assert d != "auto" by { if |d| == 4 { assert d[3] == '%'; } }
  }

  lemma NotDigits(d: string)
    requires d != "" && d[|d| - 1] == '%'
    ensures !AreDigits(d)
  {
    assert d[|d| - 1] in d && !IsDigit('%');
  }

  // ----- the style attribute

  /** Only ordinary declarations are read and edited. */
  predicate SimpleStyle(s: string) {
    forall c <- s :: c !in "()'\"\\"
  }

  function LowerChar(c: char): char {
    if 'A' <= c <= 'Z' then 'a' + (c - 'A') else c
  }

  function Lower(s: string): string {
    if s == "" then "" else [LowerChar(s[0])] + Lower(s[1..])
  }

  predicate NamedBy(t: string, name: string) {
    |t| >= |name| && Lower(t[..|name|]) == name && TrimStart(t[|name|..]) != "" && TrimStart(t[|name|..])[0] == ':'
  }

  /** `/^\s*(width|height)\s*:/i` */
  function DeclaredName(d: string): Option<string> {
    var t := TrimStart(d);
    if NamedBy(t, "width") then Some("width") else if NamedBy(t, "height") then Some("height") else None
  }

  function BehindColon(d: string): string
    requires DeclaredName(d).Some?
  {
    TrimStart(TrimStart(d)[|DeclaredName(d).value|..])[1..]
  }

  /** `([^;]+?)\s*(?:!important)?\s*$`, trimmed: at least one character, and no trailing mark. */
  function DeclaredValue(v: string): Option<string> {
    var u := TrimEnd(v);
    var core := Trim(if |u| >= 10 && Lower(u[|u| - 10..]) == "!important" then u[..|u| - 10] else u);
    if core != "" then Some(core) else if v != "" then Some(Trim(v)) else None
  }

  function MatchDeclaration(d: string, name: string): Option<string> {
    if DeclaredName(d) == Some(name) then DeclaredValue(BehindColon(d)) else None
  }

  /** The last declaration of the name counts. */
  function StyleDimension(declarations: seq<string>, name: string): Option<string> {
    if declarations == [] then None
    else
      var last := MatchDeclaration(declarations[|declarations| - 1], name);
      if last.Some? then last else StyleDimension(declarations[..|declarations| - 1], name)
  }

  /** Both dimensions after normalisation, where they are patched. */
  datatype Sizes = Sizes(width: Option<string>, height: Option<string>)

  function SizeOf(sizes: Sizes, name: string): Option<string> {
    if name == "width" then sizes.width else if name == "height" then sizes.height else None
  }

  predicate Dropped(d: string, sizes: Sizes) {
    DeclaredName(d).Some? && SizeOf(sizes, DeclaredName(d).value).Some?
  }

  function KeptDeclarations(declarations: seq<string>, sizes: Sizes): seq<string> {
    if declarations == [] then []
    else
      KeptDeclarations(declarations[..|declarations| - 1], sizes) +
      (if Dropped(declarations[|declarations| - 1], sizes) then [] else [declarations[|declarations| - 1]])
  }

  function NewDeclaration(name: string, size: Option<string>): seq<string> {
    if size.Some? && size.value != "" then [name + ":" + Shown(size.value)] else []
  }

  function NotEmpty(words: seq<string>): seq<string> {
    if words == [] then []
    else NotEmpty(words[..|words| - 1]) + (if words[|words| - 1] == "" then [] else [words[|words| - 1]])
  }

  function NewDeclarations(style: string, sizes: Sizes): seq<string> {
    NotEmpty(KeptDeclarations(Split(style, ';'), sizes) + (NewDeclaration("width", sizes.width) + NewDeclaration("height", sizes.height)))
  }

  lemma {:induction false} DimensionConcat(a: seq<string>, b: seq<string>, name: string)
    ensures StyleDimension(a + b, name) == if StyleDimension(b, name).Some? then StyleDimension(b, name) else StyleDimension(a, name)
  {
    hide MatchDeclaration;
    if b == [] {
      assert a + b == a;
    } else {
      DimensionConcat(a, b[..|b| - 1], name);
      assert (a + b)[..|a + b| - 1] == a + b[..|b| - 1];
    }
  }

  lemma DimensionOne(d: string, name: string)
    ensures StyleDimension([d], name) == MatchDeclaration(d, name)
  {
    assert [d][..0] == [];
  }

  lemma {:induction false} KeptDimension(declarations: seq<string>, sizes: Sizes, name: string)
    ensures StyleDimension(KeptDeclarations(declarations, sizes), name) ==
            if SizeOf(sizes, name).Some? then None else StyleDimension(declarations, name)
  {
    if declarations != [] {
      hide DeclaredName, DeclaredValue, SizeOf;
      var init, d := declarations[..|declarations| - 1], declarations[|declarations| - 1];
      KeptDimension(init, sizes, name);
      DimensionConcat(KeptDeclarations(init, sizes), [d], name);
      DimensionOne(d, name);
      assert KeptDeclarations(init, sizes) + [] == KeptDeclarations(init, sizes);
    }
  }

  lemma {:induction false} NotEmptyMember(words: seq<string>, w: string)
    ensures w in NotEmpty(words) <==> w in words && w != ""
  {
    if words != [] {
      NotEmptyMember(words[..|words| - 1], w);
      assert words == words[..|words| - 1] + [words[|words| - 1]];
    }
  }

  lemma {:induction false} NotEmptyDimension(words: seq<string>, name: string)
    ensures StyleDimension(NotEmpty(words), name) == StyleDimension(words, name)
  {
    if words != [] {
      hide MatchDeclaration;
      var init, w := words[..|words| - 1], words[|words| - 1];
      NotEmptyDimension(init, name);
      DimensionConcat(NotEmpty(init), [w], name);
      DimensionOne(w, name);
      EmptyDeclaration(name);
      assert NotEmpty(init) + [] == NotEmpty(init);
    }
  }

  lemma EmptyDeclaration(name: string)
    ensures MatchDeclaration("", name) == None && StyleDimension([""], name) == None
  {
    DimensionOne("", name);
  }

  lemma {:induction false} KeptMember(declarations: seq<string>, sizes: Sizes, d: string)
    ensures d in KeptDeclarations(declarations, sizes) ==> d in declarations
  {
    hide Dropped;
    if declarations != [] {
      KeptMember(declarations[..|declarations| - 1], sizes, d);
      assert declarations == declarations[..|declarations| - 1] + [declarations[|declarations| - 1]];
    }
  }

  lemma {:induction false} LowerKeeps(s: string)
    requires forall c <- s :: 'a' <= c <= 'z'
    ensures Lower(s) == s
  {
    if s != "" {
      assert s[0] in s && forall c <- s[1..] :: c in s;
      LowerKeeps(s[1..]);
    }
  }

  lemma NamedByItself(name: string, rest: string)
    requires PlainName(name)
    ensures NamedBy(name + ":" + rest, name) && TrimStart((name + ":" + rest)[|name|..]) == ":" + rest
    ensures TrimStart(name + ":" + rest) == name + ":" + rest
  {
    hide IsSpace, Lower, TrimStart;
    var t := name + ":" + rest;
    assert t[..|name|] == name && t[|name|..] == ":" + rest;
    PlainIsName(name);
    assert t[0] == name[0];
    LowerKeeps(name);
    ColonIsNoSpace();
    NoTrimStart(t);
    NoTrimStart(":" + rest);
  }

  lemma ColonIsNoSpace()
    ensures !IsSpace(':')
  {
  }

  lemma NewName(name: string, rest: string)
    requires name == "width" || name == "height"
    ensures DeclaredName(name + ":" + rest) == Some(name)
    ensures DeclaredName(name + ":" + rest).Some? && BehindColon(name + ":" + rest) == rest
  {
    hide TrimStart, NamedBy;
    var t := name + ":" + rest;
    WidthHeight();
    NamedByItself(name, rest);
    if name == "height" { HeightIsNoWidth(t); }
    assert (":" + rest)[1..] == rest;
  }

  lemma WidthHeight()
    ensures PlainName("width") && PlainName("height")
  {
  }

  lemma HeightIsNoWidth(t: string)
    requires |t| > 6 && t[0] == 'h'
    ensures !NamedBy(t, "width")
  {
    if Lower(t[..5]) == "width" { assert Lower(t[..5])[0] == LowerChar(t[0]); }
  }

  lemma PlainValue(d: string)
    requires PlainDimension(d)
    ensures DeclaredValue(d) == Some(d) && ';' !in d && SimpleStyle(d)
  {
    assert d[0] in d && d[|d| - 1] in d;
    PlainIsNoSpace(d[0]);
    PlainIsNoSpace(d[|d| - 1]);
    hide IsSpace;
    NoTrim(d);
    assert TrimEnd(d) == d;
    if |d| >= 10 {
      var last := d[|d| - 10..];
      assert last[0] == d[|d| - 10] && d[|d| - 10] in d;
      assert Lower(last)[0] == LowerChar(last[0]);
    }
  }

  lemma PlainIsNoSpace(c: char)
    requires IsDigit(c) || c in "autopxe%.+-"
    ensures !IsSpace(c)
  {
  }

  lemma NewDimension(own: string, size: Option<string>, name: string)
    requires (own == "width" || own == "height") && (size.Some? && size.value != "" ==> PlainDimension(Shown(size.value)))
    ensures StyleDimension(NewDeclaration(own, size), name) ==
            if own == name && size.Some? && size.value != "" then Some(Shown(size.value)) else None
    ensures forall d <- NewDeclaration(own, size) :: ';' !in d && SimpleStyle(d)
  {
    hide PlainDimension, Shown, DeclaredName, BehindColon, DeclaredValue;
    if size.Some? && size.value != "" {
      var d := own + ":" + Shown(size.value);
      DimensionOne(d, name);
      NewName(own, Shown(size.value));
      PlainValue(Shown(size.value));
      OwnIsSimple(own);
    }
  }

  lemma OwnIsSimple(own: string)
    requires own == "width" || own == "height"
    ensures SimpleStyle(own + ":") && ';' !in own + ":"
  {
  }

  lemma {:induction false} SplitSimple(s: string)
    requires SimpleStyle(s)
    ensures forall d <- Split(s, ';') :: SimpleStyle(d) && ';' !in d
  {
    if s != "" {
      assert s[0] in s && forall c <- s[1..] :: c in s;
      SplitSimple(s[1..]);
      var rest := Split(s[1..], ';');
      assert rest[0] in rest && forall d <- rest[1..] :: d in rest;
    }
  }

  lemma {:induction false} JoinSimple(words: seq<string>)
    requires forall d <- words :: SimpleStyle(d)
    ensures SimpleStyle(Join(words, ';'))
  {
    if |words| > 0 {
      assert words[0] in words && forall d <- words[1..] :: d in words;
      JoinSimple(words[1..]);
    }
  }

  ghost predicate PlainSizes(sizes: Sizes) {
    (sizes.width.Some? && sizes.width.value != "" ==> PlainDimension(Shown(sizes.width.value))) &&
    (sizes.height.Some? && sizes.height.value != "" ==> PlainDimension(Shown(sizes.height.value)))
  }

  /** A new style shows the patched dimensions, keeps the other one, and stays editable. */
  lemma StyleReadsBack(style: string, sizes: Sizes, name: string)
    requires SimpleStyle(style) && PlainSizes(sizes) && (name == "width" || name == "height")
    ensures var next := Join(NewDeclarations(style, sizes), ';');
            SimpleStyle(next) &&
            StyleDimension(Split(next, ';'), name) ==
            match SizeOf(sizes, name)
            case None => StyleDimension(Split(style, ';'), name)
            case Some(d) => if d == "" then None else Some(Shown(d))
  {
    hide StyleDimension, KeptDeclarations, NewDeclaration, PlainDimension, Shown, SimpleStyle, Split, NotEmpty, MatchDeclaration;
    var before := Split(style, ';');
    var kept := KeptDeclarations(before, sizes);
    var w, h := NewDeclaration("width", sizes.width), NewDeclaration("height", sizes.height);
    var all := kept + (w + h);
    var next := NotEmpty(all);
    NewDimension("width", sizes.width, name);
    NewDimension("height", sizes.height, name);
    DimensionConcat(w, h, name);
    DimensionConcat(kept, w + h, name);
    KeptDimension(before, sizes, name);
    NotEmptyDimension(all, name);
    SplitSimple(style);
    forall d | d in next ensures SimpleStyle(d) && ';' !in d {
      NotEmptyMember(all, d);
      KeptMember(before, sizes, d);
    }
    JoinSimple(next);
    if next == [] {
      EmptyDeclaration(name);
      EmptySplit(name);
    } else {
      SplitJoin(next, ';');
    }
  }

  lemma EmptySplit(name: string)
    ensures Join([], ';') == "" && Split("", ';') == [""] && StyleDimension([], name) == None
  {
  }

  // ----- reading and patching properties

  /** The parts of the browser that are parameters here. */
  datatype Editor = Editor(platform: Platform, percent: Percent, safeSource: string -> bool)

  ghost predicate GoodEditor(e: Editor) {
    GoodPlatform(e.platform) && GoodPercent(e.percent)
  }

  function DimensionOf(attrs: seq<Attr>, name: string): string {
    var style := Get(attrs, "style");
    var styled := if SimpleStyle(style) then StyleDimension(Split(style, ';'), name) else None;
    match styled case Some(d) => d case None => Get(attrs, name)
  }

  function ReadProperties(attrs: seq<Attr>): Properties {
    var words := SplitSpaces(Get(attrs, "class"));
    Properties(Get(attrs, "src"), Get(attrs, "alt"), DimensionOf(attrs, "width"), DimensionOf(attrs, "height"),
               AlignOf(words), StylesOf(words))
  }

  predicate ValidAlt(alt: string) {
    |alt| <= 2000 && forall c <- alt :: c as int >= 32 && c as int != 127
  }

  predicate Validate(e: Editor, patch: ImagePatch) {
    (patch.src.Some? ==> patch.src.value != "" && e.safeSource(patch.src.value)) &&
    (patch.alt.Some? ==> ValidAlt(patch.alt.value)) &&
    (patch.width.Some? ==> NormalizeDimension(e.percent, patch.width.value).Some?) &&
    (patch.height.Some? ==> NormalizeDimension(e.percent, patch.height.value).Some?) &&
    GoodAlign(patch)
  }

  function SizeFor(e: Editor, size: Option<string>): Option<string> {
    match size case None => None case Some(input) => NormalizeDimension(e.percent, input)
  }

  function SizesFor(e: Editor, patch: ImagePatch): Sizes {
    Sizes(SizeFor(e, patch.width), SizeFor(e, patch.height))
  }

  function Entry(name: string, value: Option<string>): Values {
    match value case None => [] case Some(v) => [(name, v)]
  }

  function ClassFor(attrs: seq<Attr>, patch: ImagePatch): Option<string> {
    if patch.align.Some? || patch.styles.Some? then Some(MergeClasses(Get(attrs, "class"), patch)) else None
  }

  function StyleFor(attrs: seq<Attr>, sizes: Sizes): Option<string> {
    var style := Get(attrs, "style");
    if (sizes.width.Some? || sizes.height.Some?) && (style != "" || NewDeclarations(style, sizes) != []) then
      Some(Join(NewDeclarations(style, sizes), ';'))
    else None
  }

  /** The record of new values; None where the style is opaque. */
  function PatchValues(e: Editor, attrs: seq<Attr>, patch: ImagePatch): Option<Values> {
    var sizes := SizesFor(e, patch);
    if (sizes.width.Some? || sizes.height.Some?) && !SimpleStyle(Get(attrs, "style")) then None
    else
      Some(Entry("src", patch.src) + Entry("alt", patch.alt) + Entry("width", sizes.width) + Entry("height", sizes.height) +
           Entry("class", ClassFor(attrs, patch)) + Entry("style", StyleFor(attrs, sizes)))
  }

  /** What a reader should see after the patch. */
  function PatchedProperties(e: Editor, before: Properties, patch: ImagePatch): Properties {
    var sizes := SizesFor(e, patch);
    Properties(
      if patch.src.Some? then patch.src.value else before.src,
      if patch.alt.Some? then patch.alt.value else before.alt,
      if sizes.width.Some? then Shown(sizes.width.value) else before.width,
      if sizes.height.Some? then Shown(sizes.height.value) else before.height,
      if patch.align.Some? then patch.align.value else before.align,
      if patch.styles.Some? then Canonical(patch.styles.value) else before.styles)
  }

  lemma {:induction false} EntryAppend(values: Values, name: string, value: Option<string>, other: string)
    requires PlainValues(values) && PlainName(name) && !Names(values, name)
    ensures PlainValues(values + Entry(name, value))
    ensures Names(values + Entry(name, value), other) <==> Names(values, other) || (other == name && value.Some?)
    ensures Names(values + Entry(name, value), other) ==>
              Lookup(values + Entry(name, value), other) ==
              if other == name && value.Some? then value.value else Lookup(values, other)
  {
    if value.None? {
      assert values + Entry(name, value) == values;
    } else {
      var more := values + [(name, value.value)];
      assert more[..|values|] == values && more[|values|] == (name, value.value);
      assert forall v <- more :: v in values || v == (name, value.value);
      assert forall i :: 0 <= i < |values| ==> more[i] == values[i] && values[i] in values;
    }
  }

  lemma EntryNames()
    ensures PlainName("src") && PlainName("alt") && PlainName("width") && PlainName("height") && PlainName("class") && PlainName("style")
  {
  }

  lemma NoValues()
    ensures PlainValues([]) && forall name :: !Names([], name)
  {
  }

  /** Six optional entries with different names. */
  lemma SixEntries(src: Option<string>, alt: Option<string>, width: Option<string>, height: Option<string>,
                   classes: Option<string>, style: Option<string>, name: string)
    ensures var values := Entry("src", src) + Entry("alt", alt) + Entry("width", width) + Entry("height", height) +
                          Entry("class", classes) + Entry("style", style);
            var own := if name == "src" then src else if name == "alt" then alt else if name == "width" then width
                       else if name == "height" then height else if name == "class" then classes
                       else if name == "style" then style else None;
            PlainValues(values) && (Names(values, name) <==> own.Some?) && (own.Some? ==> Lookup(values, name) == own.value)
  {
    hide PlainName, PlainValues, Names, Lookup, Entry;
    EntryNames();
    NoValues();
    var v1 := [] + Entry("src", src);
    var v2 := v1 + Entry("alt", alt);
    var v3 := v2 + Entry("width", width);
    var v4 := v3 + Entry("height", height);
    var v5 := v4 + Entry("class", classes);
    NamesAfter([], "src", src, name, "alt", "width", "height", "class", "style");
    NamesAfter(v1, "alt", alt, name, "width", "height", "class", "style", "style");
    NamesAfter(v2, "width", width, name, "height", "class", "style", "style", "style");
    NamesAfter(v3, "height", height, name, "class", "style", "style", "style", "style");
    NamesAfter(v4, "class", classes, name, "style", "style", "style", "style", "style");
    NamesAfter(v5, "style", style, name, "style", "style", "style", "style", "style");
    assert v1 == Entry("src", src);
  }

  lemma NamesAfter(values: Values, name: string, value: Option<string>, other: string,
                   a: string, b: string, c: string, d: string, f: string)
    requires PlainValues(values) && PlainName(name) && !Names(values, name)
    ensures var more := values + Entry(name, value);
            PlainValues(more) &&
            (Names(more, other) <==> Names(values, other) || (other == name && value.Some?)) &&
            (Names(more, other) ==> Lookup(more, other) == if other == name && value.Some? then value.value else Lookup(values, other)) &&
            (forall x <- [a, b, c, d, f] :: x != name ==> Names(more, x) == Names(values, x))
  {
    hide PlainName, PlainValues, Names, Lookup, Entry;
    EntryAppend(values, name, value, other);
    forall x | x in [a, b, c, d, f] && x != name ensures Names(values + Entry(name, value), x) == Names(values, x) {
      EntryAppend(values, name, value, x);
    }
  }

  // ----- the properties after a patch

  /** The attributes that PatchReadsBack finds. */
  function AttrsAfter(parts: seq<Part>, values: Values): seq<Attr> {
    Expected(parts, values, {}) + AddedAttrs(Added(parts, values))
  }

  lemma {:induction false} GetOthers(attrs: seq<Attr>, values: Values, name: string)
    requires !Names(values, name)
    ensures Get(Others(attrs, values), name) == Get(attrs, name)
  {
    hide Names;
    if attrs != [] {
      GetOthers(attrs[1..], values, name);
      GetOwn(if Names(values, attrs[0].name) then [] else [attrs[0]], Others(attrs[1..], values), name);
    }
  }

  lemma GetAfter(parts: seq<Part>, values: Values, name: string)
    requires PlainValues(values)
    ensures Get(AttrsAfter(parts, values), name) ==
            if Names(values, name) then Lookup(values, name) else Get(Stripped(parts), name)
  {
    hide PlainValues, Names, Lookup, Get, Expected, Added, AddedAttrs, Others;
    PutGet(parts, values, name);
    if !Names(values, name) {
      GetOthers(AttrsAfter(parts, values), values, name);
      GetOthers(Stripped(parts), values, name);
    }
  }

  /** Each attribute after a patch. */
  lemma ValueAfter(e: Editor, parts: seq<Part>, patch: ImagePatch, name: string)
    requires PatchValues(e, Stripped(parts), patch).Some?
    ensures var attrs := Stripped(parts);
            var values := PatchValues(e, attrs, patch).value;
            var sizes := SizesFor(e, patch);
            var own := if name == "src" then patch.src else if name == "alt" then patch.alt else if name == "width" then sizes.width
                       else if name == "height" then sizes.height else if name == "class" then ClassFor(attrs, patch)
                       else if name == "style" then StyleFor(attrs, sizes) else None;
            PlainValues(values) &&
            Get(AttrsAfter(parts, values), name) == match own case Some(v) => v case None => Get(attrs, name)
  {
    hide PlainValues, Names, Lookup, Get, AttrsAfter, Stripped, Entry, ClassFor, StyleFor, SizesFor, SimpleStyle;
    var attrs, sizes := Stripped(parts), SizesFor(e, patch);
    SixEntries(patch.src, patch.alt, sizes.width, sizes.height, ClassFor(attrs, patch), StyleFor(attrs, sizes), name);
    GetAfter(parts, PatchValues(e, attrs, patch).value, name);
  }

  lemma SizesArePlain(e: Editor, patch: ImagePatch)
    requires GoodEditor(e)
    ensures PlainSizes(SizesFor(e, patch))
  {
    hide PlainDimension, Shown, NormalizeDimension, GoodPercent;
    if patch.width.Some? && NormalizeDimension(e.percent, patch.width.value).Some? { NormalizedIsPlain(e.percent, patch.width.value); }
    if patch.height.Some? && NormalizeDimension(e.percent, patch.height.value).Some? { NormalizedIsPlain(e.percent, patch.height.value); }
  }

  lemma DimensionAfter(e: Editor, parts: seq<Part>, patch: ImagePatch, name: string)
    requires GoodEditor(e) && PatchValues(e, Stripped(parts), patch).Some? && (name == "width" || name == "height")
    ensures var attrs := Stripped(parts);
            DimensionOf(AttrsAfter(parts, PatchValues(e, attrs, patch).value), name) ==
            match SizeOf(SizesFor(e, patch), name) case Some(d) => Shown(d) case None => DimensionOf(attrs, name)
  {
    hide PlainValues, Get, AttrsAfter, Stripped, Entry, ClassFor, SizesFor, SimpleStyle, StyleDimension, NewDeclarations, Split, GoodEditor,
         PlainSizes, ReadProperties;
    var attrs, sizes := Stripped(parts), SizesFor(e, patch);
    var style := Get(attrs, "style");
    ValueAfter(e, parts, patch, "style");
    ValueAfter(e, parts, patch, name);
    SizesArePlain(e, patch);
    EmptyShown();
    if sizes.width.Some? || sizes.height.Some? {
      StyleReadsBack(style, sizes, name);
      EmptySplit(name);
    }
  }

  lemma EmptyShown()
    ensures Shown("") == ""
  {
  }

  /** After a patch each patched property shows what was put, and every other one what it showed before. */
  lemma PropertiesAfter(e: Editor, parts: seq<Part>, patch: ImagePatch)
    requires GoodEditor(e) && Validate(e, patch) && PatchValues(e, Stripped(parts), patch).Some?
    ensures var attrs := Stripped(parts);
            ReadProperties(AttrsAfter(parts, PatchValues(e, attrs, patch).value)) ==
            PatchedProperties(e, ReadProperties(attrs), patch)
  {
    hide PlainValues, Get, AttrsAfter, Stripped, SizesFor, SimpleStyle, StyleFor, GoodEditor, MergeClasses, SplitSpaces, AlignOf, StylesOf,
         Canonical, DimensionOf, PatchValues, Shown, GoodAlign;
    var attrs := Stripped(parts);
    ValueAfter(e, parts, patch, "src");
    ValueAfter(e, parts, patch, "alt");
    ValueAfter(e, parts, patch, "class");
    DimensionAfter(e, parts, patch, "width");
    DimensionAfter(e, parts, patch, "height");
    MergeReadsBack(Get(attrs, "class"), patch);
  }
}

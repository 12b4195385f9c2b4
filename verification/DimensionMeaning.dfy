/**
  Image dimensions and style declarations, told by their characters: which inputs are
  dimensions, what a declaration declares, and which declarations an edit keeps.
*/
module DimensionMeaning {
  import opened Basics
  import opened WhiteSpace
  import opened TextSplit
  import opened Decimal
  import opened Numerals
  import opened AttributeText
  import opened ImageAttributes
  import opened ImageReadBack
  import opened Percentages
  import opened ImageProperties
  import opened SourceImage
  import opened ImageEditing
  import opened LineEntries

  // ----- dimensions

  predicate Digits(s: string) {
    forall c <- s :: '0' <= c <= '9'
  }

  /** Digits, or digits, a point and digits, where those in front may be missing. */
  ghost predicate DecimalShape(s: string) {
    (s != "" && Digits(s)) || exists a, b :: s == a + "." + b && Digits(a) && Digits(b) && b != ""
  }

  lemma DigitsRun(a: string, b: string)
    requires Digits(a) && (b == "" || !('0' <= b[0] <= '9'))
    ensures Run(a + b, IsDigit) == |a|
  {
    RunOf(a, b, IsDigit);
  }

  lemma RunDigits(s: string)
    ensures var n := Run(s, IsDigit); Digits(s[..n]) && s == s[..n] + s[n..]
  {
    var n := Run(s, IsDigit);
    forall i | 0 <= i < n ensures '0' <= s[..n][i] <= '9' { assert s[..n][i] == s[i]; }
  }

  lemma PointSplits(a: string, b: string)
    requires Digits(a) && Digits(b) && b != ""
    ensures IsDecimal(a + "." + b)
  {
    hide Digits, Run;
    var s := a + "." + b;
    assert s == a + ("." + b);
    DigitsRun(a, "." + b);
    assert s[|a| + 1..] == b && b + "" == b;
    DigitsRun(b, "");
  }

  lemma DecimalIsShape(s: string)
    requires IsDecimal(s)
    ensures DecimalShape(s)
  {
    hide Digits, Run;
    var n := Run(s, IsDigit);
    RunDigits(s);
    if n == |s| {
      assert s[..n] == s;
    } else {
      var b := s[n + 1..];
      RunDigits(b);
      assert b[..|b|] == b && s == s[..n] + "." + b;
    }
  }

  lemma DecimalExactly(s: string)
    ensures IsDecimal(s) <==> DecimalShape(s)
  {
    hide Digits, IsDecimal;
    if IsDecimal(s) { DecimalIsShape(s); }
    if s != "" && Digits(s) {
      DigitsRun(s, "");
      assert s + "" == s;
      WholeIsDecimal(s);
    } else if a, b :| s == a + "." + b && Digits(a) && Digits(b) && b != "" {
      PointSplits(a, b);
    }
  }

  lemma WholeIsDecimal(s: string)
    requires s != "" && Run(s, IsDigit) == |s|
    ensures IsDecimal(s)
  {
  }

  lemma PixelCore(digits: string, n: nat)
    requires 1 <= n && Numeral(digits, n)
    ensures WithoutPx(digits) == digits && WithoutPx(digits + "px") == digits && AreDigits(digits) && digits[0] != '0'
    ensures digits != "auto" && digits + "px" != "auto"
  {
    assert IsDigit(digits[|digits| - 1]) && IsDigit(digits[0]);
    assert (digits + "px")[|digits|..] == "px";
    assert digits[..0] == "";
    if |digits| == 1 { assert NumberOf(digits) == digits[0] as int - '0' as int; }
    assert (digits + "px")[0] == digits[0];
  }

  lemma DigitsAreNumeral(digits: string)
    requires AreDigits(digits) && digits[0] != '0'
    ensures Numeral(digits, NumberOf(digits)) && NumberOf(digits) >= 1 && digits == ToDigits(NumberOf(digits))
  {
    if NumberOf(digits) == 0 { NumeralSize(digits, 0); }
    ToDigitsIsNumeral(NumberOf(digits));
    NumeralIsUnique(digits, ToDigits(NumberOf(digits)), NumberOf(digits));
  }

  lemma PercentCore(literal: string)
    requires IsDecimal(literal)
    ensures var core := literal + "%";
            core != "" && core != "auto" && core[|core| - 1] == '%' && core[..|core| - 1] == literal && WithoutPx(core) == core &&
            !AreDigits(core)
  {
    var core := literal + "%";
    assert core[|core| - 1] in core;
    if |core| >= 2 { assert core[|core| - 2..][1] == '%'; }
  }

  ghost predicate IsPixels(core: string, d: string, n: nat) {
    1 <= n <= 16384 && Numeral(d, n) && (core == d || core == d + "px")
  }

  ghost predicate IsPercentage(percent: Percent, core: string, d: string, literal: string) {
    core == literal + "%" && IsDecimal(literal) && var size := percent.round(Value(literal));
    0.0 < size <= 100.0 && d == percent.show(size) + "%"
  }

  /** The trimmed input is empty or `auto`, a pixel count up to 16384, or a percentage above nothing and up to 100. */
  ghost predicate DimensionShape(percent: Percent, core: string, d: string) {
    ((core == "" || core == "auto") && d == core) ||
    (exists n: nat :: IsPixels(core, d, n)) ||
    exists literal :: IsPercentage(percent, core, d, literal)
  }

  lemma PixelsAccepted(percent: Percent, input: string, d: string, n: nat)
    requires IsPixels(Trim(input), d, n)
    ensures NormalizeDimension(percent, input) == Some(d)
  {
    hide Trim, IsDecimal, Numeral, NumberOf, ToDigits;
    PixelCore(d, n);
    NumeralNumber(d, n);
    DigitsAreNumeral(d);
  }

  lemma PercentageAccepted(percent: Percent, input: string, d: string, literal: string)
    requires IsPercentage(percent, Trim(input), d, literal)
    ensures NormalizeDimension(percent, input) == Some(d)
  {
    hide Trim, IsDecimal, NumberOf, ToDigits, Value, WithoutPx, AreDigits;
    PercentCore(literal);
  }

  lemma EmptyAccepted(percent: Percent, input: string)
    requires Trim(input) == "" || Trim(input) == "auto"
    ensures NormalizeDimension(percent, input) == Some(Trim(input))
  {
    hide Trim, IsDecimal, NumberOf, ToDigits, Value, WithoutPx, AreDigits;
  }

  /** A dimension is accepted, and as what, exactly by the shape of its trimmed input. */
  lemma DimensionExactly(percent: Percent, input: string, d: string)
    ensures NormalizeDimension(percent, input) == Some(d) <==> DimensionShape(percent, Trim(input), d)
  {
    hide NormalizeDimension, Trim, IsPixels, IsPercentage;
    var core := Trim(input);
    if NormalizeDimension(percent, input) == Some(d) { AcceptedHasShape(percent, input, d); }
    if core == "" || core == "auto" { EmptyAccepted(percent, input); }
    if n: nat :| IsPixels(core, d, n) { PixelsAccepted(percent, input, d, n); }
    if literal :| IsPercentage(percent, core, d, literal) { PercentageAccepted(percent, input, d, literal); }
  }

  lemma NumeralNumber(d: string, n: nat)
    requires Numeral(d, n)
    ensures AreDigits(d) && NumberOf(d) == n
  {
  }

  lemma AcceptedPixels(percent: Percent, core: string, d: string)
    requires AreDigits(WithoutPx(core)) && WithoutPx(core)[0] != '0'
    requires NumberOf(WithoutPx(core)) <= 16384 && d == ToDigits(NumberOf(WithoutPx(core)))
    ensures IsPixels(core, d, NumberOf(WithoutPx(core)))
  {
    hide Numeral, NumberOf, ToDigits, AreDigits;
    var digits := WithoutPx(core);
    DigitsAreNumeral(digits);
    assert core == digits || core == digits + "px";
  }

  lemma AcceptedHasShape(percent: Percent, input: string, d: string)
    requires NormalizeDimension(percent, input) == Some(d)
    ensures DimensionShape(percent, Trim(input), d)
  {
    hide Trim, IsDecimal, NumberOf, ToDigits, Value, WithoutPx, IsPixels;
    var core := Trim(input);
    if !(core == "" || core == "auto") {
      if AreDigits(WithoutPx(core)) && WithoutPx(core)[0] != '0' {
        AcceptedPixels(percent, core, d);
      } else {
        var literal := core[..|core| - 1];
        assert core == literal + "%";
        assert IsPercentage(percent, core, d, literal);
      }
    }
  }

  // ----- declarations

  lemma {:induction false} LowerLength(s: string)
    ensures |Lower(s)| == |s|
  {
    if s != "" { LowerLength(s[1..]); }
  }

  /** White space, the name in any case, white space and a colon. */
  ghost predicate DeclarationShape(d: string, name: string, rest: string) {
    exists before, n, between ::
      d == before + n + between + ":" + rest && Blank(before) && Blank(between) && Lower(n) == name
  }

  lemma NamedExactly(t: string, name: string)
    requires t != "" ==> !IsSpace(t[0])
    ensures NamedBy(t, name) <==> exists n, between, rest :: t == n + between + ":" + rest && Blank(between) && Lower(n) == name
    ensures NamedBy(t, name) ==> Lower(t[..|name|]) == name
  {
    hide IsSpace, Blank, Lower;
    if NamedBy(t, name) {
      var n, tail := t[..|name|], t[|name|..];
      var between := TrimStartSplit(tail);
      var rest := TrimStart(tail)[1..];
      assert TrimStart(tail) == ":" + rest;
      assert t == n + tail && tail == between + (":" + rest);
      assert t == n + between + ":" + rest;
    }
    if n, between, rest :| t == n + between + ":" + rest && Blank(between) && Lower(n) == name {
      LowerLength(n);
      assert t == n + (between + (":" + rest));
      assert t[..|name|] == n && t[|name|..] == between + (":" + rest);
      ColonIsNoSpace();
      TrimStartOf(between, ":" + rest);
    }
  }

  lemma ColonIsNoSpace()
    ensures !IsSpace(':')
  {
  }

  // ----- the value of a declaration

  predicate Ends(s: string) {
    s != "" && !IsSpace(s[0]) && !IsSpace(s[|s| - 1])
  }

  predicate Mark(s: string) {
    |s| == 10 && Lower(s) == "!important"
  }

  lemma MarkEnds(mark: string)
    requires Mark(mark)
    ensures Ends(mark)
  {
    var n := |mark| - 1;
    LowerAt(mark, 0);
    LowerAt(mark, 9);
  }

  lemma {:induction false} LowerAt(s: string, i: nat)
    requires i < |s|
    ensures |Lower(s)| == |s| && Lower(s)[i] == LowerChar(s[i])
  {
    LowerLength(s);
    if i > 0 { LowerAt(s[1..], i - 1); }
  }

  /** Lower-casing moves the 26 ASCII capitals, by their code points, and nothing else. */
  lemma {:induction false} LowerExactly(s: string, t: string)
    ensures Lower(s) == t <==>
              |s| == |t| && forall i :: 0 <= i < |s| ==>
                if 0x41 <= s[i] as int <= 0x5A then t[i] as int == s[i] as int + 0x20 else t[i] == s[i]
  {
    LowerLength(s);
    forall i | 0 <= i < |s| ensures Lower(s)[i] == LowerChar(s[i]) { LowerAt(s, i); }
  }

  /** A value with a mark behind it is the value. */
  lemma MarkedValue(before: string, x: string, between: string, mark: string, after: string)
    requires Blank(before) && Blank(between) && Blank(after) && Ends(x) && Mark(mark)
    ensures DeclaredValue(before + x + between + mark + after) == Some(x)
  {
    hide IsSpace, Blank, Lower;
    MarkEnds(mark);
    var u := before + x + between + mark;
    TrimEndOf(u, after);
    assert u[|u| - 1] == mark[9];
    assert u[|u| - 10..] == mark && u[..|u| - 10] == before + x + between;
    TrimOf(before, x, between);
  }

  /** A value without a mark behind something else is the whole of it. */
  lemma UnmarkedValue(before: string, x: string, after: string)
    requires Blank(before) && Blank(after) && Ends(x)
    requires |x| > 10 && Mark(x[|x| - 10..]) ==> Blank(x[..|x| - 10])
    ensures DeclaredValue(before + x + after) == Some(x)
  {
    hide IsSpace, Lower;
    var u, v := before + x, before + x + after;
    TrimEndOf(u, after);
    TrimOf(before, x, after);
    assert u[|u| - 1] == x[|x| - 1];
    if |u| >= 10 && Lower(u[|u| - 10..]) == "!important" {
      UnmarkedFront(before, x);
    } else {
      assert u + "" == u;
      TrimOf(before, x, "");
    }
  }

  lemma FirstIsBlank(s: string, k: nat)
    requires 0 < k <= |s| && Blank(s[..k])
    ensures IsSpace(s[0])
  {
    assert s[..k][0] == s[0] && s[..k][0] in s[..k];
  }

  lemma BlankAt(s: string, k: nat)
    requires k < |s| && Blank(s)
    ensures IsSpace(s[k])
  {
    assert s[k] in s;
  }

  /** A mark at the end of a value that has no mark behind something else is the whole value. */
  lemma MarkIsAll(before: string, x: string)
    requires Blank(before) && Ends(x)
    requires |x| > 10 && Mark(x[|x| - 10..]) ==> Blank(x[..|x| - 10])
    requires |before + x| >= 10 && Mark((before + x)[|before + x| - 10..])
    ensures |x| == 10
  {
    hide IsSpace, Lower, Blank, Mark;
    var u := before + x;
    MarkEnds(u[|u| - 10..]);
    if |x| > 10 {
      assert u[|u| - 10..] == x[|x| - 10..];
      FirstIsBlank(x, |x| - 10);
    } else if |x| < 10 {
      BlankAt(before, |u| - 10);
    }
  }

  lemma UnmarkedFront(before: string, x: string)
    requires Blank(before) && Ends(x)
    requires |x| > 10 && Mark(x[|x| - 10..]) ==> Blank(x[..|x| - 10])
    requires |before + x| >= 10 && Mark((before + x)[|before + x| - 10..])
    ensures Trim((before + x)[..|before + x| - 10]) == ""
  {
    hide IsSpace, Lower, Mark, Blank, Ends;
    MarkIsAll(before, x);
    assert (before + x)[..|before + x| - 10] == before;
    BlankTrims(before);
  }

  lemma BlankTrims(s: string)
    requires Blank(s)
    ensures Trim(s) == ""
  {
    hide IsSpace, Blank;
    TrimStartOf(s, "");
    assert s + "" == s;
  }

  /** Nothing but white space behind the colon is an empty value; nothing at all is none. */
  lemma BlankValue(v: string)
    requires Blank(v)
    ensures DeclaredValue(v) == if v == "" then None else Some("")
  {
    hide IsSpace, Lower;
    BlankTrims(v);
    TrimEndOf("", v);
    assert "" + v == v;
  }

  /** The first of two names is declared by exactly the texts of this shape; what is behind the colon is the rest. */
  lemma DeclaredExactly(d: string, name: string, rest: string)
    requires name == "width" || name == "height"
    ensures DeclaredName(d) == Some(name) && BehindColon(d) == rest <==> DeclarationShape(d, name, rest)
  {
    hide IsSpace, Blank, Lower;
    var before := TrimStartSplit(d);
    var t := TrimStart(d);
    NamedExactly(t, "width");
    NamedExactly(t, "height");
    if DeclaredName(d) == Some(name) && BehindColon(d) == rest { DeclaredHasShape(d, before, name); }
    if DeclarationShape(d, name, rest) { ShapeIsDeclared(d, name, rest); }
  }

  lemma FivePieces(a: string, b: string, c: string, d: string, e: string)
    ensures a + (b + (c + (d + e))) == a + b + c + d + e
  {
    ConcatAssoc(c, d, e);
    ConcatAssoc(b, c + d, e);
    ConcatAssoc(b, c, d);
  }

  lemma DeclaredHasShape(d: string, before: string, name: string)
    requires name == "width" || name == "height"
    requires d == before + TrimStart(d) && Blank(before) && DeclaredName(d) == Some(name)
    ensures DeclarationShape(d, name, BehindColon(d))
  {
    hide IsSpace, Blank, Lower, TrimStart;
    var t := TrimStart(d);
    var n, tail, rest := t[..|name|], t[|name|..], BehindColon(d);
    var between := TrimStartSplit(tail);
    assert TrimStart(tail) == ":" + rest;
    assert t == n + tail;
    FivePieces(before, n, between, ":", rest);
  }

  lemma NamesDiffer(n: string, m: string)
    ensures !(Lower(n) == "width" && Lower(m) == "height" && n <= m)
  {
    LowerLength(n);
    LowerLength(m);
    if Lower(n) == "width" && Lower(m) == "height" && n <= m {
      LowerAt(n, 0);
      LowerAt(m, 0);
    }
  }

  lemma ShapeIsDeclared(d: string, name: string, rest: string)
    requires (name == "width" || name == "height") && DeclarationShape(d, name, rest)
    ensures DeclaredName(d) == Some(name) && BehindColon(d) == rest
  {
    hide IsSpace, Blank, Lower;
    var before, n, between :| d == before + n + between + ":" + rest && Blank(before) && Blank(between) && Lower(n) == name;
    var t := n + (between + (":" + rest));
    LowerLength(n);
    NameStartsPlain(n);
    assert d == before + t && t[0] == n[0];
    TrimStartOf(before, t);
    assert t[..|name|] == n && t[|name|..] == between + (":" + rest);
    ColonIsNoSpace();
    TrimStartOf(between, ":" + rest);
    if name == "height" { NamesDiffer(t[..5], n); }
  }

  lemma NameStartsPlain(n: string)
    requires Lower(n) == "width" || Lower(n) == "height"
    ensures n != "" && !IsSpace(n[0])
  {
    LowerAt(n, 0);
  }

  /** Declaration `d` gives dimension `name` the value `v`. */
  ghost predicate Declares(d: string, name: string, v: string) {
    exists rest :: DeclarationShape(d, name, rest) && DeclaredValue(rest) == Some(v)
  }

  lemma MatchExactly(d: string, name: string, v: string)
    requires name == "width" || name == "height"
    ensures MatchDeclaration(d, name) == Some(v) <==> Declares(d, name, v)
  {
    hide DeclaredName, DeclaredValue, DeclarationShape, BehindColon;
    forall rest ensures DeclaredName(d) == Some(name) && BehindColon(d) == rest <==> DeclarationShape(d, name, rest) {
      DeclaredExactly(d, name, rest);
    }
  }

  /** Declaration `k` gives the value, and no later one gives any. */
  ghost predicate DeclaresLast(declarations: seq<string>, name: string, v: string, k: nat) {
    k < |declarations| && Declares(declarations[k], name, v) && Silent(declarations[k + 1..], name)
  }

  ghost predicate Silent(declarations: seq<string>, name: string) {
    forall d, w :: d in declarations ==> !Declares(d, name, w)
  }

  /** The last declaration with a value counts. */
  ghost predicate LastDeclares(declarations: seq<string>, name: string, v: string) {
    exists k: nat :: DeclaresLast(declarations, name, v, k)
  }

  lemma SilentStep(init: seq<string>, last: string, name: string)
    ensures Silent(init + [last], name) <==> Silent(init, name) && forall w :: !Declares(last, name, w)
  {
    hide Declares;
    assert last in init + [last];
    assert forall d <- init :: d in init + [last];
  }

  lemma LastStep(init: seq<string>, last: string, name: string, v: string)
    ensures LastDeclares(init + [last], name, v) <==>
              Declares(last, name, v) || (LastDeclares(init, name, v) && forall w :: !Declares(last, name, w))
  {
    hide Declares, Silent;
    var all := init + [last];
    forall k: nat | k < |init|
      ensures DeclaresLast(all, name, v, k) <==> DeclaresLast(init, name, v, k) && forall w :: !Declares(last, name, w)
    {
      assert all[k + 1..] == init[k + 1..] + [last];
      SilentStep(init[k + 1..], last, name);
    }
    assert DeclaresLast(all, name, v, |init|) <==> Declares(last, name, v) by {
      assert all[|init| + 1..] == [];
      NothingIsSilent(name);
    }
  }

  lemma NothingIsSilent(name: string)
    ensures Silent([], name)
  {
  }

  lemma {:induction false} StyleExactly(declarations: seq<string>, name: string, v: string)
    requires name == "width" || name == "height"
    ensures StyleDimension(declarations, name) == Some(v) <==> LastDeclares(declarations, name, v)
  {
    if declarations != [] {
      hide MatchDeclaration, Declares, LastDeclares;
      var init, last := declarations[..|declarations| - 1], declarations[|declarations| - 1];
      assert declarations == init + [last];
      StyleExactly(init, name, v);
      LastStep(init, last, name, v);
      forall w ensures MatchDeclaration(last, name) == Some(w) <==> Declares(last, name, w) { MatchExactly(last, name, w); }
    }
  }

  /** The shown width or height: the last one a simple style declares, and the attribute's where it declares none. */
  lemma DimensionShown(attrs: seq<Attr>, name: string)
    requires name == "width" || name == "height"
    ensures var style, d := Get(attrs, "style"), DimensionOf(attrs, name);
            (SimpleStyle(style) && LastDeclares(Split(style, ';'), name, d)) ||
            ((SimpleStyle(style) ==> forall v :: !LastDeclares(Split(style, ';'), name, v)) && d == Get(attrs, name))
    ensures ReadProperties(attrs).width == DimensionOf(attrs, "width") && ReadProperties(attrs).height == DimensionOf(attrs, "height")
  {
    hide StyleDimension, LastDeclares, SplitSpaces, AlignOf, StylesOf, SimpleStyle, Split;
    forall v ensures StyleDimension(Split(Get(attrs, "style"), ';'), name) == Some(v) <==>
                       LastDeclares(Split(Get(attrs, "style"), ';'), name, v)
    {
      StyleExactly(Split(Get(attrs, "style"), ';'), name, v);
    }
  }

  // ----- what an edit keeps of a style

  /** A declaration of a dimension that the edit sets. */
  ghost predicate SetAnew(d: string, sizes: Sizes) {
    (sizes.width.Some? && exists rest :: DeclarationShape(d, "width", rest)) ||
    (sizes.height.Some? && exists rest :: DeclarationShape(d, "height", rest))
  }

  ghost function Keeping(declarations: seq<string>, sizes: Sizes): seq<string> {
    if declarations == [] then []
    else
      Keeping(declarations[..|declarations| - 1], sizes) +
      var d := declarations[|declarations| - 1];
      if d != "" && !SetAnew(d, sizes) then [d] else []
  }

  lemma DroppedExactly(d: string, sizes: Sizes)
    ensures Dropped(d, sizes) <==> SetAnew(d, sizes)
  {
    hide DeclarationShape, DeclaredName, BehindColon;
    OnlyTwoNames(d);
    if DeclaredName(d).Some? { DeclaredExactly(d, DeclaredName(d).value, BehindColon(d)); }
    if rest :| DeclarationShape(d, "width", rest) { DeclaredExactly(d, "width", rest); }
    if rest :| DeclarationShape(d, "height", rest) { DeclaredExactly(d, "height", rest); }
  }

  lemma OnlyTwoNames(d: string)
    ensures DeclaredName(d).Some? ==> DeclaredName(d).value == "width" || DeclaredName(d).value == "height"
  {
    hide NamedBy;
  }

  lemma {:induction false} NotEmptyConcat(a: seq<string>, b: seq<string>)
    ensures NotEmpty(a + b) == NotEmpty(a) + NotEmpty(b)
  {
    if b == [] {
      assert a + b == a;
    } else {
      NotEmptyConcat(a, b[..|b| - 1]);
      assert (a + b)[..|a + b| - 1] == a + b[..|b| - 1];
    }
  }

  lemma {:induction false} KeptExactly(declarations: seq<string>, sizes: Sizes)
    ensures NotEmpty(KeptDeclarations(declarations, sizes)) == Keeping(declarations, sizes)
  {
    hide Dropped, SetAnew;
    if declarations != [] {
      var init, last := declarations[..|declarations| - 1], declarations[|declarations| - 1];
      KeptExactly(init, sizes);
      DroppedExactly(last, sizes);
      NotEmptyConcat(KeptDeclarations(init, sizes), if Dropped(last, sizes) then [] else [last]);
      assert [last][..0] == [];
    }
  }

  /** `name:value`, where a bare number counts pixels. */
  function Written(name: string, size: Option<string>): seq<string> {
    if size.None? || size.value == "" then []
    else [name + ":" + size.value + if Digits(size.value) then "px" else ""]
  }

  lemma WrittenNotEmpty(name: string, size: Option<string>)
    ensures NotEmpty(NewDeclaration(name, size)) == Written(name, size)
  {
    if size.Some? && size.value != "" {
      var d := size.value;
      assert AreDigits(d) <==> Digits(d);
      assert name + ":" + (d + "px") == name + ":" + d + "px" && name + ":" + d + "" == name + ":" + d;
      assert [name + ":" + Shown(d)][..0] == [];
    }
  }

  /** The new style: every other declaration, in its sequence, and the dimensions the edit sets. */
  lemma DeclarationsExactly(style: string, sizes: Sizes)
    ensures NewDeclarations(style, sizes) ==
            Keeping(Split(style, ';'), sizes) + Written("width", sizes.width) + Written("height", sizes.height)
  {
    hide KeptDeclarations, NewDeclaration, NotEmpty, Keeping, Split, Written;
    KeptExactly(Split(style, ';'), sizes);
    WrittenNotEmpty("width", sizes.width);
    WrittenNotEmpty("height", sizes.height);
    NotEmptyConcat(NewDeclaration("width", sizes.width), NewDeclaration("height", sizes.height));
    NotEmptyConcat(KeptDeclarations(Split(style, ';'), sizes), NewDeclaration("width", sizes.width) + NewDeclaration("height", sizes.height));
  }

  // ----- which edits are refused

  ghost predicate IsDimension(percent: Percent, input: string) {
    exists d :: DimensionShape(percent, Trim(input), d)
  }

  /**
    An edit is carried out exactly when its address is safe, its description is short and free of control characters,
    its dimensions and alignment are ones the editor knows, and a style it has to change is simple.
  */
  lemma EditsExactly(e: Editor, image: Image, patch: ImagePatch)
    ensures PatchHtmlImage(e, image, patch).Some? <==>
              (patch.src.Some? ==> patch.src.value != "" && e.safeSource(patch.src.value)) &&
              (patch.alt.Some? ==>
                 |patch.alt.value| <= 2000 && forall c <- patch.alt.value :: c as int >= 0x20 && c as int != 0x7F) &&
              (patch.width.Some? ==> IsDimension(e.percent, patch.width.value)) &&
              (patch.height.Some? ==> IsDimension(e.percent, patch.height.value)) &&
              (patch.align.Some? ==> patch.align.value in {"", "left", "center", "right", "abstopright"}) &&
              (patch.width.Some? || patch.height.Some? ==>
                 forall c <- Get(Stripped(image.parts), "style") :: c !in "()'\"\\")
  {
    hide Validate, PatchValues, IsDimension, Get, Stripped, NormalizeDimension;
    ValidExactly(e, patch);
    if Validate(e, patch) { OpaqueExactly(e, Stripped(image.parts), patch); }
  }

  lemma ValidExactly(e: Editor, patch: ImagePatch)
    ensures Validate(e, patch) <==>
              (patch.src.Some? ==> patch.src.value != "" && e.safeSource(patch.src.value)) &&
              (patch.alt.Some? ==>
                 |patch.alt.value| <= 2000 && forall c <- patch.alt.value :: c as int >= 0x20 && c as int != 0x7F) &&
              (patch.width.Some? ==> IsDimension(e.percent, patch.width.value)) &&
              (patch.height.Some? ==> IsDimension(e.percent, patch.height.value)) &&
              (patch.align.Some? ==> patch.align.value in {"", "left", "center", "right", "abstopright"})
    ensures Validate(e, patch) ==>
              (patch.width.Some? ==> NormalizeDimension(e.percent, patch.width.value).Some?) &&
              (patch.height.Some? ==> NormalizeDimension(e.percent, patch.height.value).Some?)
  {
    hide NormalizeDimension, IsDimension;
    if patch.width.Some? { KnownDimension(e.percent, patch.width.value); }
    if patch.height.Some? { KnownDimension(e.percent, patch.height.value); }
  }

  lemma OpaqueExactly(e: Editor, attrs: seq<Attr>, patch: ImagePatch)
    requires patch.width.Some? ==> NormalizeDimension(e.percent, patch.width.value).Some?
    requires patch.height.Some? ==> NormalizeDimension(e.percent, patch.height.value).Some?
    ensures PatchValues(e, attrs, patch).Some? <==>
              (patch.width.Some? || patch.height.Some? ==> forall c <- Get(attrs, "style") :: c !in "()'\"\\")
  {
    hide NormalizeDimension, Entry, ClassFor, StyleFor, Get;
  }

  lemma KnownDimension(percent: Percent, input: string)
    ensures IsDimension(percent, input) <==> NormalizeDimension(percent, input).Some?
  {
    hide NormalizeDimension, DimensionShape, Trim;
    forall d ensures NormalizeDimension(percent, input) == Some(d) <==> DimensionShape(percent, Trim(input), d) {
      DimensionExactly(percent, input, d);
    }
    if NormalizeDimension(percent, input).Some? {
      assert NormalizeDimension(percent, input) == Some(NormalizeDimension(percent, input).value);
    }
  }
}

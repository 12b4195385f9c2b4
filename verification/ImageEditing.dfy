/** Editing an HTML image in a document, and writing a new one. */
module ImageEditing {
  import opened Basics
  import opened WhiteSpace
  import opened AttributeText
  import opened ImageAttributes
  import opened ImageLens
  import opened ImageReadBack
  import opened ImageProperties
  import opened Percentages
  import opened SourceImage

  /** The new text of an image; None where the patch is invalid or the style is opaque. */
  function PatchHtmlImage(e: Editor, image: Image, patch: ImagePatch): Option<string> {
    if !Validate(e, patch) then None
    else
      match PatchValues(e, Stripped(image.parts), patch)
      case None => None
      case Some(values) => Some(Patched(image.raw, image.parts, image.end, values))
  }

  /** The guard: the scan survives the patch, and nothing is appended behind an open end. */
  predicate Editable(e: Editor, image: Image, patch: ImagePatch) {
    match PatchValues(e, Stripped(image.parts), patch)
    case None => true
    case Some(values) =>
      TagSurvives(image, values) && !(Added(image.parts, values) != [] && OpenEnd(image.raw, image.parts, image.end, values))
  }

  /**
    An edited image is found again where it was, with the attributes the edit gave it, if and only if it is
    editable, and then it shows the patched properties and the others as before. Where the scan does not survive
    it is not found whole, whatever it shows.
  */
  lemma EditReadsBack(e: Editor, source: string, from: nat, patch: ImagePatch)
    requires GoodEditor(e) && ParseHtmlImage(e.platform, source, from).Some?
    requires PatchHtmlImage(e, ParseHtmlImage(e.platform, source, from).value, patch).Some?
    ensures var image := ParseHtmlImage(e.platform, source, from).value;
            var raw := PatchHtmlImage(e, image, patch).value;
            var values := PatchValues(e, Stripped(image.parts), patch).value;
            image.from == from && from + |image.raw| <= |source| &&
            (PatchReadBack(e.platform, source, image, raw, values) <==> Editable(e, image, patch)) &&
            var again := ParseHtmlImage(e.platform, Replaced(source, image, raw), from);
            (again.Some? && again.value.raw == raw ==> TagSurvives(image, values)) &&
            (Editable(e, image, patch) ==>
               again.Some? && again.value.raw == raw &&
               ReadProperties(Stripped(again.value.parts)) ==
               PatchedProperties(e, ReadProperties(Stripped(image.parts)), patch))
  {
    hide ParseHtmlImage, Validate, PatchValues, Patched, OpenEnd, ReadProperties, PatchedProperties, Expected, AddedAttrs, Added,
         GoodPlatform, GoodPercent, PlainValues, TagSurvives;
    var image := ParseHtmlImage(e.platform, source, from).value;
    var values := PatchValues(e, Stripped(image.parts), patch).value;
    ValueAfter(e, image.parts, patch, "");
    PatchedImageReadsBack(e.platform, source, from, values);
    PropertiesAfter(e, image.parts, patch);
  }

  /**
    Where the last attribute is the only src or alt, an image that is not editable never shows what the edit should
    show: it is not found whole, or that attribute has swallowed an addition.
  */
  lemma ShowsIffEditable(e: Editor, source: string, from: nat, patch: ImagePatch)
    requires GoodEditor(e) && ParseHtmlImage(e.platform, source, from).Some?
    requires var image := ParseHtmlImage(e.platform, source, from).value;
             PatchHtmlImage(e, image, patch).Some? && LastIsOnly(image.parts) &&
             (image.parts[|image.parts| - 1].name == "src" || image.parts[|image.parts| - 1].name == "alt")
    ensures var image := ParseHtmlImage(e.platform, source, from).value;
            var raw := PatchHtmlImage(e, image, patch).value;
            image.from == from && from + |image.raw| <= |source| &&
            var again := ParseHtmlImage(e.platform, Replaced(source, image, raw), from);
            again.Some? && again.value.raw == raw &&
            ReadProperties(Stripped(again.value.parts)) == PatchedProperties(e, ReadProperties(Stripped(image.parts)), patch)
            <==> Editable(e, image, patch)
  {
    hide ParseHtmlImage, Validate, PatchValues, Patched, OpenEnd, PatchedProperties, ReadProperties, AddedAttrs, Added, Parts, Get,
         GoodPlatform, GoodPercent, PlainValues, TagSurvives, LastIsOnly, Stripped, Expected;
    var p, image := e.platform, ParseHtmlImage(e.platform, source, from).value;
    var values := PatchValues(e, Stripped(image.parts), patch).value;
    EditReadsBack(e, source, from, patch);
    ValueAfter(e, image.parts, patch, "");
    PatchedParts(p, source, from, values);
    if Added(image.parts, values) != [] && OpenEnd(image.raw, image.parts, image.end, values) {
      OpenEndShows(p, image.raw, 4, image.end, values);
      OpenIsUnpatched(e, image, patch, values);
      var again := ParseHtmlImage(p, Replaced(source, image, Patched(image.raw, image.parts, image.end, values)), from);
      if again.Some? { ShownPlainly(Stripped(again.value.parts)); }
    }
  }

  lemma ShownPlainly(attrs: seq<Attr>)
    ensures ReadProperties(attrs).src == Get(attrs, "src") && ReadProperties(attrs).alt == Get(attrs, "alt")
  {
  }

  lemma {:induction false} OnlyIsRead(parts: seq<Part>)
    requires LastIsOnly(parts)
    ensures Get(Stripped(parts), parts[|parts| - 1].name) == parts[|parts| - 1].value
  {
    if |parts| > 1 {
      assert forall i :: 0 <= i < |parts| - 1 ==> parts[1..][i] == parts[i + 1];
      OnlyIsRead(parts[1..]);
    }
    assert Stripped(parts)[1..] == Stripped(parts[1..]);
  }

  /** The open attribute shows nothing, and is to show nothing after the patch. */
  lemma OpenIsUnpatched(e: Editor, image: Image, patch: ImagePatch, values: Values)
    requires PatchValues(e, Stripped(image.parts), patch) == Some(values) && LastIsOnly(image.parts)
    requires OpenEnd(image.raw, image.parts, image.end, values) && image.parts[|image.parts| - 1].value == ""
    ensures var name, shown := image.parts[|image.parts| - 1].name,
                PatchedProperties(e, ReadProperties(Stripped(image.parts)), patch);
            (name == "src" ==> shown.src == "") && (name == "alt" ==> shown.alt == "")
  {
    hide Get, Stripped, Canonical, LastIsOnly, SizesFor, ClassFor, StyleFor, Names;
    OnlyIsRead(image.parts);
    ShownPlainly(Stripped(image.parts));
    PatchNames(e, Stripped(image.parts), patch);
  }

  lemma PatchNames(e: Editor, attrs: seq<Attr>, patch: ImagePatch)
    requires PatchValues(e, attrs, patch).Some?
    ensures var values := PatchValues(e, attrs, patch).value;
            (Names(values, "src") <==> patch.src.Some?) && (Names(values, "alt") <==> patch.alt.Some?)
  {
    hide Names, Entry, PlainValues;
    var sizes := SizesFor(e, patch);
    SixEntries(patch.src, patch.alt, sizes.width, sizes.height, ClassFor(attrs, patch), StyleFor(attrs, sizes), "src");
    SixEntries(patch.src, patch.alt, sizes.width, sizes.height, ClassFor(attrs, patch), StyleFor(attrs, sizes), "alt");
  }

  /** A new source and nothing else. */
  function SourcePatch(src: string): ImagePatch {
    ImagePatch(Some(src), None, None, None, None, None)
  }

  lemma SourceValues(e: Editor, attrs: seq<Attr>, src: string)
    ensures PatchValues(e, attrs, SourcePatch(src)) == Some([("src", src)])
    ensures src != "" && e.safeSource(src) ==> Validate(e, SourcePatch(src))
  {
    assert [("src", src)] + [] + [] + [] + [] + [] == [("src", src)];
  }

  /** A new source for an image with a quote in each of two unquoted values: the edited image is not found again. */
  lemma QuoteEditExample(e: Editor)
    requires GoodEditor(e) && e.safeSource("z")
    ensures var image := ParseHtmlImage(e.platform, "<img" + " src=x' alt=y'" + ">", 0);
            image.Some? && !Editable(e, image.value, SourcePatch("z")) &&
            PatchHtmlImage(e, image.value, SourcePatch("z")) == Some("<img" + " src=\"z\" alt=y'" + ">")
    ensures ParseHtmlImage(e.platform, "<img" + " src=\"z\" alt=y'" + ">", 0).None?
  {
    hide ParseHtmlImage, Validate, PatchValues, Patched, OpenEnd, Added, GoodPlatform, GoodPercent, TagSurvives, QuoteFree;
    QuoteExample(e.platform);
    var image := ParseHtmlImage(e.platform, "<img" + " src=x' alt=y'" + ">", 0).value;
    SourceValues(e, Stripped(image.parts), "z");
  }

  // ----- a new image

  const SEED: string := "<img src=\"/\" alt=\"\" />"

  /** What the insert dialog hands over, with every default filled in. */
  function FullPatch(payload: Properties): ImagePatch {
    ImagePatch(Some(payload.src), Some(payload.alt), Some(payload.width), Some(payload.height), Some(payload.align), Some(payload.styles))
  }

  function SerializeHtmlImage(e: Editor, payload: Properties): Option<string> {
    if !Validate(e, FullPatch(payload)) then None
    else
      match ParseHtmlImage(e.platform, SEED, 0)
      case None => None
      case Some(image) => PatchHtmlImage(e, image, FullPatch(payload))
  }

  lemma SeedAlt(p: Platform)
    requires GoodPlatform(p)
    ensures FirstToken(p, "alt=\"\" ") == Some(Token(6, "alt", "", Quoted)) && "alt=\"\" "[6..] == " " && !IsSpace("alt=\"\" "[0])
  {
    hide FirstToken, GoodPlatform;
    QuotedThen(p, "alt", "", " ");
    assert "alt" + "=\"" + "" + "\"" + " " == "alt=\"\" ";
  }

  lemma SeedSrc(p: Platform)
    requires GoodPlatform(p)
    ensures var s := "src=\"/\" alt=\"\" ";
            FirstToken(p, s) == Some(Token(7, "src", "/", Quoted)) && s[7..] == " " + "alt=\"\" " && !IsSpace(s[0])
  {
    hide FirstToken, GoodPlatform;
    var b := " " + "alt=\"\" ";
    QuotedThen(p, "src", "/", b);
    assert "src" + "=\"" + "/" + "\"" + b == "src=\"/\" alt=\"\" ";
  }

  lemma SeedParts(p: Platform)
    requires GoodPlatform(p)
    ensures Parts(p, " src=\"/\" alt=\"\" ", 4) == Some([Part(5, 12, "src", "/"), Part(13, 19, "alt", "")])
    ensures QuoteFree(p, " src=\"/\" alt=\"\" ")
  {
    hide FirstToken, GoodPlatform, Parts, IsSpace, Decode, QuoteFree;
    var alt, src := "alt=\"\" ", "src=\"/\" alt=\"\" ";
    SeedAlt(p);
    SeedSrc(p);
    DecodeNothing(p.resolve);
    DecodePlain(p.resolve, "/");
    NoParts(p, 20);
    PartsBehindSpace(p, "", 19);
    assert " " + "" == " ";
    PartsStep(p, alt, 13, Token(6, "alt", "", Quoted), []);
    assert [Part(13, 19, "alt", "")] + [] == [Part(13, 19, "alt", "")];
    PartsBehindSpace(p, alt, 12);
    PartsStep(p, src, 5, Token(7, "src", "/", Quoted), [Part(13, 19, "alt", "")]);
    assert [Part(5, 12, "src", "/")] + [Part(13, 19, "alt", "")] == [Part(5, 12, "src", "/"), Part(13, 19, "alt", "")];
    PartsBehindSpace(p, src, 4);
    assert " " + src == " src=\"/\" alt=\"\" ";
    QuotedStep(p, alt, Token(6, "alt", "", Quoted));
    QuotedStep(p, src, Token(7, "src", "/", Quoted));
    SpaceStep(p, "");
    SpaceStep(p, alt);
    SpaceStep(p, src);
  }

  lemma QuotedStep(p: Platform, s: string, t: Token)
    requires s != "" && !IsSpace(s[0]) && FirstToken(p, s) == Some(t) && t.form == Quoted
    ensures QuoteFree(p, s) <==> QuoteFree(p, s[t.length..])
  {
    hide FirstToken, IsSpace;
  }

  lemma SpaceStep(p: Platform, s: string)
    ensures QuoteFree(p, " " + s) <==> QuoteFree(p, s)
    ensures QuoteFree(p, "")
  {
    hide FirstToken;
    assert (" " + s)[1..] == s;
  }

  lemma SeedIsClosed()
    ensures Closed(" src=\"/\" alt=\"\" ") && StartsImage("<img" + " src=\"/\" alt=\"\" ", 0)
  {
    hide Closed;
    OneStretch(" src=", '"', "/");
    OneStretch(" alt=", '"', "");
    var a, b := " src=" + (['"'] + "/" + ['"']), " alt=" + (['"'] + "" + ['"']);
    ClosedConcat(a, b);
    PlainIsClosed(" ");
    ClosedConcat(a + b, " ");
    assert a + b + " " == " src=\"/\" alt=\"\" ";
  }

  lemma SeedImage(p: Platform)
    requires GoodPlatform(p)
    ensures ParseHtmlImage(p, SEED, 0) == Some(Image(0, SEED, 20, [Part(5, 12, "src", "/"), Part(13, 19, "alt", "")]))
    ensures QuoteFree(p, SEED[4..20])
  {
    hide ParseHtmlImage, GoodPlatform, Parts, Closed, StartsImage, QuoteFree, EndsWithSlash;
    var s := " src=\"/\" alt=\"\" ";
    SeedParts(p);
    SeedIsClosed();
    SeedText();
    ImageParses(p, "", "<img", s, "/>", "");
  }

  lemma SeedText()
    ensures var s := " src=\"/\" alt=\"\" ";
            |s| == 16 && "<img" + s + "/>" == SEED && "" + ("<img" + s + "/>") + "" == SEED && SEED[4..20] == s
  {
  }

  /** The seed shows nothing that the payload does not replace. */
  lemma SeedStyle(e: Editor, payload: Properties)
    ensures PatchValues(e, Stripped([Part(5, 12, "src", "/"), Part(13, 19, "alt", "")]), FullPatch(payload)).Some?
  {
    hide NewDeclarations, MergeClasses, NormalizeDimension;
    var parts := [Part(5, 12, "src", "/"), Part(13, 19, "alt", "")];
    assert parts[1..] == [parts[1]] && parts[1..][1..] == [];
    var attrs := Stripped(parts);
    assert attrs == [Attr("src", "/"), Attr("alt", "")];
    assert attrs == [Attr("src", "/")] + ([Attr("alt", "")] + []);
    GetOwn([Attr("alt", "")], [], "style");
    GetOwn([Attr("src", "/")], [Attr("alt", "")] + [], "style");
    assert Get(attrs, "style") == "";
  }

  /** Every valid payload is written, and the text reads back as an image with its properties. */
  lemma SerializeReadsBack(e: Editor, payload: Properties)
    requires GoodEditor(e) && Validate(e, FullPatch(payload))
    ensures SerializeHtmlImage(e, payload).Some?
    ensures var raw := SerializeHtmlImage(e, payload).value;
            var image := ParseHtmlImage(e.platform, raw, 0);
            image.Some? && image.value.raw == raw &&
            var found := ReadProperties(Stripped(image.value.parts));
            found.src == payload.src && found.alt == payload.alt && found.align == payload.align &&
            found.styles == Canonical(payload.styles) &&
            found.width == Shown(NormalizeDimension(e.percent, payload.width).value) &&
            found.height == Shown(NormalizeDimension(e.percent, payload.height).value)
  {
    hide ParseHtmlImage, PatchValues, Patched, GoodPlatform, GoodPercent, ReadProperties, Stripped, NormalizeDimension, OpenEnd, QuoteFree,
         Shown, Canonical, Added, TagSurvives, PatchReadBack;
    var p, patch := e.platform, FullPatch(payload);
    var parts := [Part(5, 12, "src", "/"), Part(13, 19, "alt", "")];
    var image := Image(0, SEED, 20, parts);
    SeedImage(p);
    SeedStyle(e, payload);
    var values := PatchValues(e, Stripped(parts), patch).value;
    NotOpen(SEED, parts, 20, values);
    ValueAfter(e, parts, patch, "");
    QuoteFreeSurvives(p, SEED, 0, values);
    EditReadsBack(e, SEED, 0, patch);
    var raw := PatchHtmlImage(e, image, patch).value;
    assert Replaced(SEED, image, raw) == raw;
  }

  lemma NotOpen(source: string, parts: seq<Part>, end: nat, values: Values)
    requires parts != [] && parts[|parts| - 1].to != end
    ensures !OpenEnd(source, parts, end, values)
  {
  }
}

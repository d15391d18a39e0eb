/**
 * The image wrapper: SVG sources are passed to Next's image component
 * unoptimised and without `quality`; raster sources get `quality` only
 * when the caller gave one.
 */
module NextImage {
  import opened Strings
  import opened Props

  /** The source with its query cut off, trimmed and lower-cased. */
  function Cleaned(src: string): string {
    ToLower(Trim(Split(src, "?")[0]))
  }

  /** The test of `isSvg` on a string source. */
  predicate SvgText(src: string) {
    EndsWith(Cleaned(src), ".svg") || StartsWith(Cleaned(src), "data:image/svg+xml")
  }

  /** `isSvg`: only a string source can be an SVG. */
  predicate IsSvg(src: Value) {
    src.Text? && SvgText(src.s)
  }

  /** Anything after the first '?' is irrelevant. */
  lemma QueryIgnored(s: string, q: string)
    ensures SvgText(s + "?" + q) == SvgText(s)
  {
    SplitFirstIgnoresTail(s, '?', q);
  }

  /** White space in front is irrelevant. */
  lemma LeadingWhitespaceIgnored(w: string, s: string)
    requires AllWhitespace(w)
    ensures SvgText(w + s) == SvgText(s)
  {
    assert '?' !in w by {
      assert forall i :: 0 <= i < |w| ==> IsWhitespace(w[i]);
    }
    SplitFirstPrefixFree(w, s, '?');
    TrimIgnoresLeading(w, Split(s, "?")[0]);
  }

  /** White space behind is irrelevant. */
  lemma TrailingWhitespaceIgnored(s: string, w: string)
    requires AllWhitespace(w)
    ensures SvgText(s + w) == SvgText(s)
  {
    assert '?' !in w by {
      assert forall i :: 0 <= i < |w| ==> IsWhitespace(w[i]);
    }
    SplitFirstSuffixFree(s, w, '?');
    if '?' !in s {
      SplitFree(s, "?");
      TrimIgnoresTrailing(s, w);
    }
  }

  /** Upper- or lower-casing the source changes nothing. */
  lemma CaseIgnored(s: string)
    ensures SvgText(ToUpper(s)) == SvgText(s)
    ensures SvgText(ToLower(s)) == SvgText(s)
  {
    var piece := Split(s, "?")[0];
    SplitFirstMapped(s, '?', UpperChar);
    TrimMapped(piece, UpperChar);
    LowerAfterCase(Trim(piece));
    SplitFirstMapped(s, '?', LowerChar);
    TrimMapped(piece, LowerChar);
  }

  /**
   * A source made of white space, a core without '?' that trimming leaves
   * as it is, and white space again is tested on the core alone,
   * and the core is cleaned to its lower case.
   */
  lemma SvgCore(w1: string, core: string, w2: string)
    requires AllWhitespace(w1) && AllWhitespace(w2) && '?' !in core && Trim(core) == core
    ensures SvgText(w1 + core + w2) == SvgText(core)
    ensures Cleaned(core) == ToLower(core)
  {
    assert w1 + core + w2 == w1 + (core + w2);
    LeadingWhitespaceIgnored(w1, core + w2);
    TrailingWhitespaceIgnored(core, w2);
    CleanedCore(core);
  }

  /** A trimmed core without '?' cleans to its lower case. */
  lemma CleanedCore(core: string)
    requires '?' !in core && Trim(core) == core
    ensures Cleaned(core) == ToLower(core)
  {
    SplitFree(core, "?");
  }

  /** The literal facts about "Logo.SVG" that the first example needs. */
  lemma LogoFacts()
    ensures " Logo.SVG?v=2 " == " " + "Logo.SVG" + "?" + "v=2 "
    ensures Trim("Logo.SVG") == "Logo.SVG" && '?' !in "Logo.SVG" && AllWhitespace(" ")
    ensures EndsWith(ToLower("Logo.SVG"), ".svg")
  {
    TrimUnpadded("Logo.SVG");
    assert ToLower("Logo.SVG") == "logo.svg";
  }

  /** A padded, upper-case SVG name with a query string is an SVG. */
  lemma DecoratedSvgName()
    ensures IsSvg(Text(" Logo.SVG?v=2 "))
  {
    LogoFacts();
    QueryIgnored(" " + "Logo.SVG", "v=2 ");
    assert " " + "Logo.SVG" + "" == " " + "Logo.SVG";
    SvgCore(" ", "Logo.SVG", "");
  }

  /** The data URL of the second example is trimmed. */
  lemma DataUrlTrimmed()
    ensures Trim("data:image/svg+xml;base64,AA") == "data:image/svg+xml;base64,AA"
  {
    TrimUnpadded("data:image/svg+xml;base64,AA");
  }

  /** The data URL of the second example has no query. */
  lemma DataUrlUnqueried()
    ensures '?' !in "data:image/svg+xml;base64,AA"
  {
  }

  /** The data URL of the second example keeps its SVG type when lower-cased. */
  lemma DataUrlType()
    ensures StartsWith(ToLower("data:image/svg+xml;base64,AA"), "data:image/svg+xml")
  {
    SvgMimeIsLower();
    assert StartsWith("data:image/svg+xml;base64,AA", "data:image/svg+xml");
    LowerKeepsPrefix("data:image/svg+xml;base64,AA", "data:image/svg+xml");
  }

  lemma SvgMimeIsLower()
    ensures ToLower("data:image/svg+xml") == "data:image/svg+xml"
  {
  }

  /** An SVG data URL is an SVG. */
  lemma SvgDataUrl()
    ensures IsSvg(Text("data:image/svg+xml;base64,AA"))
  {
    DataUrlTrimmed();
    DataUrlUnqueried();
    DataUrlType();
    CleanedCore("data:image/svg+xml;base64,AA");
  }

  /** The literal facts about "a.svg.png" that the third example needs. */
  lemma PngFacts()
    ensures Trim("a.svg.png") == "a.svg.png" && '?' !in "a.svg.png"
    ensures ToLower("a.svg.png") == "a.svg.png"
    ensures !EndsWith("a.svg.png", ".svg") && !StartsWith("a.svg.png", "data:image/svg+xml")
  {
    TrimUnpadded("a.svg.png");
    assert "a.svg.png"[5..] != ".svg";
  }

  /** ".svg" inside a name that ends otherwise does not make it an SVG. */
  lemma SvgInsideNameIsNot()
    ensures !IsSvg(Text("a.svg.png"))
  {
    PngFacts();
    CleanedCore("a.svg.png");
  }

  /** A source that is not a string (a static import) is never an SVG. */
  lemma StaticImportIsNot()
    ensures !IsSvg(Static)
  {
  }

  /** `<NextImage src={src} unoptimized {...rest} />` */
  function SvgProps(src: Value, rest: Props): (r: Props)
    ensures "src" in r && r["src"] == (if "src" in rest then rest["src"] else src)
    ensures "unoptimized" in r && r["unoptimized"] == if "unoptimized" in rest then rest["unoptimized"] else Flag(true)
    ensures forall k :: k in rest ==> k in r && r[k] == rest[k]
    ensures r.Keys == rest.Keys + {"src", "unoptimized"}
  {
    map["src" := src, "unoptimized" := Flag(true)] + rest
  }

  /** `<NextImage src={src} {...(quality !== undefined ? { quality } : {})} {...rest} />` */
  function RasterProps(src: Value, quality: Value, rest: Props): (r: Props)
    ensures "src" in r && r["src"] == (if "src" in rest then rest["src"] else src)
    ensures "quality" in r <==> quality != Undefined || "quality" in rest
    ensures "quality" in r && "quality" !in rest ==> r["quality"] == quality
    ensures forall k :: k in rest ==> k in r && r[k] == rest[k]
    ensures r.Keys == rest.Keys + {"src"} + (if quality != Undefined then {"quality"} else {})
  {
    map["src" := src] + (if quality != Undefined then map["quality" := quality] else map[]) + rest
  }

  /** The props handed on once it is known whether the source is an SVG. */
  function Forwarded(props: Props, svg: bool): (r: Props)
    ensures "src" in r && r["src"] == Get(props, "src")
    ensures svg ==> "quality" !in r
    ensures svg ==>
      && "unoptimized" in r
      && r["unoptimized"] == if "unoptimized" in props then props["unoptimized"] else Flag(true)
    ensures !svg ==> ("quality" in r <==> Get(props, "quality") != Undefined)
    ensures !svg && "quality" in r ==> r["quality"] == Get(props, "quality")
    ensures !svg ==> ("unoptimized" in r <==> "unoptimized" in props)
    ensures forall k :: k in props && k != "src" && k != "quality" ==> k in r && r[k] == props[k]
    ensures r.Keys <= props.Keys + {"src", "unoptimized"}
  {
    var src := Get(props, "src");
    var quality := Get(props, "quality");
    var rest := Rest(props, {"src", "quality"});
    assert rest.Keys <= props.Keys;
    if svg then
      SvgProps(src, rest)
    else
      var r := RasterProps(src, quality, rest);
      assert quality != Undefined ==> "quality" in props;
      r
  }

  /**
   * `Image`: the props handed to Next's image component. `src` and
   * `quality` are taken out of the caller's props; the rest is spread
   * last, so it can override `unoptimized`.
   */
  function Image(props: Props): (r: Props)
    ensures "src" in r && r["src"] == Get(props, "src")
    ensures IsSvg(Get(props, "src")) ==> "quality" !in r
    ensures IsSvg(Get(props, "src")) ==>
      && "unoptimized" in r
      && r["unoptimized"] == if "unoptimized" in props then props["unoptimized"] else Flag(true)
    ensures !IsSvg(Get(props, "src")) ==> ("quality" in r <==> Get(props, "quality") != Undefined)
    ensures !IsSvg(Get(props, "src")) && "quality" in r ==> r["quality"] == Get(props, "quality")
    ensures !IsSvg(Get(props, "src")) ==> ("unoptimized" in r <==> "unoptimized" in props)
    ensures forall k :: k in props && k != "src" && k != "quality" ==> k in r && r[k] == props[k]
    ensures r.Keys <= props.Keys + {"src", "unoptimized"}
  {
    Forwarded(props, IsSvg(Get(props, "src")))
  }
}

/**
 * The category image selector of the catalogue (lib/imageMapping.ts): a fixed
 * table of product image file names per size, filtered by per-category
 * keywords, each kept file turned into an `{path, alt, exactFilename}` record
 * whose alt text is the file name without its size annotation.
 */
module ImageMapping {
  import opened Wrappers
  import opened Seqs
  import opened Text

  /** One image of a product card. */
  datatype ImageInfo = ImageInfo(path: string, alt: string, exactFilename: string)

  /** `EXACT_FILENAMES`: the image files of the products folder, per size key. */
  const ExactFilenames: map<string, seq<string>> := map[
    "430" := [
      "430mm (17 \") Prima Disc Assembly.png",
      "430mm (17\") Benz Cover Assembly.png",
      "430mm (17\") Benz Disc Assembly.png",
      "430mm (17\") Eicher Pro Cover Assembly.png",
      "430mm (17\") Eicher Pro Disc Assembly.png",
      "430mm (17\") Man Cover Assembly.png",
      "430mm (17\") Prima Cover Assembly.png"],
    "395" := [
      "395mm(15.5 \") Eicher Pro Diaphragm Assembly.png",
      "395mm(15.5) AL Diaphragm Cover Assembly.png",
      "395mm(15.5) Mahindra Navistar Disc Assembly.png",
      "395mm(15.5\") 8 Pad Ceramic AL Clutch Disc Assembly.png",
      "395mm(15.5\") AL Organic Cushion Disc Assembly.png",
      "395mm(15.5\") Benz Clutch Disc Assembly.png",
      "395mm(15.5\") Benz Diaphragm Cover Assembly.png",
      "395mm(15.5\") Ceramic & Organic Eicher Pro Disc Assembly.png",
      "395mm(15.5\") Mahindra Navistar Cover Assembly.png"],
    "380" := [
      "380mm (15')AL Clutch Disc Assembly.png",
      "380mm (15\") Ceramic Clutch Disc Assembly.png",
      "380mm (15\") Conventional Cover Assembly.png",
      "380mm (15\") Organic Clutch Disc Assembly.png",
      "380mm(15\") Diaphragm Cover Assembly.png"],
    "360" := [
      "362mm (14.5\") Benz Clutch Disc Assembly.png",
      "362mm (14.5\") M & M Clutch Disc Assembly.png",
      "362mm (14.5\") M & M Diaphragm Cover Assembly.png"],
    "350" := [
      "352mm (14\") Ceramic Clutch Disc Assembly.png",
      "352mm (14\") Clutch Disc Assembly.png",
      "352mm (14\") Conventational Cover Assembly.png",
      "352mm (14\") Conventional CoverAssembly.png"]
  ]

  /** `categoryKeywords`: a file belongs to a category when its name contains one of these. */
  const CategoryKeywords: map<string, seq<string>> := map[
    "cover-assembly" := [
      "Cover Assembly",
      "CoverAssembly",
      "Diaphragm Cover Assembly",
      "Diaphragm Assembly",
      "Conventional Cover Assembly",
      "Conventational Cover Assembly"],
    "clutch-disc" := [
      "Clutch Disc Assembly",
      "Disc Assembly",
      "Clutch Disc",
      "Ceramic Clutch Disc",
      "Organic Clutch Disc",
      "AL Clutch Disc",
      "Ceramic & Organic",
      "8 Pad Ceramic",
      "AL Organic Cushion Disc",
      "Mahindra Navistar Disc"],
    "repair-kits" := [],
    "fly-wheel" := []
  ]

  /** `EXACT_FILENAMES[size] || []`. */
  function FilesFor(size: string): seq<string> {
    if size in ExactFilenames then ExactFilenames[size] else []
  }

  /** `categoryKeywords[category] || []`. */
  function KeywordsFor(category: string): seq<string> {
    if category in CategoryKeywords then CategoryKeywords[category] else []
  }

  const ImagePathPrefix := "/images/products/"

  /** `createImageInfo`. */
  function CreateImageInfo(filename: string): ImageInfo {
    ImageInfo(ImagePathPrefix + filename, ExtractAltText(filename), filename)
  }

  /** `keywords.some(k => fileLower.includes(k.toLowerCase()))`. */
  predicate MatchesCategory(fileLower: string, keywords: seq<string>) {
    keywords != [] && (Contains(fileLower, LowerStr(keywords[0])) || MatchesCategory(fileLower, keywords[1..]))
  }

  /** The files of a table row that `getProductImages` keeps for a keyword
      list, in row order: all of them when the list is empty. */
  function SelectFiles(files: seq<string>, keywords: seq<string>): seq<string> {
    if keywords == [] then files else Filter(files, Matcher(keywords))
  }

  /** The filter callback of `getProductImages` for a keyword list. */
  function Matcher(keywords: seq<string>): string -> bool {
    f => MatchesCategory(LowerStr(f), keywords)
  }

  /** The kept files are exactly the files of the row whose lower-cased name
      contains a lower-cased keyword, in row order, each once if the row has
      no repeats, and never more than the row. */
  lemma SelectFilesSpec(files: seq<string>, keywords: seq<string>)
    ensures var r := SelectFiles(files, keywords);
      && |r| <= |files|
      && IsSubsequence(r, files)
      && (NoDuplicates(files) ==> NoDuplicates(r))
      && (forall f :: f in r <==> f in files && (keywords == [] || MatchesCategory(LowerStr(f), keywords)))
  {
    if keywords == [] {
      SubsequenceRefl(files);
    } else {
      FilterSpec(files, Matcher(keywords));
    }
  }

  /** The records made from the kept files, one per file. */
  function Images(files: seq<string>, keywords: seq<string>): seq<ImageInfo> {
    Map(SelectFiles(files, keywords), CreateImageInfo)
  }

  /** Every record points at its file under the products folder and carries
      the file's alt text. */
  lemma ImagesShape(files: seq<string>, keywords: seq<string>)
    ensures var r := Images(files, keywords);
      && |r| == |SelectFiles(files, keywords)|
      && forall i :: 0 <= i < |r| ==>
        && r[i].exactFilename == SelectFiles(files, keywords)[i]
        && r[i].path == ImagePathPrefix + r[i].exactFilename
        && r[i].alt == ExtractAltText(r[i].exactFilename)
  {
    var r := Images(files, keywords);
    forall i | 0 <= i < |r|
      ensures r[i] == CreateImageInfo(SelectFiles(files, keywords)[i])
    {
      MapAt(SelectFiles(files, keywords), CreateImageInfo, i);
    }
  }

  /** What `getProductImages(category, size)` returns. */
  function ProductImages(category: string, size: string): seq<ImageInfo> {
    Images(FilesFor(size), KeywordsFor(category))
  }

  /** `getProductImages`. */
  method GetProductImages(category: string, size: string) returns (images: seq<ImageInfo>)
    ensures images == ProductImages(category, size)
  {
    images := CollectImages(FilesFor(size), KeywordsFor(category));
  }

  /** The body of `getProductImages` once the row and the keywords are
      looked up: an empty row gives nothing, an empty keyword list maps every
      file, and otherwise the matching files are pushed in row order. */
  method CollectImages(files: seq<string>, keywords: seq<string>) returns (images: seq<ImageInfo>)
    ensures images == Images(files, keywords)
  {
    images := [];
    if |files| == 0 {
      return;
    }
    if |keywords| == 0 {
      images := Map(files, CreateImageInfo);
      return;
    }
    images := PushMatching(files, Matcher(keywords), CreateImageInfo);
  }

  /** The `forEach` of `getProductImages`: `push(make(file))` for every file
      the callback accepts. */
  method PushMatching<U>(files: seq<string>, accept: string -> bool, make: string -> U) returns (out: seq<U>)
    ensures out == Map(Filter(files, accept), make)
  {
    out := [];
    var i := 0;
    while i < |files|
      invariant i <= |files|
      invariant out == Map(Filter(files[..i], accept), make)
    {
      var file := files[i];
      FilterMapSnoc(files, i, accept, make);
      if accept(file) {
        out := out + [make(file)];
      }
      i := i + 1;
    }
    assert files[..i] == files;
  }

  /** A size the table does not know has no images. */
  lemma UnknownSizeHasNoImages(category: string, size: string)
    requires size !in ExactFilenames
    ensures ProductImages(category, size) == []
  {
  }

  /** Repair kits, fly wheels and categories the keyword table lacks have no
      keywords, so they show every image of the size, in table order. */
  lemma KeywordlessCategories(category: string)
    requires category !in CategoryKeywords || category == "repair-kits" || category == "fly-wheel"
    ensures KeywordsFor(category) == []
  {
  }

  /** `MatchesCategory` is the existential `some` describes. */
  lemma {:induction false} MatchesCategoryExists(fileLower: string, keywords: seq<string>)
    ensures MatchesCategory(fileLower, keywords) <==>
      exists k :: k in keywords && Contains(fileLower, LowerStr(k))
  {
    if keywords != [] {
      MatchesCategoryExists(fileLower, keywords[1..]);
      assert keywords == [keywords[0]] + keywords[1..];
      if MatchesCategory(fileLower, keywords[1..]) {
        var k :| k in keywords[1..] && Contains(fileLower, LowerStr(k));
        assert k in keywords;
      }
    }
  }

  /** One keyword found in the name is enough. */
  lemma KeywordHit(fileLower: string, keywords: seq<string>, j: nat)
    requires j < |keywords| && Contains(fileLower, LowerStr(keywords[j]))
    ensures MatchesCategory(fileLower, keywords)
  {
    MatchesCategoryExists(fileLower, keywords);
    assert keywords[j] in keywords;
  }

  /** `p` has a character of `cs` at a position from which more than `n`
      characters remain. */
  predicate MarkedBefore(p: string, cs: set<char>, n: nat) {
    exists j :: 0 <= j && j + n < |p| && p[j] in cs
  }

  /** A name made of a part without any character of `cs` and a tail of
      length `|tail|` matches no keyword that has a character of `cs` at least
      `|tail|` characters before its end. */
  lemma {:induction false} NoKeywordHit(a: string, tail: string, keywords: seq<string>, cs: set<char>)
    requires forall i :: 0 <= i < |a| ==> a[i] !in cs
    requires forall k :: k in keywords ==> MarkedBefore(LowerStr(k), cs, |tail|)
    ensures !MatchesCategory(a + tail, keywords)
  {
    if keywords != [] {
      var p := LowerStr(keywords[0]);
      assert keywords[0] in keywords;
      var j :| 0 <= j && j + |tail| < |p| && p[j] in cs;
      MissingCharAt(a, tail, p, j);
      assert forall k :: k in keywords[1..] ==> k in keywords;
      NoKeywordHit(a, tail, keywords[1..], cs);
    }
  }

  /** A `.png` file whose name spells out one of the keywords of a category
      is one of that category's files. */
  lemma NamedFileMatches(x: string, kw: string, keywords: seq<string>, j: nat)
    requires j < |keywords| && keywords[j] == kw
    ensures Matcher(keywords)(x + kw + ".png")
  {
    ContainsMiddle(x, kw, ".png");
    ContainsLower(x + kw + ".png", kw);
    KeywordHit(LowerStr(x + kw + ".png"), keywords, j);
  }

  /** A `.png` file whose name, lower-cased, has none of the characters `cs`
      is not a file of a category each of whose keywords has such a character
      at least four characters before its end. */
  lemma UnmarkedFileMisses(x: string, kw: string, keywords: seq<string>, cs: set<char>)
    requires forall i :: 0 <= i < |x| ==> Lower(x[i]) !in cs
    requires forall i :: 0 <= i < |kw| ==> Lower(kw[i]) !in cs
    requires forall k :: k in keywords ==> MarkedBefore(LowerStr(k), cs, 4)
    ensures !Matcher(keywords)(x + kw + ".png")
  {
    var a := x + kw;
    LowerConcat(a, ".png");
    assert LowerStr(".png") == ".png";
    forall i | 0 <= i < |a|
      ensures LowerStr(a)[i] !in cs
    {
      if i >= |x| {
        assert a[i] == kw[i - |x|];
      }
    }
    NoKeywordHit(LowerStr(a), ".png", keywords, cs);
  }

  // ---------------------------------------------------------------- alt text

  predicate IsCloseParen(c: char) { c == ')' }

  /** `a` is what is left of `b` after a prefix is dropped. */
  predicate IsSuffix(a: string, b: string) {
    |a| <= |b| && a == b[|b| - |a|..]
  }

  lemma SuffixTrans(a: string, b: string, c: string)
    requires IsSuffix(a, b) && IsSuffix(b, c)
    ensures IsSuffix(a, c)
  {
    assert c[|c| - |b|..][|b| - |a|..] == c[|c| - |a|..];
  }

  /** Text after `\([^)]*\)` at the start of `s`. */
  function AfterParens(s: string): (r: Option<string>)
    ensures r.Some? ==> |r.value| < |s| && IsSuffix(r.value, s)
  {
    if s != [] && s[0] == '(' then
      match FirstIndex(s[1..], IsCloseParen)
      case None => None
      case Some(k) => Some(s[k + 2..])
    else None
  }

  /** Text after what the pattern ^\d+mm\s*\([^)]*\) matches, if it does. */
  function AfterSizeAnnotation(s: string): (r: Option<string>)
    ensures r.Some? ==> IsSuffix(r.value, s)
    ensures MmNumber(s).None? ==> r.None?
  {
    match MmNumber(s)
    case None => None
    case Some(d) =>
      var u := s[|d| + 2..];
      var t := TrimStart(u);
      var r := AfterParens(t);
      if r.Some? then
        SuffixTrans(t, u, s);
        SuffixTrans(r.value, t, s);
        r
      else r
  }

  // Removes what the pattern ^\d+mm\s*\([^)]*\)\s* matches when `trailing`
  // holds, and what the same pattern without its final \s* matches otherwise.
  function StripSizeAnnotation(s: string, trailing: bool): (r: string)
    ensures IsSuffix(r, s)
  {
    match AfterSizeAnnotation(s)
    case None => s
    case Some(rest) =>
      if trailing then
        SuffixTrans(TrimStart(rest), rest, s);
        TrimStart(rest)
      else rest
  }

  /** The alt text before the fallback: no extension, no size annotation,
      trimmed and single-spaced. */
  function AltCore(filename: string): string {
    var noExt := ReplaceFirst(filename, ".png", "");
    CollapseSpaces(Trim(StripSizeAnnotation(StripSizeAnnotation(noExt, true), false)))
  }

  /** `extractAltText`. */
  function ExtractAltText(filename: string): string {
    var alt := AltCore(filename);
    if alt == [] then ReplaceFirst(filename, ".png", "") else alt
  }

  /** The alt text proper is trimmed and single-spaced; the fallback is taken
      exactly when nothing but whitespace follows the size annotation. */
  lemma AltTextShape(filename: string)
    ensures var stripped := StripSizeAnnotation(StripSizeAnnotation(ReplaceFirst(filename, ".png", ""), true), false);
      && (AltCore(filename) == [] <==> AllSpace(stripped))
      && (!AllSpace(stripped) ==>
            ExtractAltText(filename) == AltCore(filename)
            && Spaced(ExtractAltText(filename)) && NoEdgeSpace(ExtractAltText(filename)))
      && (AllSpace(stripped) ==> ExtractAltText(filename) == ReplaceFirst(filename, ".png", ""))
  {
    var stripped := StripSizeAnnotation(StripSizeAnnotation(ReplaceFirst(filename, ".png", ""), true), false);
    TrimEmpty(stripped);
    CollapseEdges(Trim(stripped));
  }

  /** No `.png` before the one that ends `name + ".png"`. */
  predicate PngOnlyAtEnd(name: string) {
    forall j :: 0 <= j < |name| ==> !OccursAt(name + ".png", ".png", j)
  }

  /** A name without a dot has its only `.png` at the end. */
  lemma NoDotPngOnlyAtEnd(name: string)
    requires '.' !in name
    ensures PngOnlyAtEnd(name)
  {
    forall j | 0 <= j < |name| ensures !OccursAt(name + ".png", ".png", j) {
      assert (name + ".png")[j] == name[j];
    }
  }

  /** The alt text of a catalogue file name `<digits>mm<ws>(<inner>)<ws><body>.png`
      is its body, when the body is single-spaced text that starts with
      neither whitespace nor a digit. */
  lemma AltTextOfCatalogueName(d: string, ws1: string, inner: string, ws2: string, body: string)
    requires d != [] && forall i :: 0 <= i < |d| ==> IsDigit(d[i])
    requires AllSpace(ws1) && AllSpace(ws2)
    requires forall i :: 0 <= i < |inner| ==> inner[i] != ')'
    requires body != [] && !IsDigit(body[0]) && Spaced(body) && NoEdgeSpace(body)
    requires PngOnlyAtEnd(d + "mm" + ws1 + "(" + inner + ")" + ws2 + body)
    ensures ExtractAltText(d + "mm" + ws1 + "(" + inner + ")" + ws2 + body + ".png") == body
  {
    var name := d + "mm" + ws1 + "(" + inner + ")" + ws2 + body;
    ReplacePngAtEnd(name);
    SizeAnnotationOf(d, ws1, inner, ws2, body);
    assert MmNumber(body).None? by {
      assert DigitRun(body) == 0;
    }
    TrimFixed(body);
    CollapseFixed(body);
  }

  lemma ReplacePngAtEnd(name: string)
    requires PngOnlyAtEnd(name)
    ensures ReplaceFirst(name + ".png", ".png", "") == name
  {
    var s := name + ".png";
    assert OccursAt(s, ".png", |name|);
    ContainsAt(s, ".png", |name|);
    var i := IndexOf(s, ".png").value;
    assert i == |name|;
    assert s[..i] == name;
  }

  /** The size annotation goes, with the whitespace after it, and nothing more. */
  lemma SizeAnnotationOf(d: string, ws1: string, inner: string, ws2: string, rest: string)
    requires d != [] && forall i :: 0 <= i < |d| ==> IsDigit(d[i])
    requires AllSpace(ws1) && AllSpace(ws2)
    requires forall i :: 0 <= i < |inner| ==> inner[i] != ')'
    requires rest == [] || !IsSpace(rest[0])
    ensures StripSizeAnnotation(d + "mm" + ws1 + "(" + inner + ")" + ws2 + rest, true) == rest
  {
    assert d + "mm" + ws1 + "(" + inner + ")" + ws2 + rest == d + "mm" + ws1 + "(" + inner + ")" + (ws2 + rest);
    AfterSizeAnnotationOf(d, ws1, inner, ws2 + rest);
    TrimStartOf(ws2, rest);
  }

  lemma AfterSizeAnnotationOf(d: string, ws1: string, inner: string, rest: string)
    requires d != [] && forall i :: 0 <= i < |d| ==> IsDigit(d[i])
    requires AllSpace(ws1)
    requires forall i :: 0 <= i < |inner| ==> inner[i] != ')'
    ensures AfterSizeAnnotation(d + "mm" + ws1 + "(" + inner + ")" + rest) == Some(rest)
  {
    var tail := "(" + inner + ")" + rest;
    assert d + "mm" + ws1 + "(" + inner + ")" + rest == d + "mm" + (ws1 + tail);
    MmNumberOf(d, ws1 + tail);
    TrimStartOf(ws1, tail);
    AfterParensOf(inner, rest);
  }

  lemma AfterParensOf(inner: string, rest: string)
    requires forall i :: 0 <= i < |inner| ==> inner[i] != ')'
    ensures AfterParens("(" + inner + ")" + rest) == Some(rest)
  {
    var s := "(" + inner + ")" + rest;
    assert s[1..] == inner + ")" + rest;
    assert FirstIndex(s[1..], IsCloseParen) == Some(|inner|) by {
      assert s[1..][|inner|] == ')';
    }
    assert s[|inner| + 2..] == rest;
  }

  /** Leading whitespace followed by a non-space goes entirely. */
  lemma {:induction false} TrimStartOf(ws: string, rest: string)
    requires AllSpace(ws)
    requires rest == [] || !IsSpace(rest[0])
    ensures TrimStart(ws + rest) == rest
  {
    if ws != [] {
      assert (ws + rest)[1..] == ws[1..] + rest;
      TrimStartOf(ws[1..], rest);
    } else {
      assert ws + rest == rest;
    }
  }

  /** Collapsing whitespace keeps a non-space first and last character. */
  lemma CollapseEdges(s: string)
    requires NoEdgeSpace(s)
    ensures NoEdgeSpace(CollapseSpaces(s))
  {
    if s != [] {
      CollapseLast(s);
    }
  }

  lemma {:induction false} CollapseLast(s: string)
    requires s != [] && !IsSpace(s[|s| - 1])
    ensures CollapseSpaces(s) != []
    ensures CollapseSpaces(s)[|CollapseSpaces(s)| - 1] == s[|s| - 1]
    decreases |s|
  {
    if |s| > 1 {
      var t := s[1..];
      assert t[|t| - 1] == s[|s| - 1];
      if IsSpace(s[0]) {
        var u := TrimStart(t);
        assert u != [] by {
          assert !AllSpace(t[..|t|]) by { assert !IsSpace(t[|t| - 1]); }
          assert t[..|t| - |u|] == t[..|t|] || u != [];
        }
        assert u[|u| - 1] == s[|s| - 1];
        CollapseLast(u);
      } else {
        CollapseLast(t);
      }
    }
  }
}

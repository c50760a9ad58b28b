/**
 * The image-to-product reconciler of the catalogue: given an image file name
 * shown on a category/size page and that page's product list, which product
 * does the image stand for? Three stages are tried in order: a hand-written
 * override table, an exact comparison of the file name with the part numbers,
 * and a keyword score. Products are referred to by their position in the list.
 */
module ImageProductMapping {
  import opened Wrappers
  import opened Seqs
  import opened Text
  import opened Catalog

  // ---------------------------------------------------------------- override table

  /** The category, size and part number that an override assigns to a file name. */
  datatype Override = Override(category: string, size: string, partNumber: string)

  /** The override table, keyed by exact file name. */
  const ImageProductMap: map<string, Override> := map[
    "430mm (17\") Benz Cover Assembly.png" :=
      Override("cover-assembly", "430", "G-BB4302-DCA"),
    "430mm (17\") Eicher Pro Cover Assembly.png" :=
      Override("cover-assembly", "430", "G-E4305-DCA"),
    "430mm (17\") Man Cover Assembly.png" :=
      Override("cover-assembly", "430", "G-M4311-DCA"),
    "430mm (17\") Prima Cover Assembly.png" :=
      Override("cover-assembly", "430", "G-BB4302-DCA"),
    "430mm (17 \") Prima Disc Assembly.png" :=
      Override("clutch-disc", "430", "430mm (17) Prima Disc Assembly"),
    "430mm (17\") Benz Disc Assembly.png" :=
      Override("clutch-disc", "430", "430mm (17) Benz Disc Assembly"),
    "430mm (17\") Eicher Pro Disc Assembly.png" :=
      Override("clutch-disc", "430", "G-E4306-CD"),
    "395mm(15.5) AL Diaphragm Cover Assembly.png" :=
      Override("cover-assembly", "395", "395mm(15.5) AL Diaphragm Cover Assembly"),
    "395mm(15.5\") Benz Diaphragm Cover Assembly.png" :=
      Override("cover-assembly", "395", "395mm(15.5) Benz Diaphragm Cover Assembly"),
    "395mm(15.5 \") Eicher Pro Diaphragm Assembly.png" :=
      Override("cover-assembly", "395", "395mm(15.5) Eicher Pro Diaphragm Assembly"),
    "395mm(15.5\") Mahindra Navistar Cover Assembly.png" :=
      Override("cover-assembly", "395", "395mm(15.5) Mahindra Navistar Cover Assembly"),
    "395mm(15.5) Mahindra Navistar Disc Assembly.png" :=
      Override("clutch-disc", "395", "395mm(15.5) Mahindra Navistar Disc Assembly"),
    "395mm(15.5\") 8 Pad Ceramic AL Clutch Disc Assembly.png" :=
      Override("clutch-disc", "395", "395mm(15.5) 8 Pad Ceramic AL Clutch Disc Assembly"),
    "395mm(15.5\") AL Organic Cushion Disc Assembly.png" :=
      Override("clutch-disc", "395", "395mm(15.5) AL Organic Cushion Disc Assembly"),
    "395mm(15.5\") Benz Clutch Disc Assembly.png" :=
      Override("clutch-disc", "395", "395mm(15.5) Benz Clutch Disc Assembly"),
    "395mm(15.5\") Ceramic & Organic Eicher Pro Disc Assembly.png" :=
      Override("clutch-disc", "395", "395mm(15.5) Ceramic & Organic Eicher Pro Disc Assembly"),
    "380mm (15\") Conventional Cover Assembly.png" :=
      Override("cover-assembly", "380", "380mm (15) Conventional Cover Assembly"),
    "380mm(15\") Diaphragm Cover Assembly.png" :=
      Override("cover-assembly", "380", "380mm(15) Diaphragm Cover Assembly"),
    "380mm (15')AL Clutch Disc Assembly.png" :=
      Override("clutch-disc", "380", "380mm (15')AL Clutch Disc Assembly"),
    "380mm (15\") Ceramic Clutch Disc Assembly.png" :=
      Override("clutch-disc", "380", "380mm (15) Ceramic Clutch Disc Assembly"),
    "380mm (15\") Organic Clutch Disc Assembly.png" :=
      Override("clutch-disc", "380", "380mm (15) Organic Clutch Disc Assembly"),
    "362mm (14.5\") M & M Diaphragm Cover Assembly.png" :=
      Override("cover-assembly", "360", "362mm (14.5) M & M Diaphragm Cover Assembly"),
    "362mm (14.5\") Benz Clutch Disc Assembly.png" :=
      Override("clutch-disc", "360", "362mm (14.5) Benz Clutch Disc Assembly"),
    "362mm (14.5\") M & M Clutch Disc Assembly.png" :=
      Override("clutch-disc", "360", "362mm (14.5) M & M Clutch Disc Assembly"),
    "352mm (14\") Conventational Cover Assembly.png" :=
      Override("cover-assembly", "350", "352mm (14) Conventational Cover Assembly"),
    "352mm (14\") Conventional CoverAssembly.png" :=
      Override("cover-assembly", "350", "352mm (14) Conventional CoverAssembly"),
    "352mm (14\") Ceramic Clutch Disc Assembly.png" :=
      Override("clutch-disc", "350", "G-T352-BD / G-T353-BD / G-AL352-BD"),
    "352mm (14\") Clutch Disc Assembly.png" :=
      Override("clutch-disc", "350", "G-T352-F510")
  ]

  // ---------------------------------------------------------------- normalisation

  /**
   * The two character classes of `normalizeFilename`: every character of
   * `doubles` becomes `"` and every character of `singles` becomes `'`.
   * They are kept as a parameter so that the typographic quote variants can
   * be supplied without fixing their code points here.
   */
  datatype QuoteVariants = QuoteVariants(doubles: set<char>, singles: set<char>)

  /** The classes as the repository's text spells them: the ASCII quotes only. */
  const AsciiQuotes := QuoteVariants({'"'}, {'\''})

  /** Quote classes hold quote-like marks: no whitespace, no ASCII letters, and
      neither class contains the other class's replacement character. */
  predicate WellFormed(q: QuoteVariants) {
    && (forall c | c in q.doubles :: !IsSpace(c) && !IsAsciiLetter(c))
    && (forall c | c in q.singles :: !IsSpace(c) && !IsAsciiLetter(c))
    && '\'' !in q.doubles
    && '"' !in q.singles
  }

  /** The classes as written are well formed. */
  lemma AsciiWellFormed()
    ensures WellFormed(AsciiQuotes)
  {
  }

  /** The two quote replacements on one character, in the source's order. */
  function QuoteChar(q: QuoteVariants, c: char): char {
    var d := if c in q.doubles then '"' else c;
    if d in q.singles then '\'' else d
  }

  function MapQuotes(q: QuoteVariants, s: string): string {
    seq(|s|, i requires 0 <= i < |s| => QuoteChar(q, s[i]))
  }

  /** `normalizeFilename`: unify quotes, collapse whitespace runs to one space, trim. */
  function NormalizeFilename(q: QuoteVariants, s: string): string {
    Trim(CollapseSpaces(MapQuotes(q, s)))
  }

  /** A string `normalizeFilename` has nothing left to change in. */
  predicate Canonical(q: QuoteVariants, s: string) {
    && (forall i | 0 <= i < |s| :: QuoteChar(q, s[i]) == s[i])
    && Spaced(s)
    && NoEdgeSpace(s)
  }

  lemma QuoteCharFixed(q: QuoteVariants, c: char)
    requires WellFormed(q)
    ensures QuoteChar(q, QuoteChar(q, c)) == QuoteChar(q, c)
    ensures QuoteChar(q, ' ') == ' '
  {
  }

  /** With the ASCII classes, the quote replacements change nothing. */
  lemma AsciiQuotesKeep(s: string)
    ensures MapQuotes(AsciiQuotes, s) == s
  {
  }

  /** Whatever `normalizeFilename` returns is canonical. */
  lemma NormalizeIsCanonical(q: QuoteVariants, s: string)
    requires WellFormed(q)
    ensures Canonical(q, NormalizeFilename(q, s))
  {
    var m := MapQuotes(q, s);
    var c := CollapseSpaces(m);
    var n := Trim(c);
    TrimKeeps(c);
    CollapseKeeps(m);
    TrimSpaced(c);
    forall i | 0 <= i < |n| ensures QuoteChar(q, n[i]) == n[i] {
      assert n[i] in c;
      if n[i] != ' ' {
        assert n[i] in m;
        var k :| 0 <= k < |m| && m[k] == n[i];
        QuoteCharFixed(q, s[k]);
      }
    }
  }

  /** Canonical strings are exactly the fixed points of `normalizeFilename`. */
  lemma NormalizeFixedPoints(q: QuoteVariants, s: string)
    requires WellFormed(q)
    ensures NormalizeFilename(q, s) == s <==> Canonical(q, s)
  {
    if Canonical(q, s) {
      assert MapQuotes(q, s) == s;
      CollapseFixed(s);
      TrimFixed(s);
    } else if NormalizeFilename(q, s) == s {
      NormalizeIsCanonical(q, s);
    }
  }

  /** Normalising twice is normalising once. */
  lemma NormalizeIdempotent(q: QuoteVariants, s: string)
    requires WellFormed(q)
    ensures NormalizeFilename(q, NormalizeFilename(q, s)) == NormalizeFilename(q, s)
  {
    NormalizeIsCanonical(q, s);
    NormalizeFixedPoints(q, NormalizeFilename(q, s));
  }

  /** Quote-like marks neither replace a letter nor become one. */
  lemma QuoteCharLetter(q: QuoteVariants, c: char)
    requires WellFormed(q)
    ensures IsAsciiLetter(QuoteChar(q, c)) <==> IsAsciiLetter(c)
    ensures IsAsciiLetter(c) ==> QuoteChar(q, c) == c
  {
  }

  lemma {:induction false} MapQuotesLetters(q: QuoteVariants, s: string)
    requires WellFormed(q)
    ensures Letters(MapQuotes(q, s)) == Letters(s)
    decreases |s|
  {
    if s != [] {
      var m := MapQuotes(q, s);
      assert m[0] == QuoteChar(q, s[0]) && m[1..] == MapQuotes(q, s[1..]);
      QuoteCharLetter(q, s[0]);
      MapQuotesLetters(q, s[1..]);
    }
  }

  /** `normalizeFilename` changes no letter: every ASCII letter of the result is
      a character of the argument, and with well-formed quote classes the
      letters of the result, in order, are exactly the letters of the argument,
      so none is dropped, added or changed in case. */
  lemma NormalizeKeepsLetters(q: QuoteVariants, s: string)
    ensures forall c :: c in NormalizeFilename(q, s) && IsAsciiLetter(c) ==> c in s
    ensures WellFormed(q) ==> Letters(NormalizeFilename(q, s)) == Letters(s)
  {
    var m := MapQuotes(q, s);
    var c := CollapseSpaces(m);
    TrimKeeps(c);
    CollapseKeeps(m);
    forall ch | ch in NormalizeFilename(q, s) && IsAsciiLetter(ch) ensures ch in s {
      assert ch in m;
      var k :| 0 <= k < |m| && m[k] == ch;
      assert QuoteChar(q, s[k]) == ch;
    }
    if WellFormed(q) {
      MapQuotesLetters(q, s);
      CollapseLetters(m);
      TrimLetters(c);
    }
  }

  lemma QuoteCharLower(q: QuoteVariants, c: char)
    requires WellFormed(q)
    ensures QuoteChar(q, Lower(c)) == Lower(QuoteChar(q, c))
  {
    if 'A' <= c <= 'Z' {
      assert IsAsciiLetter(c) && IsAsciiLetter(Lower(c));
    }
  }

  /** Lower-casing before or after normalising gives the same string. */
  lemma NormalizeLower(q: QuoteVariants, s: string)
    requires WellFormed(q)
    ensures NormalizeFilename(q, LowerStr(s)) == LowerStr(NormalizeFilename(q, s))
  {
    forall i | 0 <= i < |s| ensures MapQuotes(q, LowerStr(s))[i] == LowerStr(MapQuotes(q, s))[i] {
      QuoteCharLower(q, s[i]);
    }
    assert MapQuotes(q, LowerStr(s)) == LowerStr(MapQuotes(q, s));
    CollapseLower(MapQuotes(q, s));
    TrimLower(CollapseSpaces(MapQuotes(q, s)));
  }

  // ---------------------------------------------------------------- keywords

  /** The tokens that never count as keywords. */
  const StopWords: seq<string> := ["mm", "pad", "al", "clutch", "disc", "assembly", "cover"]

  /** `replace(/^\d+mm[^a-z]*\/, '')`: a size prefix and the non-letters after it. */
  function StripSizeLead(s: string): (r: string)
    ensures |r| <= |s| && r == s[|s| - |r|..]
    ensures MmNumber(s).None? ==> r == s
  {
    match MmNumber(s)
    case None => s
    case Some(d) => DropNonLower(s[|d| + 2..])
  }

  predicate NoLowerLetter(s: string) {
    forall i :: 0 <= i < |s| ==> !IsLowerLetter(s[i])
  }

  /** The string after its leading run of characters other than `a`-`z`. */
  function DropNonLower(s: string): (r: string)
    ensures |r| <= |s| && r == s[|s| - |r|..]
    ensures r == [] || IsLowerLetter(r[0])
    ensures NoLowerLetter(s[..|s| - |r|])
  {
    if s != [] && !IsLowerLetter(s[0]) then
      var r := DropNonLower(s[1..]);
      assert s[..|s| - |r|] == [s[0]] + s[1..][..|s| - 1 - |r|];
      r
    else s
  }

  /** The size prefix goes together with the non-letters after it, and nothing else. */
  lemma StripSizeLeadOf(d: string, sep: string, rest: string)
    requires d != [] && forall i :: 0 <= i < |d| ==> IsDigit(d[i])
    requires NoLowerLetter(sep)
    requires rest == [] || IsLowerLetter(rest[0])
    ensures StripSizeLead(d + "mm" + sep + rest) == rest
  {
    var s := d + "mm" + sep + rest;
    assert s == d + "mm" + (sep + rest);
    MmNumberOf(d, sep + rest);
    assert s[|d| + 2..] == sep + rest;
    DropNonLowerOf(sep, rest);
  }

  lemma {:induction false} DropNonLowerOf(sep: string, rest: string)
    requires NoLowerLetter(sep)
    requires rest == [] || IsLowerLetter(rest[0])
    ensures DropNonLower(sep + rest) == rest
  {
    if sep != [] {
      assert (sep + rest)[1..] == sep[1..] + rest;
      DropNonLowerOf(sep[1..], rest);
    }
  }

  /** `replace(/\.png$/, '')`. */
  function StripPng(s: string): (r: string)
    ensures EndsWith(s, ".png") ==> r + ".png" == s
    ensures !EndsWith(s, ".png") ==> r == s
  {
    if EndsWith(s, ".png") then s[..|s| - 4] else s
  }

  /** `/\.png$/i` matches: the name ends in `.png` in any letter case. */
  predicate EndsWithPngIgnoreCase(s: string) {
    |s| >= 4 && s[|s| - 4] == '.' && Lower(s[|s| - 3]) == 'p'
    && Lower(s[|s| - 2]) == 'n' && Lower(s[|s| - 1]) == 'g'
  }

  /** `replace(/\.png$/i, '')`. */
  function StripPngIgnoreCase(s: string): (r: string)
    ensures EndsWithPngIgnoreCase(s) ==> |r| + 4 == |s| && r == s[..|r|]
    ensures !EndsWithPngIgnoreCase(s) ==> r == s
  {
    if EndsWithPngIgnoreCase(s) then s[..|s| - 4] else s
  }

  predicate IsKeyword(token: string) {
    |token| > 2 && token !in StopWords
  }

  /** The tokens of a file name before the keyword filter: lower-cased,
      normalised, without its size lead and `.png`, split on whitespace. */
  function KeywordTokens(q: QuoteVariants, filename: string): seq<string> {
    SplitOnSpaces(StripPng(StripSizeLead(NormalizeFilename(q, LowerStr(filename)))))
  }

  /** The tokens longer than two characters that are not stop words, all of
      them, repeats included, and in token order. */
  function KeywordFilter(tokens: seq<string>): (kws: seq<string>)
    ensures forall k | k in kws :: IsKeyword(k) && k in tokens
    ensures IsSubsequence(kws, tokens)
    ensures forall t | t in tokens :: IsKeyword(t) ==> t in kws
    ensures forall t :: multiset(kws)[t] == if IsKeyword(t) then multiset(tokens)[t] else 0
  {
    FilterSpec(tokens, IsKeyword);
    FilterCount(tokens, IsKeyword);
    Filter(tokens, IsKeyword)
  }

  /** The keywords `findBestMatchByKeywords` extracts from a file name: the
      qualifying tokens of the name, all of them and in token order. */
  function Keywords(q: QuoteVariants, filename: string): (kws: seq<string>)
    ensures forall k | k in kws :: |k| > 2 && k !in StopWords && !HasSpace(k)
    ensures IsSubsequence(kws, KeywordTokens(q, filename))
    ensures forall t | t in KeywordTokens(q, filename) :: IsKeyword(t) ==> t in kws
    ensures forall t :: multiset(kws)[t] == if IsKeyword(t) then multiset(KeywordTokens(q, filename))[t] else 0
  {
    var tokens := KeywordTokens(q, filename);
    assert forall k | k in tokens :: !HasSpace(k);
    KeywordFilter(tokens)
  }

  // ---------------------------------------------------------------- scoring

  /** The lowercased, normalised part number that the scorer searches. */
  function PartText(q: QuoteVariants, p: Product): string {
    NormalizeFilename(q, LowerStr(p.partNumber.GetOr("")))
  }

  /** Part number, model application and special features, space separated. */
  function ProductText(q: QuoteVariants, p: Product): string {
    PartText(q, p) + " " + LowerStr(p.modelApplication.GetOr("")) + " "
      + LowerStr(p.specialFeatures.GetOr(""))
  }

  /** The searched text holds the part number, the model application and the
      special features, each lower-cased. */
  lemma ProductTextParts(q: QuoteVariants, p: Product)
    ensures Contains(ProductText(q, p), PartText(q, p))
    ensures Contains(ProductText(q, p), LowerStr(p.modelApplication.GetOr("")))
    ensures Contains(ProductText(q, p), LowerStr(p.specialFeatures.GetOr("")))
  {
    ContainsEachOfThree(PartText(q, p), LowerStr(p.modelApplication.GetOr("")),
                        LowerStr(p.specialFeatures.GetOr("")));
  }

  /** The summed lengths of the keywords (repeats included) that occur in `text`. */
  function HitLength(kws: seq<string>, text: string): nat {
    if kws == [] then 0
    else
      var k := kws[|kws| - 1];
      HitLength(kws[..|kws| - 1], text) + (if Contains(text, k) then |k| else 0)
  }

  /** Some keyword occurs in `text` (`keywords.some(k => text.includes(k))`). */
  predicate AnyHit(kws: seq<string>, text: string) {
    kws != [] && (Contains(text, kws[0]) || AnyHit(kws[1..], text))
  }

  /** A product's score: the hit length, doubled when a keyword is in its part number. */
  function Score(q: QuoteVariants, kws: seq<string>, p: Product): nat {
    var base := HitLength(kws, ProductText(q, p));
    if AnyHit(kws, PartText(q, p)) then 2 * base else base
  }

  function Scores(q: QuoteVariants, kws: seq<string>, products: seq<Product>): (r: seq<nat>)
    ensures |r| == |products|
    ensures forall i :: 0 <= i < |r| ==> r[i] == Score(q, kws, products[i])
  {
    seq(|products|, i requires 0 <= i < |products| => Score(q, kws, products[i]))
  }

  /** The score at an optional position, 0 for none. */
  function ScoreAt(scores: seq<nat>, r: Option<nat>): nat {
    match r
    case None => 0
    case Some(i) => if i < |scores| then scores[i] else 0
  }

  /** The position a strict-improvement scan from a best score of 0 keeps:
      the first position of the largest score, if that score is positive. */
  function BestIndex(scores: seq<nat>): (r: Option<nat>)
    ensures r.None? <==> forall j :: 0 <= j < |scores| ==> scores[j] == 0
    ensures r.Some? ==> r.value < |scores| && scores[r.value] > 0
    ensures r.Some? ==> forall j :: 0 <= j < |scores| ==> scores[j] <= scores[r.value]
    ensures r.Some? ==> forall j :: 0 <= j < r.value ==> scores[j] < scores[r.value]
  {
    if scores == [] then None
    else
      var init := scores[..|scores| - 1];
      var prev := BestIndex(init);
      if scores[|scores| - 1] > ScoreAt(init, prev) then Some(|scores| - 1) else prev
  }

  /** One more score: it takes over only when it is strictly larger. */
  lemma BestIndexSnoc(scores: seq<nat>, x: nat)
    ensures BestIndex(scores + [x])
      == if x > ScoreAt(scores, BestIndex(scores)) then Some(|scores|) else BestIndex(scores)
  {
    assert (scores + [x])[..|scores|] == scores;
  }

  /** The strict-improvement scan, one position further. */
  lemma BestIndexStep(scores: seq<nat>, i: nat)
    requires i < |scores|
    ensures var prev := BestIndex(scores[..i]);
      var best := ScoreAt(scores[..i], prev);
      && BestIndex(scores[..i + 1]) == (if scores[i] > best then Some(i) else prev)
      && ScoreAt(scores[..i + 1], BestIndex(scores[..i + 1])) == (if scores[i] > best then scores[i] else best)
  {
    PrefixSnoc(scores, i);
    BestIndexSnoc(scores[..i], scores[i]);
  }

  /** What the keyword stage returns. */
  function KeywordMatch(q: QuoteVariants, filename: string, products: seq<Product>): (r: Option<nat>)
    ensures Keywords(q, filename) == [] ==> r.None?
    ensures r.Some? ==> r.value < |products|
    ensures r.Some? ==> Score(q, Keywords(q, filename), products[r.value]) > 0
    ensures r.Some? ==> forall j :: 0 <= j < |products| ==>
      Score(q, Keywords(q, filename), products[j]) <= Score(q, Keywords(q, filename), products[r.value])
    ensures r.Some? ==> forall j :: 0 <= j < r.value ==>
      Score(q, Keywords(q, filename), products[j]) < Score(q, Keywords(q, filename), products[r.value])
    ensures r.None? && Keywords(q, filename) != [] ==>
      forall j :: 0 <= j < |products| ==> Score(q, Keywords(q, filename), products[j]) == 0
  {
    var kws := Keywords(q, filename);
    if kws == [] then None
    else
      var scores := Scores(q, kws, products);
      var r := BestIndex(scores);
      assert r.Some? ==> forall j :: 0 <= j < |products| ==>
        Score(q, kws, products[j]) <= Score(q, kws, products[r.value]) by {
        if r.Some? {
          forall j | 0 <= j < |products|
            ensures Score(q, kws, products[j]) <= Score(q, kws, products[r.value])
          {
            assert scores[j] <= scores[r.value];
          }
        }
      }
      r
  }

  /** One pass of the outer loop of `findBestMatchByKeywords`: a product's score. */
  method ScoreProduct(q: QuoteVariants, keywords: seq<string>, product: Product) returns (score: nat)
    ensures score == Score(q, keywords, product)
  {
    var partNumber := NormalizeFilename(q, LowerStr(product.partNumber.GetOr("")));
    var modelApp := LowerStr(product.modelApplication.GetOr(""));
    var features := LowerStr(product.specialFeatures.GetOr(""));
    var productText := partNumber + " " + modelApp + " " + features;
    score := 0;
    var j := 0;
    while j < |keywords|
      invariant 0 <= j <= |keywords|
      invariant score == HitLength(keywords[..j], productText)
    {
      assert keywords[..j + 1][..j] == keywords[..j];
      if Contains(productText, keywords[j]) {
        score := score + |keywords[j]|;
      }
      j := j + 1;
    }
    assert keywords[..j] == keywords;
    if AnyHit(keywords, partNumber) {
      score := score * 2;
    }
  }

  /** The product loop of `findBestMatchByKeywords`: keep a product only when
      its score beats the best so far, starting from 0. */
  method PickBestProduct(q: QuoteVariants, keywords: seq<string>, products: seq<Product>)
    returns (bestMatch: Option<nat>)
    ensures bestMatch == BestIndex(Scores(q, keywords, products))
  {
    ghost var scores := Scores(q, keywords, products);
    bestMatch := None;
    var bestScore: nat := 0;
    var i := 0;
    while i < |products|
      invariant 0 <= i <= |products|
      invariant bestMatch == BestIndex(scores[..i])
      invariant bestScore == ScoreAt(scores[..i], bestMatch)
    {
      var score := ScoreProduct(q, keywords, products[i]);
      BestIndexStep(scores, i);
      if score > bestScore {
        bestScore := score;
        bestMatch := Some(i);
      }
      i := i + 1;
    }
    assert scores[..i] == scores;
  }

  /** `findBestMatchByKeywords`, returning the position of the product. */
  method FindBestMatchByKeywords(q: QuoteVariants, filename: string, products: seq<Product>)
    returns (bestMatch: Option<nat>)
    ensures bestMatch == KeywordMatch(q, filename, products)
  {
    var keywords := Keywords(q, filename);
    if |keywords| == 0 {
      return None;
    }
    bestMatch := PickBestProduct(q, keywords, products);
  }

  // ---------------------------------------------------------------- the cascade

  /** The lookup `findProductByPartNumber` performs: exact or case-insensitive equality. */
  predicate PartNumberMatches(p: Product, partNumber: string) {
    p.partNumber.Some?
    && (p.partNumber.value == partNumber || LowerStr(p.partNumber.value) == LowerStr(partNumber))
  }

  /** `findProductByPartNumber`: the first product whose part number matches. */
  function FindProductByPartNumber(products: seq<Product>, partNumber: string): (r: Option<nat>)
    ensures r.Some? ==> r.value < |products| && PartNumberMatches(products[r.value], partNumber)
    ensures r.Some? ==> forall j :: 0 <= j < r.value ==> !PartNumberMatches(products[j], partNumber)
    ensures r.None? <==> forall j :: 0 <= j < |products| ==> !PartNumberMatches(products[j], partNumber)
  {
    FirstIndex(products, p => PartNumberMatches(p, partNumber))
  }

  /** The first stage: the override for the file name, if it names this page. */
  function OverrideMatch(filename: string, category: string, size: string, products: seq<Product>): (r: Option<nat>)
    ensures r.Some? ==>
      && filename in ImageProductMap
      && ImageProductMap[filename].category == category
      && ImageProductMap[filename].size == size
      && r == FindProductByPartNumber(products, ImageProductMap[filename].partNumber)
  {
    if filename in ImageProductMap
      && ImageProductMap[filename].category == category
      && ImageProductMap[filename].size == size
    then FindProductByPartNumber(products, ImageProductMap[filename].partNumber)
    else None
  }

  /** `filename.replace(/\.png$/i, '').trim()`. */
  function BaseName(filename: string): string {
    Trim(StripPngIgnoreCase(filename))
  }

  /** A name with a `.png` extension in any letter case has the trimmed name
      as its base name. */
  lemma BaseNameOf(name: string, ext: string)
    requires |ext| == 4 && ext[0] == '.' && Lower(ext[1]) == 'p' && Lower(ext[2]) == 'n' && Lower(ext[3]) == 'g'
    ensures BaseName(name + ext) == Trim(name)
    ensures NoEdgeSpace(BaseName(name + ext))
  {
    assert EndsWithPngIgnoreCase(name + ext);
    assert (name + ext)[..|name|] == name;
  }

  /** The second stage's test of one product against the file's base name. */
  predicate ExactHit(q: QuoteVariants, p: Product, base: string) {
    p.partNumber.Some? && p.partNumber.value != ""
    && (NormalizeFilename(q, p.partNumber.value) == NormalizeFilename(q, base)
        || p.partNumber.value == base)
  }

  /** The second stage: the first product whose part number equals the base name. */
  function ExactTextMatch(q: QuoteVariants, filename: string, products: seq<Product>): (r: Option<nat>)
    ensures r.Some? ==> r.value < |products| && ExactHit(q, products[r.value], BaseName(filename))
    ensures r.Some? ==> forall j :: 0 <= j < r.value ==> !ExactHit(q, products[j], BaseName(filename))
    ensures r.None? <==> forall j :: 0 <= j < |products| ==> !ExactHit(q, products[j], BaseName(filename))
  {
    FirstIndex(products, p => ExactHit(q, p, BaseName(filename)))
  }

  /** `getProductForImage`: the first stage that finds a product decides. */
  function GetProductForImage(q: QuoteVariants, filename: string, category: string, size: string,
                              products: seq<Product>): (r: Option<nat>)
    ensures r.Some? ==> r.value < |products|
    ensures products == [] ==> r.None?
    ensures r.None? <==>
      && OverrideMatch(filename, category, size, products).None?
      && (forall j :: 0 <= j < |products| ==> !ExactHit(q, products[j], BaseName(filename)))
      && (Keywords(q, filename) == []
          || forall j :: 0 <= j < |products| ==> Score(q, Keywords(q, filename), products[j]) == 0)
  {
    var byOverride := OverrideMatch(filename, category, size, products);
    if byOverride.Some? then byOverride
    else
      var exact := ExactTextMatch(q, filename, products);
      if exact.Some? then exact
      else KeywordMatch(q, filename, products)
  }

  /** A page's override, when one of its products carries the override's part
      number, decides: the result is the first such product. */
  lemma OverridePrecedence(q: QuoteVariants, filename: string, category: string, size: string,
                           products: seq<Product>, i: nat)
    requires filename in ImageProductMap
    requires ImageProductMap[filename].category == category && ImageProductMap[filename].size == size
    requires i < |products| && PartNumberMatches(products[i], ImageProductMap[filename].partNumber)
    requires forall j :: 0 <= j < i ==> !PartNumberMatches(products[j], ImageProductMap[filename].partNumber)
    ensures GetProductForImage(q, filename, category, size, products) == Some(i)
  {
    var r := FindProductByPartNumber(products, ImageProductMap[filename].partNumber);
    assert r.Some?;
  }

  /** The exact-text stage decides only when the override stage found nothing,
      and then it picks the first product whose part number equals the base name. */
  lemma ExactStage(q: QuoteVariants, filename: string, category: string, size: string,
                   products: seq<Product>, i: nat)
    requires OverrideMatch(filename, category, size, products).None?
    requires i < |products| && ExactHit(q, products[i], BaseName(filename))
    requires forall j :: 0 <= j < i ==> !ExactHit(q, products[j], BaseName(filename))
    ensures GetProductForImage(q, filename, category, size, products) == Some(i)
  {
    var r := ExactTextMatch(q, filename, products);
    assert r.Some?;
  }

  /** With no override product and no exact hit, the keyword stage decides. */
  lemma KeywordStage(q: QuoteVariants, filename: string, category: string, size: string,
                     products: seq<Product>)
    requires OverrideMatch(filename, category, size, products).None?
    requires forall j :: 0 <= j < |products| ==> !ExactHit(q, products[j], BaseName(filename))
    ensures GetProductForImage(q, filename, category, size, products) == KeywordMatch(q, filename, products)
  {
    assert ExactTextMatch(q, filename, products).None?;
  }

  /** `AnyHit` is the `some` over the keywords it stands for. */
  lemma {:induction false} AnyHitExists(kws: seq<string>, text: string)
    ensures AnyHit(kws, text) <==> exists k | k in kws :: Contains(text, k)
  {
    if kws != [] {
      AnyHitExists(kws[1..], text);
      assert kws == [kws[0]] + kws[1..];
      if exists k | k in kws :: Contains(text, k) {
        var k :| k in kws && Contains(text, k);
        assert k == kws[0] || k in kws[1..];
      }
    }
  }

  /** With non-empty keywords, the summed hit length is positive exactly when a keyword occurs. */
  lemma {:induction false} HitLengthPositive(kws: seq<string>, text: string)
    requires forall k | k in kws :: k != []
    ensures HitLength(kws, text) > 0 <==> exists k | k in kws :: Contains(text, k)
  {
    if kws != [] {
      var init := kws[..|kws| - 1];
      var last := kws[|kws| - 1];
      assert kws == init + [last];
      assert forall k | k in init :: k in kws;
      HitLengthPositive(init, text);
      assert last in kws;
      if HitLength(kws, text) > 0 && !Contains(text, last) {
        assert HitLength(init, text) > 0;
      }
    }
  }

  /** With non-empty keywords, a product scores above 0 exactly when one of the
      keywords occurs in the joined product text: the part number, model
      application and special features, separated by spaces. */
  lemma ScorePositive(q: QuoteVariants, kws: seq<string>, p: Product)
    requires forall k | k in kws :: k != []
    ensures Score(q, kws, p) > 0 <==> exists k | k in kws :: Contains(ProductText(q, p), k)
  {
    HitLengthPositive(kws, ProductText(q, p));
  }

  /** A keyword in the part number is also in the product text, so the doubling
      bonus is only ever applied to a positive score. */
  lemma PartHitScores(q: QuoteVariants, kws: seq<string>, p: Product)
    requires forall k | k in kws :: k != []
    requires AnyHit(kws, PartText(q, p))
    ensures Score(q, kws, p) == 2 * HitLength(kws, ProductText(q, p)) > 0
  {
    AnyHitExists(kws, PartText(q, p));
    var k :| k in kws && Contains(PartText(q, p), k);
    var part := PartText(q, p);
    var model := LowerStr(p.modelApplication.GetOr(""));
    var features := LowerStr(p.specialFeatures.GetOr(""));
    ContainsExtend(part, " ", k);
    ContainsExtend(part + " ", model, k);
    ContainsExtend(part + " " + model, " ", k);
    ContainsExtend(part + " " + model + " ", features, k);
    HitLengthPositive(kws, ProductText(q, p));
  }
}

/** Worked examples of the image-to-product reconciler on catalogue file names. */
module ImageProductExamples {
  import opened Wrappers
  import opened Seqs
  import opened Text
  import opened Catalog
  import opened ImageProductMapping

  /** The override stage wins over an exact-text stage that would choose differently. */
  lemma OverrideBeatsExactMatch()
    ensures var filename := "430mm (17\") Eicher Pro Cover Assembly.png";
      var products := [
        Product(Some("430mm (17\") Eicher Pro Cover Assembly"), None, None, None),
        Product(Some("G-E4305-DCA"), None, None, None)];
      && ExactTextMatch(AsciiQuotes, filename, products) == Some(0)
      && GetProductForImage(AsciiQuotes, filename, "cover-assembly", "430", products) == Some(1)
  {
    EicherCoverExact();
    EicherCoverOverride();
  }

  /** The name without its extension is the first product's part number. */
  lemma EicherCoverExact()
    ensures ExactTextMatch(AsciiQuotes, "430mm (17\") Eicher Pro Cover Assembly.png", [
        Product(Some("430mm (17\") Eicher Pro Cover Assembly"), None, None, None),
        Product(Some("G-E4305-DCA"), None, None, None)]) == Some(0)
  {
    EicherCoverBase();
    var base := "430mm (17\") Eicher Pro Cover Assembly";
    var products := [
      Product(Some(base), None, None, None),
      Product(Some("G-E4305-DCA"), None, None, None)];
    assert ExactHit(AsciiQuotes, products[0], base);
  }

  lemma EicherCoverBase()
    ensures BaseName("430mm (17\") Eicher Pro Cover Assembly.png") == "430mm (17\") Eicher Pro Cover Assembly"
  {
    var filename := "430mm (17\") Eicher Pro Cover Assembly.png";
    var base := "430mm (17\") Eicher Pro Cover Assembly";
    assert EndsWithPngIgnoreCase(filename);
    assert StripPngIgnoreCase(filename) == base;
    TrimFixed(base);
  }

  /** The override table sends the name to the second product. */
  lemma EicherCoverOverride()
    ensures GetProductForImage(AsciiQuotes, "430mm (17\") Eicher Pro Cover Assembly.png", "cover-assembly", "430", [
        Product(Some("430mm (17\") Eicher Pro Cover Assembly"), None, None, None),
        Product(Some("G-E4305-DCA"), None, None, None)]) == Some(1)
  {
    var filename := "430mm (17\") Eicher Pro Cover Assembly.png";
    var products := [
      Product(Some("430mm (17\") Eicher Pro Cover Assembly"), None, None, None),
      Product(Some("G-E4305-DCA"), None, None, None)];
    assert ImageProductMap[filename] == Override("cover-assembly", "430", "G-E4305-DCA");
    assert LowerStr("430mm (17\") Eicher Pro Cover Assembly")[0] == '4';
    assert LowerStr("G-E4305-DCA")[0] == 'g';
    assert !PartNumberMatches(products[0], "G-E4305-DCA");
    OverridePrecedence(AsciiQuotes, filename, "cover-assembly", "430", products, 1);
  }
}

/**
 * How the two hand-written tables relate: the override table of the
 * reconciler (lib/imageProductMapping.ts) and the per-size file table of the
 * image selector (lib/imageMapping.ts) both list the exact names of the image
 * files.
 */
module TableAgreement {
  import opened ImageProductMapping
  import opened ImageMapping

  /** The sizes the file table has rows for. */
  const Sizes: set<string> := {"430", "395", "380", "360", "350"}

  /** Every override names one of the two categories with images and one of
      the five sizes. */
  lemma OverrideCategoriesAndSizes()
    ensures forall fn :: fn in ImageProductMap ==>
      && ImageProductMap[fn].category in {"cover-assembly", "clutch-disc"}
      && ImageProductMap[fn].size in Sizes
  {
  }

  /** Every file name with an override is listed in the file table under the
      override's size. */
  lemma KeysInRows()
    ensures forall fn :: fn in ImageProductMap ==> fn in FilesFor(ImageProductMap[fn].size)
  {
  }

  lemma Row430InMap()
    ensures forall fn :: fn in FilesFor("430") ==> fn in ImageProductMap
  {
  }

  lemma Row395InMap()
    ensures forall fn :: fn in FilesFor("395") ==> fn in ImageProductMap
  {
  }

  lemma Row380InMap()
    ensures forall fn :: fn in FilesFor("380") ==> fn in ImageProductMap
  {
  }

  lemma Row360InMap()
    ensures forall fn :: fn in FilesFor("360") ==> fn in ImageProductMap
  {
  }

  lemma Row350InMap()
    ensures forall fn :: fn in FilesFor("350") ==> fn in ImageProductMap
  {
  }

  lemma Row430Apart()
    ensures forall fn :: fn in FilesFor("430") ==> fn !in FilesFor("395") && fn !in FilesFor("380") && fn !in FilesFor("360") && fn !in FilesFor("350")
  {
  }

  lemma Row395Apart()
    ensures forall fn :: fn in FilesFor("395") ==> fn !in FilesFor("380") && fn !in FilesFor("360") && fn !in FilesFor("350")
  {
  }

  lemma Row380Apart()
    ensures forall fn :: fn in FilesFor("380") ==> fn !in FilesFor("360") && fn !in FilesFor("350")
  {
  }

  lemma Row360Apart()
    ensures forall fn :: fn in FilesFor("360") ==> fn !in FilesFor("350")
  {
  }

  /** No file is listed under two sizes. */
  lemma RowsDisjoint()
    ensures forall s1, s2, fn :: s1 in Sizes && s2 in Sizes && fn in FilesFor(s1) && fn in FilesFor(s2) ==> s1 == s2
  {
    Row430Apart();
    Row395Apart();
    Row380Apart();
    Row360Apart();
  }

  /** Every file the table lists under one of the sizes has an override. */
  lemma RowsInMap()
    ensures forall size, fn :: size in Sizes && fn in FilesFor(size) ==> fn in ImageProductMap
  {
    Row430InMap();
    Row395InMap();
    Row380InMap();
    Row360InMap();
    Row350InMap();
  }

  /** When every listed file has an override, every override's file is listed
      under the override's size and no file is listed twice, each listed file's
      override has the size it is listed under. */
  lemma RowSizesOf(m: map<string, Override>, rows: string -> seq<string>, sizes: set<string>)
    requires forall z, fn :: z in sizes && fn in rows(z) ==> fn in m
    requires forall fn :: fn in m ==> m[fn].size in sizes && fn in rows(m[fn].size)
    requires forall s1, s2, fn :: s1 in sizes && s2 in sizes && fn in rows(s1) && fn in rows(s2) ==> s1 == s2
    ensures forall z, fn :: z in sizes && fn in rows(z) ==> fn in m && m[fn].size == z
  {
  }

  /** The file table and the override table name the same files: every listed
      file has an override for the size it is listed under, and every
      override's file is listed under the override's size. */
  lemma RowsAreKeys()
    ensures forall size, fn :: size in Sizes && fn in FilesFor(size) ==>
      fn in ImageProductMap && ImageProductMap[fn].size == size
    ensures forall fn :: fn in ImageProductMap ==> fn in FilesFor(ImageProductMap[fn].size)
  {
    RowsInMap();
    KeysInRows();
    OverrideCategoriesAndSizes();
    RowsDisjoint();
    RowSizesOf(ImageProductMap, FilesFor, Sizes);
  }
}

/**
 * Worked examples of the category image selector on the 430 mm row of the
 * file table, and of the alt text derived from one of its names.
 */
module ImageMappingExamples {
  import opened Seqs
  import opened Text
  import opened ImageMapping

  // ------------------------------------------------------------- keywords

  const CoverList: seq<string> := [
    "Cover Assembly", "CoverAssembly", "Diaphragm Cover Assembly",
    "Diaphragm Assembly", "Conventional Cover Assembly", "Conventational Cover Assembly"]

  const ClutchList: seq<string> := [
    "Clutch Disc Assembly", "Disc Assembly", "Clutch Disc", "Ceramic Clutch Disc",
    "Organic Clutch Disc", "AL Clutch Disc", "Ceramic & Organic", "8 Pad Ceramic",
    "AL Organic Cushion Disc", "Mahindra Navistar Disc"]

  /** Characters every cover-assembly keyword has, lower-cased, at least four
      characters before its end. */
  const CoverMarks: set<char> := {'v', 'g'}

  /** The same for the clutch-disc keywords. */
  const ClutchMarks: set<char> := {'d', '&', 't', 'u'}

  lemma CoverKeywords()
    ensures KeywordsFor("cover-assembly") == CoverList
  {
  }

  lemma ClutchKeywords()
    ensures KeywordsFor("clutch-disc") == ClutchList
  {
  }

  lemma CoverMarkedA()
    ensures forall k :: k in CoverList[..3] ==> MarkedBefore(LowerStr(k), CoverMarks, 4)
  {
    assert LowerStr("Cover Assembly")[2] == 'v';
    assert LowerStr("CoverAssembly")[2] == 'v';
    assert LowerStr("Diaphragm Cover Assembly")[7] == 'g';
  }

  lemma CoverMarkedB()
    ensures forall k :: k in CoverList[3..] ==> MarkedBefore(LowerStr(k), CoverMarks, 4)
  {
    assert LowerStr("Diaphragm Assembly")[7] == 'g';
    assert LowerStr("Conventional Cover Assembly")[3] == 'v';
    assert LowerStr("Conventational Cover Assembly")[3] == 'v';
  }

  lemma ClutchMarkedA()
    ensures forall k :: k in ClutchList[..3] ==> MarkedBefore(LowerStr(k), ClutchMarks, 4)
  {
    assert LowerStr("Clutch Disc Assembly")[3] == 't';
    assert LowerStr("Disc Assembly")[0] == 'd';
    assert LowerStr("Clutch Disc")[3] == 't';
  }

  lemma ClutchMarkedB()
    ensures forall k :: k in ClutchList[3..6] ==> MarkedBefore(LowerStr(k), ClutchMarks, 4)
  {
    assert LowerStr("Ceramic Clutch Disc")[11] == 't';
    assert LowerStr("Organic Clutch Disc")[11] == 't';
    assert LowerStr("AL Clutch Disc")[6] == 't';
  }

  lemma ClutchMarkedC()
    ensures forall k :: k in ClutchList[6..8] ==> MarkedBefore(LowerStr(k), ClutchMarks, 4)
  {
    assert LowerStr("Ceramic & Organic")[8] == '&';
    assert LowerStr("8 Pad Ceramic")[4] == 'd';
  }

  lemma ClutchMarkedD()
    ensures forall k :: k in ClutchList[8..] ==> MarkedBefore(LowerStr(k), ClutchMarks, 4)
  {
    assert LowerStr("AL Organic Cushion Disc")[12] == 'u';
    assert LowerStr("Mahindra Navistar Disc")[5] == 'd';
  }

  /** Every cover-assembly keyword carries one of the cover marks. */
  lemma CoverKeywordsMarked()
    ensures forall k :: k in KeywordsFor("cover-assembly") ==> MarkedBefore(LowerStr(k), CoverMarks, 4)
  {
    CoverKeywords();
    CoverMarkedA();
    CoverMarkedB();
    assert CoverList == CoverList[..3] + CoverList[3..];
  }

  /** Every clutch-disc keyword carries one of the clutch marks. */
  lemma ClutchKeywordsMarked()
    ensures forall k :: k in KeywordsFor("clutch-disc") ==> MarkedBefore(LowerStr(k), ClutchMarks, 4)
  {
    ClutchKeywords();
    ClutchMarkedA();
    ClutchMarkedB();
    ClutchMarkedC();
    ClutchMarkedD();
    assert ClutchList == ClutchList[..3] + ClutchList[3..6] + ClutchList[6..8] + ClutchList[8..];
  }

  // ------------------------------------------------------------- verdicts

  lemma CoverAssemblyUnmarked()
    ensures forall i :: 0 <= i < |"Cover Assembly"| ==> Lower("Cover Assembly"[i]) !in ClutchMarks
  {
  }

  lemma DiscAssemblyUnmarked()
    ensures forall i :: 0 <= i < |"Disc Assembly"| ==> Lower("Disc Assembly"[i]) !in CoverMarks
  {
  }

  /** A `<x>Cover Assembly.png` file belongs to the cover assemblies. */
  lemma CoverFileMatches(x: string)
    ensures Matcher(KeywordsFor("cover-assembly"))(x + "Cover Assembly" + ".png")
  {
    CoverKeywords();
    NamedFileMatches(x, "Cover Assembly", KeywordsFor("cover-assembly"), 0);
  }

  /** A `<x>Disc Assembly.png` file belongs to the clutch discs. */
  lemma DiscFileMatches(x: string)
    ensures Matcher(KeywordsFor("clutch-disc"))(x + "Disc Assembly" + ".png")
  {
    ClutchKeywords();
    NamedFileMatches(x, "Disc Assembly", KeywordsFor("clutch-disc"), 1);
  }

  /** When `x` has none of the clutch marks, `<x>Cover Assembly.png` is not
      one of the clutch discs. */
  lemma CoverFileMisses(x: string)
    requires forall i :: 0 <= i < |x| ==> Lower(x[i]) !in ClutchMarks
    ensures !Matcher(KeywordsFor("clutch-disc"))(x + "Cover Assembly" + ".png")
  {
    ClutchKeywordsMarked();
    CoverAssemblyUnmarked();
    UnmarkedFileMisses(x, "Cover Assembly", KeywordsFor("clutch-disc"), ClutchMarks);
  }

  /** When `x` has none of the cover marks, `<x>Disc Assembly.png` is not one
      of the cover assemblies. */
  lemma DiscFileMisses(x: string)
    requires forall i :: 0 <= i < |x| ==> Lower(x[i]) !in CoverMarks
    ensures !Matcher(KeywordsFor("cover-assembly"))(x + "Disc Assembly" + ".png")
  {
    CoverKeywordsMarked();
    DiscAssemblyUnmarked();
    UnmarkedFileMisses(x, "Disc Assembly", KeywordsFor("cover-assembly"), CoverMarks);
  }

  // ------------------------------------------------------- the 430 mm row

  /** The 430 mm row of the file table. */
  const Row430: seq<string> := [
    "430mm (17 \") Prima Disc Assembly.png",
    "430mm (17\") Benz Cover Assembly.png",
    "430mm (17\") Benz Disc Assembly.png",
    "430mm (17\") Eicher Pro Cover Assembly.png",
    "430mm (17\") Eicher Pro Disc Assembly.png",
    "430mm (17\") Man Cover Assembly.png",
    "430mm (17\") Prima Cover Assembly.png"]

  const Prima17Spaced: string := "430mm (17 \") Prima "
  const Benz17: string := "430mm (17\") Benz "
  const EicherPro17: string := "430mm (17\") Eicher Pro "
  const Man17: string := "430mm (17\") Man "
  const Prima17: string := "430mm (17\") Prima "

  lemma Row430InTable()
    ensures FilesFor("430") == Row430
  {
  }

  /** Each name of the row split into the part before the category words,
      the category words and the extension. */
  lemma Row430Names()
    ensures Row430[0] == Prima17Spaced + "Disc Assembly" + ".png"
    ensures Row430[1] == Benz17 + "Cover Assembly" + ".png"
    ensures Row430[2] == Benz17 + "Disc Assembly" + ".png"
    ensures Row430[3] == EicherPro17 + "Cover Assembly" + ".png"
    ensures Row430[4] == EicherPro17 + "Disc Assembly" + ".png"
    ensures Row430[5] == Man17 + "Cover Assembly" + ".png"
    ensures Row430[6] == Prima17 + "Cover Assembly" + ".png"
  {
    Row430Name0();
    Row430Name1();
    Row430Name2();
    Row430Name3();
    Row430Name4();
    Row430Name5();
    Row430Name6();
  }

  lemma Row430Name0()
    ensures Row430[0] == Prima17Spaced + "Disc Assembly" + ".png"
  {
  }

  lemma Row430Name1()
    ensures Row430[1] == Benz17 + "Cover Assembly" + ".png"
  {
  }

  lemma Row430Name2()
    ensures Row430[2] == Benz17 + "Disc Assembly" + ".png"
  {
  }

  lemma Row430Name3()
    ensures Row430[3] == EicherPro17 + "Cover Assembly" + ".png"
  {
  }

  lemma Row430Name4()
    ensures Row430[4] == EicherPro17 + "Disc Assembly" + ".png"
  {
  }

  lemma Row430Name5()
    ensures Row430[5] == Man17 + "Cover Assembly" + ".png"
  {
  }

  lemma Row430Name6()
    ensures Row430[6] == Prima17 + "Cover Assembly" + ".png"
  {
  }

  lemma PrefixesWithoutClutchMarksA()
    ensures forall i :: 0 <= i < |Benz17| ==> Lower(Benz17[i]) !in ClutchMarks
    ensures forall i :: 0 <= i < |EicherPro17| ==> Lower(EicherPro17[i]) !in ClutchMarks
  {
  }

  lemma PrefixesWithoutClutchMarksB()
    ensures forall i :: 0 <= i < |Man17| ==> Lower(Man17[i]) !in ClutchMarks
    ensures forall i :: 0 <= i < |Prima17| ==> Lower(Prima17[i]) !in ClutchMarks
  {
  }

  lemma PrefixesWithoutCoverMarks()
    ensures forall i :: 0 <= i < |Prima17Spaced| ==> Lower(Prima17Spaced[i]) !in CoverMarks
    ensures forall i :: 0 <= i < |Benz17| ==> Lower(Benz17[i]) !in CoverMarks
    ensures forall i :: 0 <= i < |EicherPro17| ==> Lower(EicherPro17[i]) !in CoverMarks
  {
  }

  /** What `filter` keeps of one element. */
  function Kept<T>(x: T, f: T -> bool): seq<T> {
    if f(x) then [x] else []
  }

  lemma FilterCons<T(!new)>(s: seq<T>, f: T -> bool)
    requires s != []
    ensures Filter(s, f) == Kept(s[0], f) + Filter(s[1..], f)
  {
  }

  /** The elements `filter` keeps from a seven-element sequence. */
  lemma FilterSeven<T(!new)>(s: seq<T>, f: T -> bool)
    requires |s| == 7
    ensures Filter(s, f)
      == Kept(s[0], f) + (Kept(s[1], f) + (Kept(s[2], f) + (Kept(s[3], f)
       + (Kept(s[4], f) + (Kept(s[5], f) + Kept(s[6], f))))))
  {
    var t := s[6..];
    assert t == [s[6]] && t[1..] == [];
    FilterCons(t, f);
    var r := Kept(s[6], f);
    assert Filter(t, f) == r;
    FilterCons(s[5..], f);
    assert s[5..][1..] == t;
    r := Kept(s[5], f) + r;
    FilterCons(s[4..], f);
    assert s[4..][1..] == s[5..];
    r := Kept(s[4], f) + r;
    FilterCons(s[3..], f);
    assert s[3..][1..] == s[4..];
    r := Kept(s[3], f) + r;
    FilterCons(s[2..], f);
    assert s[2..][1..] == s[3..];
    r := Kept(s[2], f) + r;
    FilterCons(s[1..], f);
    assert s[1..][1..] == s[2..];
    r := Kept(s[1], f) + r;
    FilterCons(s, f);
  }

  /** Filtering seven elements where the covers (positions 1, 3, 5, 6) pass. */
  lemma FilterCoverPattern<T(!new)>(s: seq<T>, f: T -> bool)
    requires |s| == 7
    requires !f(s[0]) && f(s[1]) && !f(s[2]) && f(s[3]) && !f(s[4]) && f(s[5]) && f(s[6])
    ensures Filter(s, f) == [s[1], s[3], s[5], s[6]]
  {
    FilterSeven(s, f);
    var r := Kept(s[5], f) + Kept(s[6], f);
    assert r == [s[5], s[6]];
    r := Kept(s[4], f) + r;
    assert r == [s[5], s[6]];
    r := Kept(s[3], f) + r;
    assert r == [s[3], s[5], s[6]];
    r := Kept(s[2], f) + r;
    assert r == [s[3], s[5], s[6]];
    r := Kept(s[1], f) + r;
    assert r == [s[1], s[3], s[5], s[6]];
    r := Kept(s[0], f) + r;
    assert r == [s[1], s[3], s[5], s[6]];
  }

  /** Filtering seven elements where the discs (positions 0, 2, 4) pass. */
  lemma FilterDiscPattern<T(!new)>(s: seq<T>, f: T -> bool)
    requires |s| == 7
    requires f(s[0]) && !f(s[1]) && f(s[2]) && !f(s[3]) && f(s[4]) && !f(s[5]) && !f(s[6])
    ensures Filter(s, f) == [s[0], s[2], s[4]]
  {
    FilterSeven(s, f);
    var r := Kept(s[5], f) + Kept(s[6], f);
    assert r == [];
    r := Kept(s[4], f) + r;
    assert r == [s[4]];
    r := Kept(s[3], f) + r;
    assert r == [s[4]];
    r := Kept(s[2], f) + r;
    assert r == [s[2], s[4]];
    r := Kept(s[1], f) + r;
    assert r == [s[2], s[4]];
    r := Kept(s[0], f) + r;
    assert r == [s[0], s[2], s[4]];
  }

  lemma CoverFilesMatch(p1: string, p3: string, p5: string, p6: string)
    ensures var f := Matcher(KeywordsFor("cover-assembly"));
      f(p1 + "Cover Assembly" + ".png") && f(p3 + "Cover Assembly" + ".png")
      && f(p5 + "Cover Assembly" + ".png") && f(p6 + "Cover Assembly" + ".png")
  {
    CoverFileMatches(p1);
    CoverFileMatches(p3);
    CoverFileMatches(p5);
    CoverFileMatches(p6);
  }

  lemma DiscFilesMissPair(p: string, q: string)
    requires forall i :: 0 <= i < |p| ==> Lower(p[i]) !in CoverMarks
    requires forall i :: 0 <= i < |q| ==> Lower(q[i]) !in CoverMarks
    ensures var f := Matcher(KeywordsFor("cover-assembly"));
      !f(p + "Disc Assembly" + ".png") && !f(q + "Disc Assembly" + ".png")
  {
    DiscFileMisses(p);
    DiscFileMisses(q);
  }

  lemma DiscFilesMatch(p0: string, p2: string, p4: string)
    ensures var f := Matcher(KeywordsFor("clutch-disc"));
      f(p0 + "Disc Assembly" + ".png") && f(p2 + "Disc Assembly" + ".png")
      && f(p4 + "Disc Assembly" + ".png")
  {
    DiscFileMatches(p0);
    DiscFileMatches(p2);
    DiscFileMatches(p4);
  }

  lemma CoverFilesMissPair(p: string, q: string)
    requires forall i :: 0 <= i < |p| ==> Lower(p[i]) !in ClutchMarks
    requires forall i :: 0 <= i < |q| ==> Lower(q[i]) !in ClutchMarks
    ensures var f := Matcher(KeywordsFor("clutch-disc"));
      !f(p + "Cover Assembly" + ".png") && !f(q + "Cover Assembly" + ".png")
  {
    CoverFileMisses(p);
    CoverFileMisses(q);
  }

  /** A seven-file row laid out like the 430 mm row: the cover-assembly
      category keeps exactly its cover assemblies. */
  lemma CoverSelection(row: seq<string>, p0: string, p1: string, p2: string, p3: string,
                       p4: string, p5: string, p6: string)
    requires |row| == 7
    requires row[0] == p0 + "Disc Assembly" + ".png" && row[1] == p1 + "Cover Assembly" + ".png"
    requires row[2] == p2 + "Disc Assembly" + ".png" && row[3] == p3 + "Cover Assembly" + ".png"
    requires row[4] == p4 + "Disc Assembly" + ".png" && row[5] == p5 + "Cover Assembly" + ".png"
    requires row[6] == p6 + "Cover Assembly" + ".png"
    requires forall i :: 0 <= i < |p0| ==> Lower(p0[i]) !in CoverMarks
    requires forall i :: 0 <= i < |p2| ==> Lower(p2[i]) !in CoverMarks
    requires forall i :: 0 <= i < |p4| ==> Lower(p4[i]) !in CoverMarks
    ensures SelectFiles(row, KeywordsFor("cover-assembly")) == [row[1], row[3], row[5], row[6]]
  {
    CoverKeywords();
    DiscFilesMissPair(p0, p2);
    DiscFileMisses(p4);
    CoverFilesMatch(p1, p3, p5, p6);
    FilterCoverPattern(row, Matcher(KeywordsFor("cover-assembly")));
  }

  /** A seven-file row laid out like the 430 mm row: the clutch-disc category
      keeps exactly its disc assemblies. */
  lemma DiscSelection(row: seq<string>, p0: string, p1: string, p2: string, p3: string,
                      p4: string, p5: string, p6: string)
    requires |row| == 7
    requires row[0] == p0 + "Disc Assembly" + ".png" && row[1] == p1 + "Cover Assembly" + ".png"
    requires row[2] == p2 + "Disc Assembly" + ".png" && row[3] == p3 + "Cover Assembly" + ".png"
    requires row[4] == p4 + "Disc Assembly" + ".png" && row[5] == p5 + "Cover Assembly" + ".png"
    requires row[6] == p6 + "Cover Assembly" + ".png"
    requires forall i :: 0 <= i < |p1| ==> Lower(p1[i]) !in ClutchMarks
    requires forall i :: 0 <= i < |p3| ==> Lower(p3[i]) !in ClutchMarks
    requires forall i :: 0 <= i < |p5| ==> Lower(p5[i]) !in ClutchMarks
    requires forall i :: 0 <= i < |p6| ==> Lower(p6[i]) !in ClutchMarks
    ensures SelectFiles(row, KeywordsFor("clutch-disc")) == [row[0], row[2], row[4]]
  {
    ClutchKeywords();
    CoverFilesMissPair(p1, p3);
    CoverFilesMissPair(p5, p6);
    DiscFilesMatch(p0, p2, p4);
    FilterDiscPattern(row, Matcher(KeywordsFor("clutch-disc")));
  }

  /** In the 430 mm row the cover-assembly category shows the Benz, Eicher
      Pro, Man and Prima cover assemblies (positions 1, 3, 5 and 6 of the
      row), in table order, and none of the discs. */
  lemma CoverAssemblies430()
    ensures SelectFiles(FilesFor("430"), KeywordsFor("cover-assembly"))
      == [Row430[1], Row430[3], Row430[5], Row430[6]]
  {
    Row430InTable();
    Row430Names();
    PrefixesWithoutCoverMarks();
    CoverSelection(Row430, Prima17Spaced, Benz17, Benz17, EicherPro17, EicherPro17, Man17, Prima17);
  }

  /** In the 430 mm row the clutch-disc category shows the Prima, Benz and
      Eicher Pro disc assemblies (positions 0, 2 and 4 of the row), in table
      order, and none of the covers. */
  lemma ClutchDiscs430()
    ensures SelectFiles(FilesFor("430"), KeywordsFor("clutch-disc"))
      == [Row430[0], Row430[2], Row430[4]]
  {
    Row430InTable();
    Row430Names();
    PrefixesWithoutClutchMarksA();
    PrefixesWithoutClutchMarksB();
    DiscSelection(Row430, Prima17Spaced, Benz17, Benz17, EicherPro17, EicherPro17, Man17, Prima17);
  }

  // ------------------------------------------------------------- alt text

  /** The alt text of the Benz cover assembly drops the extension and the
      size annotation `430mm (17") `. */
  lemma BenzCoverAltText()
    ensures ExtractAltText("430mm (17\") Benz Cover Assembly.png") == "Benz Cover Assembly"
  {
    var body := "Benz Cover Assembly";
    var name := "430" + "mm" + " " + "(" + "17\"" + ")" + " " + body;
    BenzCoverName();
    BenzCoverWords();
    assert '.' !in name;
    NoDotPngOnlyAtEnd(name);
    AltTextOfCatalogueName("430", " ", "17\"", " ", body);
  }

  lemma BenzCoverName()
    ensures "430" + "mm" + " " + "(" + "17\"" + ")" + " " + "Benz Cover Assembly" + ".png"
      == "430mm (17\") Benz Cover Assembly.png"
  {
    assert "430" + "mm" + " " + "(" + "17\"" + ")" + " " == "430mm (17\") ";
  }

  lemma BenzCoverWords()
    ensures Spaced("Benz Cover Assembly") && NoEdgeSpace("Benz Cover Assembly")
  {
    var ws := ["Benz", "Cover", "Assembly"];
    BenzCoverJoin();
    BenzCoverAreWords();
    JoinWordsSpaced(ws);
  }

  lemma BenzCoverJoin()
    ensures "Benz Cover Assembly" == JoinWithSpace(["Benz", "Cover", "Assembly"])
  {
  }

  lemma BenzCoverAreWords()
    ensures forall k :: 0 <= k < 3 ==> IsWord(["Benz", "Cover", "Assembly"][k])
  {
    assert IsWord("Benz");
    assert IsWord("Cover");
    assert IsWord("Assembly");
  }
}

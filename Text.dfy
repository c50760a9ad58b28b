/**
 * The JavaScript string operations the catalogue code uses, written out over
 * `string` (= `seq<char>`): the `\s` class, `toLowerCase` (ASCII only),
 * `includes`, `indexOf`, `replace` with a string pattern, `trim`,
 * `replace(/\s+/g, ' ')`, `split(/\s+/)`, `join(' ')`, number-to-string, and
 * the leading `<digits>mm` size prefix that several regular expressions match.
 */
module Text {
  import opened Wrappers
  import opened Seqs

  // ---------------------------------------------------------------- characters

  /** JavaScript's `\s`, which is also the set `trim` removes. */
  predicate IsSpace(c: char) {
    || c == ' ' || c == '\t' || c == '\n' || c == '\r' || c == '\U{000B}' || c == '\U{000C}'
    || c == '\U{00A0}' || c == '\U{1680}' || ('\U{2000}' <= c <= '\U{200A}')
    || c == '\U{2028}' || c == '\U{2029}' || c == '\U{202F}' || c == '\U{205F}'
    || c == '\U{3000}' || c == '\U{FEFF}'
  }

  /** JavaScript's `\d`. */
  predicate IsDigit(c: char) { '0' <= c <= '9' }

  predicate IsLowerLetter(c: char) { 'a' <= c <= 'z' }

  predicate IsAsciiLetter(c: char) { 'a' <= c <= 'z' || 'A' <= c <= 'Z' }

  /** `toLowerCase` on one character, for the ASCII letters. */
  function Lower(c: char): char {
    if 'A' <= c <= 'Z' then (c as int + 32) as char else c
  }

  /** `toLowerCase` on a string. */
  function LowerStr(s: string): string {
    seq(|s|, i requires 0 <= i < |s| => Lower(s[i]))
  }

  /** A string that `toLowerCase` leaves alone. */
  predicate IsLowerCase(s: string) {
    forall i :: 0 <= i < |s| ==> Lower(s[i]) == s[i]
  }

  // ---------------------------------------------------------------- searching

  predicate OccursAt(s: string, p: string, i: nat) {
    i + |p| <= |s| && s[i..i + |p|] == p
  }

  predicate StartsWith(s: string, p: string) {
    |p| <= |s| && s[..|p|] == p
  }

  /** `s.includes(p)`: `p` starts at some position of `s` (see `ContainsOccurs`). */
  predicate Contains(s: string, p: string)
    decreases |s|
  {
    StartsWith(s, p) || (s != [] && Contains(s[1..], p))
  }

  /** `Contains` holds exactly when `p` occurs at some position. */
  lemma {:induction false} ContainsOccurs(s: string, p: string)
    ensures Contains(s, p) <==> exists i: nat | i <= |s| :: OccursAt(s, p, i)
    decreases |s|
  {
    if StartsWith(s, p) {
      assert s[0..|p|] == s[..|p|];
      assert OccursAt(s, p, 0);
    }
    if s != [] {
      ContainsOccurs(s[1..], p);
      if Contains(s[1..], p) {
        var i: nat :| i <= |s[1..]| && OccursAt(s[1..], p, i);
        assert s[1..][i..i + |p|] == s[i + 1..i + 1 + |p|];
        assert OccursAt(s, p, i + 1);
      }
    }
    if exists i: nat | i <= |s| :: OccursAt(s, p, i) {
      var i: nat :| i <= |s| && OccursAt(s, p, i);
      if i == 0 {
        assert s[0..|p|] == s[..|p|];
      } else {
        assert s[1..][i - 1..i - 1 + |p|] == s[i..i + |p|];
        assert OccursAt(s[1..], p, i - 1);
      }
    }
  }

  /** Text that contains `p` still does after more is appended. */
  lemma ContainsExtend(a: string, b: string, p: string)
    requires Contains(a, p)
    ensures Contains(a + b, p)
  {
    ContainsOccurs(a, p);
    var i: nat :| i <= |a| && OccursAt(a, p, i);
    assert (a + b)[i..i + |p|] == a[i..i + |p|];
    ContainsAt(a + b, p, i);
  }

  /** Text that contains `p` still does after more is put in front. */
  lemma ContainsPrepend(a: string, b: string, p: string)
    requires Contains(b, p)
    ensures Contains(a + b, p)
  {
    ContainsOccurs(b, p);
    var i: nat :| i <= |b| && OccursAt(b, p, i);
    assert (a + b)[|a| + i..|a| + i + |p|] == b[i..i + |p|];
    ContainsAt(a + b, p, |a| + i);
  }

  /** Containment is transitive. */
  lemma ContainsTrans(s: string, a: string, b: string)
    requires Contains(s, a) && Contains(a, b)
    ensures Contains(s, b)
  {
    ContainsOccurs(s, a);
    ContainsOccurs(a, b);
    var i: nat :| i <= |s| && OccursAt(s, a, i);
    var j: nat :| j <= |a| && OccursAt(a, b, j);
    forall k | 0 <= k < |b| ensures s[i + j + k] == b[k] {
      assert s[i + j + k] == s[i..i + |a|][j + k] == a[j + k];
      assert a[j + k] == a[j..j + |b|][k];
    }
    assert s[i + j..i + j + |b|] == b;
    ContainsAt(s, b, i + j);
  }

  /** An occurrence at a known position is a containment. */
  lemma ContainsAt(s: string, p: string, i: nat)
    requires OccursAt(s, p, i)
    ensures Contains(s, p)
  {
    ContainsOccurs(s, p);
  }

  predicate EndsWith(s: string, p: string) {
    |p| <= |s| && s[|s| - |p|..] == p
  }

  /** The first occurrence of `p` in `s` at or after `from`. */
  function IndexOfFrom(s: string, p: string, from: nat): (r: Option<nat>)
    ensures r.Some? ==> from <= r.value && OccursAt(s, p, r.value)
    ensures r.Some? ==> forall j :: from <= j < r.value ==> !OccursAt(s, p, j)
    ensures r.None? ==> forall j :: from <= j ==> !OccursAt(s, p, j)
    decreases |s| - from
  {
    if from + |p| > |s| then None
    else if OccursAt(s, p, from) then Some(from)
    else IndexOfFrom(s, p, from + 1)
  }

  /** `s.indexOf(p)`, with `None` for -1. */
  function IndexOf(s: string, p: string): (r: Option<nat>)
    ensures r.None? <==> !Contains(s, p)
    ensures r.Some? ==> OccursAt(s, p, r.value) && forall j :: 0 <= j < r.value ==> !OccursAt(s, p, j)
  {
    ContainsOccurs(s, p);
    IndexOfFrom(s, p, 0)
  }

  /** `s.replace(p, repl)` for a string pattern: the first occurrence only. */
  function ReplaceFirst(s: string, p: string, repl: string): (r: string)
    ensures !Contains(s, p) ==> r == s
  {
    match IndexOf(s, p)
    case None => s
    case Some(i) => s[..i] + repl + s[i + |p|..]
  }

  // ---------------------------------------------------------------- whitespace

  predicate AllSpace(s: string) {
    forall i :: 0 <= i < |s| ==> IsSpace(s[i])
  }

  predicate HasSpace(s: string) {
    exists i :: 0 <= i < |s| && IsSpace(s[i])
  }

  /** Neither the first nor the last character is whitespace. */
  predicate NoEdgeSpace(s: string) {
    s == [] || (!IsSpace(s[0]) && !IsSpace(s[|s| - 1]))
  }

  /** Whitespace at `i` and again at `i + 1`. */
  predicate DoubleSpaceAt(s: string, i: nat) {
    i + 1 < |s| && IsSpace(s[i]) && IsSpace(s[i + 1])
  }

  /** Every whitespace character is a plain space and none follows another. */
  predicate Spaced(s: string) {
    && (forall i :: 0 <= i < |s| && IsSpace(s[i]) ==> s[i] == ' ')
    && (forall i: nat | i < |s| :: !DoubleSpaceAt(s, i))
  }

  /** `trimStart`: drops the leading whitespace. */
  function TrimStart(s: string): (r: string)
    ensures |r| <= |s| && r == s[|s| - |r|..]
    ensures r == [] || !IsSpace(r[0])
    ensures AllSpace(s[..|s| - |r|])
  {
    if s != [] && IsSpace(s[0]) then TrimStart(s[1..]) else s
  }

  /** `trimEnd`: drops the trailing whitespace. */
  function TrimEnd(s: string): (r: string)
    ensures |r| <= |s| && r == s[..|r|]
    ensures r == [] || !IsSpace(r[|r| - 1])
    ensures AllSpace(s[|r|..])
  {
    if s != [] && IsSpace(s[|s| - 1]) then TrimEnd(s[..|s| - 1]) else s
  }

  /** `trim`. */
  function Trim(s: string): (r: string)
    ensures NoEdgeSpace(r)
  {
    TrimEnd(TrimStart(s))
  }

  /** `replace(/\s+/g, ' ')`: every run of whitespace becomes one space. */
  function CollapseSpaces(s: string): (r: string)
    ensures Spaced(r)
    ensures |r| <= |s|
    ensures r == [] <==> s == []
    decreases |s|
  {
    if s == [] then []
    else if IsSpace(s[0]) then
      var rest := CollapseSpaces(TrimStart(s[1..]));
      SpacedCons(' ', rest);
      [' '] + rest
    else
      var rest := CollapseSpaces(s[1..]);
      SpacedCons(s[0], rest);
      [s[0]] + rest
  }

  /** The index of the first whitespace character. */
  function FirstSpace(s: string): (r: Option<nat>)
    ensures r.Some? ==> r.value < |s| && IsSpace(s[r.value]) && !exists j :: 0 <= j < r.value && IsSpace(s[j])
    ensures r.None? ==> !exists j :: 0 <= j < |s| && IsSpace(s[j])
  {
    FirstIndex(s, IsSpace)
  }

  /** `split(/\s+/)`: the pieces between whitespace runs, including an empty
      first (last) piece when `s` starts (ends) with whitespace. */
  function SplitOnSpaces(s: string): (parts: seq<string>)
    ensures |parts| >= 1
    ensures forall k :: 0 <= k < |parts| ==> !HasSpace(parts[k])
    decreases |s|
  {
    match FirstSpace(s)
    case None => [s]
    case Some(i) =>
      var rest := TrimStart(s[i..]);
      [s[..i]] + SplitOnSpaces(rest)
  }

  /** `join(' ')`. */
  function JoinWithSpace(parts: seq<string>): string {
    if parts == [] then ""
    else if |parts| == 1 then parts[0]
    else parts[0] + " " + JoinWithSpace(parts[1..])
  }

  // ---------------------------------------------------------------- numbers

  /** The number of leading decimal digits. */
  function DigitRun(s: string): (n: nat)
    ensures n <= |s|
    ensures forall i :: 0 <= i < n ==> IsDigit(s[i])
    ensures n < |s| ==> !IsDigit(s[n])
  {
    if s != [] && IsDigit(s[0]) then 1 + DigitRun(s[1..]) else 0
  }

  /** The digits that `/^(\d+)mm/` captures, if it matches. */
  function MmNumber(s: string): (r: Option<string>)
    ensures r.Some? ==> r.value != [] && StartsWith(s, r.value + "mm")
    ensures r.Some? ==> forall i :: 0 <= i < |r.value| ==> IsDigit(r.value[i])
    ensures r.Some? ==> |r.value| == |s| || !IsDigit(s[|r.value|])
  {
    var n := DigitRun(s);
    if n > 0 && StartsWith(s[n..], "mm") then
      assert s[..n + 2] == s[..n] + "mm";
      Some(s[..n])
    else None
  }

  /** The digit run of digits followed by a non-digit is the digits. */
  lemma {:induction false} DigitRunOf(d: string, rest: string)
    requires forall i :: 0 <= i < |d| ==> IsDigit(d[i])
    requires rest == [] || !IsDigit(rest[0])
    ensures DigitRun(d + rest) == |d|
  {
    if d != [] {
      assert (d + rest)[1..] == d[1..] + rest;
      DigitRunOf(d[1..], rest);
    }
  }

  /** Digits followed by `mm` are the number `/^(\d+)mm/` captures. */
  lemma MmNumberOf(d: string, rest: string)
    requires d != [] && forall i :: 0 <= i < |d| ==> IsDigit(d[i])
    ensures MmNumber(d + "mm" + rest) == Some(d)
    ensures (d + "mm" + rest)[|d| + 2..] == rest
  {
    var s := d + "mm" + rest;
    assert s == d + ("mm" + rest);
    DigitRunOf(d, "mm" + rest);
    assert s[|d|..] == "mm" + rest;
    assert s[..|d|] == d;
  }

  function DigitChar(d: nat): char
    requires d < 10
  {
    ('0' as int + d) as char
  }

  /** A number in decimal, as a template literal `${n}` writes it. */
  function NatToString(n: nat): (s: string)
    ensures s != []
    ensures forall i :: 0 <= i < |s| ==> IsDigit(s[i])
  {
    if n < 10 then [DigitChar(n)] else NatToString(n / 10) + [DigitChar(n % 10)]
  }

  // ---------------------------------------------------------------- lemmas

  lemma SpacedSlice(s: string, a: nat, b: nat)
    requires a <= b <= |s|
    ensures Spaced(s) ==> Spaced(s[a..b])
  {
    if Spaced(s) {
      var t := s[a..b];
      forall i: nat | i < |t| ensures !DoubleSpaceAt(t, i) {
        assert !DoubleSpaceAt(s, a + i);
      }
    }
  }

  lemma SpacedTail(s: string)
    requires s != []
    ensures Spaced(s) ==> Spaced(s[1..])
  {
    assert s[1..|s|] == s[1..];
    SpacedSlice(s, 1, |s|);
  }

  /** Putting `c` in front of single-spaced `t` keeps it single-spaced when
      `c` is no whitespace, or a plain space before a non-space. */
  lemma SpacedCons(c: char, t: string)
    requires Spaced(t)
    requires IsSpace(c) ==> c == ' ' && (t == [] || !IsSpace(t[0]))
    ensures Spaced([c] + t)
  {
    var s := [c] + t;
    forall i: nat | i < |s| ensures !DoubleSpaceAt(s, i) {
      if i > 0 {
        assert !DoubleSpaceAt(t, i - 1);
      }
    }
  }

  /** `trim` keeps text single-spaced. */
  lemma TrimSpaced(s: string)
    requires Spaced(s)
    ensures Spaced(Trim(s))
  {
    var t := TrimStart(s);
    var r := TrimEnd(t);
    var a := |s| - |t|;
    assert r == s[a..a + |r|] by {
      assert t == s[a..];
      assert r == t[..|r|];
    }
    SpacedSlice(s, a, a + |r|);
  }

  /** `trim` leaves text without edge whitespace alone. */
  lemma TrimFixed(s: string)
    requires NoEdgeSpace(s)
    ensures Trim(s) == s
  {
  }

  /** Single-spaced text has nothing to collapse. */
  lemma {:induction false} CollapseFixed(s: string)
    requires Spaced(s)
    ensures CollapseSpaces(s) == s
    decreases |s|
  {
    if s != [] {
      var t := s[1..];
      SpacedTail(s);
      CollapseFixed(t);
      assert s == [s[0]] + t;
      if IsSpace(s[0]) {
        assert s[0] == ' ';
        assert t == [] || !IsSpace(t[0]) by {
          if t != [] {
            assert !DoubleSpaceAt(s, 0);
          }
        }
        assert TrimStart(t) == t;
      }
    }
  }

  /** Collapsing introduces no character other than the plain space. */
  lemma {:induction false} CollapseKeeps(s: string)
    ensures forall c :: c in CollapseSpaces(s) ==> c == ' ' || c in s
    decreases |s|
  {
    if s != [] {
      if IsSpace(s[0]) {
        var t := TrimStart(s[1..]);
        CollapseKeeps(t);
        assert forall c :: c in t ==> c in s;
      } else {
        CollapseKeeps(s[1..]);
      }
    }
  }

  /** The ASCII letters of a string, in order. */
  function Letters(s: string): string {
    Filter(s, IsAsciiLetter)
  }

  lemma SpaceHasNoLetters(s: string)
    requires AllSpace(s)
    ensures Letters(s) == []
  {
    FilterNone(s, IsAsciiLetter);
  }

  /** `trimStart` keeps every letter. */
  lemma TrimStartLetters(s: string)
    ensures Letters(TrimStart(s)) == Letters(s)
  {
    var t := TrimStart(s);
    var k := |s| - |t|;
    assert s == s[..k] + t;
    FilterAppend(s[..k], t, IsAsciiLetter);
    SpaceHasNoLetters(s[..k]);
  }

  /** `trim` keeps every letter, in order. */
  lemma TrimLetters(s: string)
    ensures Letters(Trim(s)) == Letters(s)
  {
    var t := TrimStart(s);
    TrimStartLetters(s);
    var e := TrimEnd(t);
    assert t == e + t[|e|..];
    FilterAppend(e, t[|e|..], IsAsciiLetter);
    SpaceHasNoLetters(t[|e|..]);
  }

  /** Collapsing whitespace keeps every letter, in order. */
  lemma {:induction false} CollapseLetters(s: string)
    ensures Letters(CollapseSpaces(s)) == Letters(s)
    decreases |s|
  {
    if s != [] {
      var c := CollapseSpaces(s);
      if IsSpace(s[0]) {
        var t := TrimStart(s[1..]);
        CollapseLetters(t);
        TrimStartLetters(s[1..]);
        assert c[0] == ' ' && c[1..] == CollapseSpaces(t);
      } else {
        CollapseLetters(s[1..]);
        assert c[0] == s[0] && c[1..] == CollapseSpaces(s[1..]);
      }
    }
  }

  /** `toLowerCase` moves no character into or out of `\s`. */
  lemma LowerKeepsSpace(c: char)
    ensures IsSpace(Lower(c)) <==> IsSpace(c)
  {
  }

  /** `trim` leaves nothing exactly when the string is all whitespace. */
  lemma TrimEmpty(s: string)
    ensures Trim(s) == [] <==> AllSpace(s)
  {
    var t := TrimStart(s);
    var k := |s| - |t|;
    if Trim(s) == [] {
      assert t[0..] == t;
      assert s[..k] == s;
    }
  }

  /** `trim` only removes characters. */
  lemma TrimKeeps(s: string)
    ensures forall c :: c in Trim(s) ==> c in s
  {
    var t := TrimStart(s);
    assert Trim(s) == s[|s| - |t|..][..|Trim(s)|];
  }

  lemma {:induction false} TrimStartLower(s: string)
    ensures TrimStart(LowerStr(s)) == LowerStr(TrimStart(s))
  {
    if s != [] {
      assert LowerStr(s)[1..] == LowerStr(s[1..]);
      LowerKeepsSpace(s[0]);
      TrimStartLower(s[1..]);
    }
  }

  lemma {:induction false} TrimEndLower(s: string)
    ensures TrimEnd(LowerStr(s)) == LowerStr(TrimEnd(s))
  {
    if s != [] {
      assert LowerStr(s)[..|s| - 1] == LowerStr(s[..|s| - 1]);
      LowerKeepsSpace(s[|s| - 1]);
      TrimEndLower(s[..|s| - 1]);
    }
  }

  /** `trim` and `toLowerCase` commute. */
  lemma TrimLower(s: string)
    ensures Trim(LowerStr(s)) == LowerStr(Trim(s))
  {
    TrimStartLower(s);
    TrimEndLower(TrimStart(s));
  }

  lemma LowerConcat(a: string, b: string)
    ensures LowerStr(a + b) == LowerStr(a) + LowerStr(b)
  {
  }

  /** `includes` survives lower-casing both sides. */
  lemma ContainsLower(s: string, p: string)
    requires Contains(s, p)
    ensures Contains(LowerStr(s), LowerStr(p))
  {
    ContainsOccurs(s, p);
    var i: nat :| i <= |s| && OccursAt(s, p, i);
    assert LowerStr(s)[i..i + |p|] == LowerStr(p);
    ContainsAt(LowerStr(s), LowerStr(p), i);
  }

  /** A string contains whatever sits between two other pieces of it. */
  lemma ContainsMiddle(a: string, p: string, b: string)
    ensures Contains(a + p + b, p)
  {
    assert (a + p + b)[|a|..|a| + |p|] == p;
    ContainsAt(a + p + b, p, |a|);
  }

  /** Three strings joined by spaces contain each of them. */
  lemma ContainsEachOfThree(a: string, b: string, c: string)
    ensures Contains(a + " " + b + " " + c, a)
    ensures Contains(a + " " + b + " " + c, b)
    ensures Contains(a + " " + b + " " + c, c)
  {
    var s := a + " " + b + " " + c;
    ContainsMiddle([], a, " " + b + " " + c);
    assert [] + a + (" " + b + " " + c) == s;
    ContainsMiddle(a + " ", b, " " + c);
    assert a + " " + b + (" " + c) == s;
    ContainsMiddle(a + " " + b + " ", c, []);
    assert a + " " + b + " " + c + [] == s;
  }

  /** No occurrence of `p` in `a + b` when `a` lacks the character `p` has at
      `j` and `b` is too short to hold `p` from `j` on. */
  lemma MissingCharAt(a: string, b: string, p: string, j: nat)
    requires j + |b| < |p|
    requires forall i :: 0 <= i < |a| ==> a[i] != p[j]
    ensures !Contains(a + b, p)
  {
    ContainsOccurs(a + b, p);
    forall i: nat | i <= |a + b|
      ensures !OccursAt(a + b, p, i)
    {
      if i + |p| <= |a + b| {
        assert (a + b)[i..i + |p|][j] == a[i + j];
      }
    }
  }

  lemma LowerCons(c: char, s: string)
    ensures LowerStr([c] + s) == [Lower(c)] + LowerStr(s)
  {
  }

  /** Collapsing whitespace and `toLowerCase` commute. */
  lemma {:induction false} CollapseLower(s: string)
    ensures CollapseSpaces(LowerStr(s)) == LowerStr(CollapseSpaces(s))
    decreases |s|
  {
    if s != [] {
      var l := LowerStr(s);
      assert l == [Lower(s[0])] + LowerStr(s[1..]) by { LowerCons(s[0], s[1..]); assert s == [s[0]] + s[1..]; }
      assert l[1..] == LowerStr(s[1..]);
      LowerKeepsSpace(s[0]);
      if IsSpace(s[0]) {
        var t := TrimStart(s[1..]);
        TrimStartLower(s[1..]);
        CollapseLower(t);
        assert CollapseSpaces(l) == [' '] + CollapseSpaces(LowerStr(t));
        assert CollapseSpaces(s) == [' '] + CollapseSpaces(t);
        LowerCons(' ', CollapseSpaces(t));
      } else {
        CollapseLower(s[1..]);
        assert CollapseSpaces(l) == [Lower(s[0])] + CollapseSpaces(LowerStr(s[1..]));
        assert CollapseSpaces(s) == [s[0]] + CollapseSpaces(s[1..]);
        LowerCons(s[0], CollapseSpaces(s[1..]));
      }
    }
  }

  /** `split` at a lone space of single-spaced text. */
  lemma SplitAtLoneSpace(s: string, i: nat)
    requires Spaced(s) && FirstSpace(s) == Some(i)
    ensures Spaced(s[i + 1..])
    ensures SplitOnSpaces(s) == [s[..i]] + SplitOnSpaces(s[i + 1..])
    ensures s == s[..i] + " " + s[i + 1..]
  {
    assert s[i] == ' ';
    assert !DoubleSpaceAt(s, i);
    SplitAtSpace(s, i);
    SpacedSuffix(s, i + 1);
    AroundChar(s, i);
  }

  lemma SpacedSuffix(s: string, a: nat)
    requires a <= |s|
    ensures Spaced(s) ==> Spaced(s[a..])
  {
    assert s[a..|s|] == s[a..];
    SpacedSlice(s, a, |s|);
  }

  lemma AroundChar(s: string, i: nat)
    requires i < |s|
    ensures s == s[..i] + [s[i]] + s[i + 1..]
  {
  }

  /** `split` at the first whitespace character when no other follows it. */
  lemma SplitAtSpace(s: string, i: nat)
    requires FirstSpace(s) == Some(i)
    requires i + 1 == |s| || !IsSpace(s[i + 1])
    ensures SplitOnSpaces(s) == [s[..i]] + SplitOnSpaces(s[i + 1..])
  {
    var u := s[i + 1..];
    var t := s[i..];
    assert SplitOnSpaces(s) == [s[..i]] + SplitOnSpaces(TrimStart(t));
    assert t[0] == s[i] && t[1..] == u;
    assert TrimStart(u) == u;
  }

  /** `split` at a single whitespace character that ends the first word. */
  lemma SplitFirstWord(s: string, i: nat)
    requires i + 1 < |s| && IsSpace(s[i]) && !IsSpace(s[i + 1])
    requires forall j :: 0 <= j < i ==> !IsSpace(s[j])
    ensures SplitOnSpaces(s) == [s[..i]] + SplitOnSpaces(s[i + 1..])
  {
    assert FirstSpace(s) == Some(i);
    var t := s[i..];
    assert t[0] == s[i] && t[1..] == s[i + 1..];
    assert TrimStart(t[1..]) == t[1..];
    assert TrimStart(t) == s[i + 1..];
  }

  /** `split` of text without whitespace is the text alone. */
  lemma SplitNoSpace(s: string)
    requires forall j :: 0 <= j < |s| ==> !IsSpace(s[j])
    ensures SplitOnSpaces(s) == [s]
  {
    assert FirstSpace(s) == None;
  }

  lemma JoinCons(a: string, t: seq<string>)
    requires t != []
    ensures JoinWithSpace([a] + t) == a + " " + JoinWithSpace(t)
  {
    assert ([a] + t)[1..] == t;
  }

  /** Every part of a `join(' ')` occurs in the joined text. */
  lemma {:induction false} JoinContainsPart(ws: seq<string>, k: nat)
    requires k < |ws|
    ensures Contains(JoinWithSpace(ws), ws[k])
    decreases |ws|
  {
    var s := JoinWithSpace(ws);
    if k == 0 {
      if |ws| > 1 {
        assert s == ws[0] + (" " + JoinWithSpace(ws[1..]));
      }
      assert s[0..|ws[0]|] == ws[0];
      ContainsAt(s, ws[0], 0);
    } else {
      JoinContainsPart(ws[1..], k - 1);
      assert s == (ws[0] + " ") + JoinWithSpace(ws[1..]);
      ContainsPrepend(ws[0] + " ", JoinWithSpace(ws[1..]), ws[k]);
    }
  }

  /** Joining two non-empty lists is joining each and putting a space between. */
  lemma {:induction false} JoinAppend(a: seq<string>, b: seq<string>)
    requires a != [] && b != []
    ensures JoinWithSpace(a + b) == JoinWithSpace(a) + " " + JoinWithSpace(b)
  {
    if |a| == 1 {
      assert a + b == [a[0]] + b;
      JoinCons(a[0], b);
    } else {
      assert a + b == [a[0]] + (a[1..] + b);
      JoinCons(a[0], a[1..] + b);
      JoinAppend(a[1..], b);
    }
  }

  /** A non-empty piece of text without whitespace. */
  predicate IsWord(w: string) {
    w != [] && !HasSpace(w)
  }

  /** `split(/\s+/)` undoes `join(' ')` on a non-empty list of words. */
  lemma {:induction false} SplitJoinWords(ws: seq<string>)
    requires |ws| >= 1
    requires forall k :: 0 <= k < |ws| ==> IsWord(ws[k])
    ensures SplitOnSpaces(JoinWithSpace(ws)) == ws
    decreases |ws|
  {
    if |ws| == 1 {
      SplitNoSpace(ws[0]);
    } else {
      var w := ws[0];
      var rest := JoinWithSpace(ws[1..]);
      var s := w + " " + rest;
      assert JoinWithSpace(ws) == s;
      JoinStartsWithWord(ws[1..]);
      assert s[|w| + 1] == ws[1][0];
      SplitFirstWord(s, |w|);
      assert s[..|w|] == w;
      assert s[|w| + 1..] == rest;
      SplitJoinWords(ws[1..]);
      assert ws == [w] + ws[1..];
    }
  }

  /** Two single-spaced texts stay single-spaced when joined where at most one
      side has whitespace. */
  lemma SpacedJoin(a: string, b: string)
    requires Spaced(a) && Spaced(b)
    requires a == [] || b == [] || !IsSpace(a[|a| - 1]) || !IsSpace(b[0])
    ensures Spaced(a + b)
  {
    var s := a + b;
    forall i: nat | i < |s| ensures !DoubleSpaceAt(s, i) {
      if i + 1 < |a| {
        assert !DoubleSpaceAt(a, i);
      } else if i >= |a| {
        assert !DoubleSpaceAt(b, i - |a|);
      }
    }
    forall i | 0 <= i < |s| && IsSpace(s[i]) ensures s[i] == ' ' {
      if i >= |a| {
        assert s[i] == b[i - |a|];
      }
    }
  }

  /** Words joined by single spaces form single-spaced text without edge whitespace. */
  lemma {:induction false} JoinWordsSpaced(ws: seq<string>)
    requires |ws| >= 1
    requires forall k :: 0 <= k < |ws| ==> IsWord(ws[k])
    ensures Spaced(JoinWithSpace(ws)) && NoEdgeSpace(JoinWithSpace(ws))
    decreases |ws|
  {
    var w := ws[0];
    assert !IsSpace(w[0]) && !IsSpace(w[|w| - 1]);
    assert Spaced(w);
    if |ws| > 1 {
      var rest := JoinWithSpace(ws[1..]);
      JoinWordsSpaced(ws[1..]);
      JoinStartsWithWord(ws[1..]);
      SpacedCons(' ', rest);
      SpacedJoin(w, " " + rest);
      assert JoinWithSpace(ws) == w + (" " + rest);
    }
  }

  /** A joined list of words begins with the first word's first character. */
  lemma JoinStartsWithWord(ws: seq<string>)
    requires |ws| >= 1 && ws[0] != []
    ensures JoinWithSpace(ws) != [] && JoinWithSpace(ws)[0] == ws[0][0]
  {
  }

  /** On single-spaced text, `join(' ')` undoes `split(/\s+/)`. */
  lemma {:induction false} SplitJoin(s: string)
    requires Spaced(s)
    ensures JoinWithSpace(SplitOnSpaces(s)) == s
    decreases |s|
  {
    var fs := FirstSpace(s);
    if fs.Some? {
      var i := fs.value;
      SplitAtLoneSpace(s, i);
      SplitJoin(s[i + 1..]);
      JoinCons(s[..i], SplitOnSpaces(s[i + 1..]));
    }
  }
}

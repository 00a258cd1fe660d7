/** Byte strings and the library routines of Go's `bytes` and `strings` packages that the core relies on. */
module Bytes {

  newtype byte = x: int | 0 <= x < 0x100

  type bytes = seq<byte>

  /** The bytes of an ASCII literal. */
  function Ascii(s: string): (r: bytes)
    ensures |r| == |s|
    ensures forall i :: 0 <= i < |s| && s[i] < 128 as char ==> r[i] as int == s[i] as int
  {
    seq(|s|, i requires 0 <= i < |s| => if s[i] < 128 as char then s[i] as int as byte else 0)
  }

  const LF: byte := 10
  const CR: byte := 13
  const SPACE: byte := 32

  lemma Assoc<T>(a: seq<T>, b: seq<T>, c: seq<T>)
    ensures (a + b) + c == a + (b + c)
  {
  }

  lemma CutAt<T>(s: seq<T>, i: nat)
    requires i < |s|
    ensures s == s[..i] + [s[i]] + s[i + 1..]
  {
  }

  // ---- bytes.Index -------------------------------------------------------------------------

  predicate OccursAt(s: bytes, pat: bytes, i: int)
  {
    0 <= i && i + |pat| <= |s| && s[i..i + |pat|] == pat
  }

  /** Least position at or after `from` where `pat` occurs, or -1. */
  function IndexFrom(s: bytes, pat: bytes, from: nat): (i: int)
    requires from <= |s|
    ensures -1 <= i
    ensures i == -1 ==> forall j :: from <= j ==> !OccursAt(s, pat, j)
    ensures i >= 0 ==> from <= i && OccursAt(s, pat, i)
    ensures i >= 0 ==> forall j :: from <= j < i ==> !OccursAt(s, pat, j)
    decreases |s| - from
  {
    if OccursAt(s, pat, from) then from
    else if from == |s| then -1
    else IndexFrom(s, pat, from + 1)
  }

  function Index(s: bytes, pat: bytes): (i: int)
    ensures -1 <= i
    ensures i == -1 ==> forall j :: !OccursAt(s, pat, j)
    ensures i >= 0 ==> OccursAt(s, pat, i) && forall j :: 0 <= j < i ==> !OccursAt(s, pat, j)
  {
    IndexFrom(s, pat, 0)
  }

  lemma Controls()
    ensures [LF, CR, SPACE] == Ascii("\n\r ")
  {
  }

  /** Lower-casing of ASCII text. */
  function LowerByte(b: byte): byte
  {
    if 65 <= b <= 90 then b + 32 else b
  }

  function LowerAscii(s: bytes): bytes
  {
    seq(|s|, i requires 0 <= i < |s| => LowerByte(s[i]))
  }

  // ---- bytes.HasPrefix, bytes.HasSuffix ----------------------------------------------------

  predicate HasPrefix(s: bytes, pre: bytes)
  {
    |pre| <= |s| && s[..|pre|] == pre
  }

  predicate EndsWithCR(s: bytes)
  {
    |s| > 0 && s[|s| - 1] == CR
  }

  function TrimPrefix(s: bytes, pre: bytes): bytes
  {
    if HasPrefix(s, pre) then s[|pre|..] else s
  }

  // ---- bytes.Split and bytes.Join on line feeds --------------------------------------------

  predicate OneLine(s: bytes)
  {
    forall i :: 0 <= i < |s| ==> s[i] != LF
  }

  /** Position of the first line feed, or |s|. */
  function FirstLF(s: bytes): (i: nat)
    ensures i <= |s| && OneLine(s[..i])
    ensures i < |s| ==> s[i] == LF
  {
    if s == [] || s[0] == LF then 0 else
      var i := 1 + FirstLF(s[1..]);
      assert s[..i] == [s[0]] + s[1..][..i - 1];
      i
  }

  function Split(s: bytes): (lines: seq<bytes>)
    ensures |lines| > 0 && forall i :: 0 <= i < |lines| ==> OneLine(lines[i])
    decreases |s|
  {
    var i := FirstLF(s);
    if i == |s| then assert s[..i] == s; [s] else [s[..i]] + Split(s[i + 1..])
  }

  function Join(lines: seq<bytes>): bytes
  {
    if |lines| == 0 then []
    else if |lines| == 1 then lines[0]
    else lines[0] + [LF] + Join(lines[1..])
  }

  lemma FirstLFUnique(s: bytes, line: bytes, rest: bytes)
    requires OneLine(line)
    requires s == line + [LF] + rest
    ensures FirstLF(s) == |line| && s[..|line|] == line && s[|line| + 1..] == rest
  {
    var i := FirstLF(s);
    assert s[|line|] == LF;
    assert forall k :: 0 <= k < |line| ==> s[k] == line[k] && s[k] != LF;
    assert forall k :: 0 <= k < i ==> s[..i][k] == s[k];
  }

  lemma SplitCons(line: bytes, rest: bytes)
    requires OneLine(line)
    ensures Split(line + [LF] + rest) == [line] + Split(rest)
  {
    FirstLFUnique(line + [LF] + rest, line, rest);
  }

  lemma SplitSingle(line: bytes)
    requires OneLine(line)
    ensures Split(line) == [line]
  {
    assert line[..|line|] == line;
  }

  lemma JoinOne(line: bytes)
    ensures Join([line]) == line
  {
  }

  lemma JoinCons(line: bytes, lines: seq<bytes>)
    requires |lines| > 0
    ensures Join([line] + lines) == line + [LF] + Join(lines)
  {
    assert ([line] + lines)[1..] == lines;
  }

  lemma {:induction false} JoinSplit(s: bytes)
    ensures Join(Split(s)) == s
    decreases |s|
  {
    hide FirstLF, OneLine, Join;
    var i := FirstLF(s);
    if i < |s| {
      var line, rest := s[..i], s[i + 1..];
      JoinSplit(rest);
      JoinCons(line, Split(rest));
      CutAt(s, i);
    } else {
      JoinOne(s);
    }
  }

  lemma {:induction false} SplitJoin(lines: seq<bytes>)
    requires |lines| > 0 && forall i :: 0 <= i < |lines| ==> OneLine(lines[i])
    ensures Split(Join(lines)) == lines
  {
    if |lines| == 1 {
      SplitSingle(lines[0]);
    } else {
      SplitJoin(lines[1..]);
      SplitCons(lines[0], Join(lines[1..]));
    }
  }

  /** All lines but the last, and the last one, which alone can still grow. */
  function ClosedLines(s: bytes): seq<bytes>
  {
    var lines := Split(s);
    lines[..|lines| - 1]
  }

  function LastLine(s: bytes): bytes
  {
    var lines := Split(s);
    lines[|lines| - 1]
  }

  lemma LinesCons(line: bytes, rest: bytes)
    requires OneLine(line)
    ensures ClosedLines(line + [LF] + rest) == [line] + ClosedLines(rest)
    ensures LastLine(line + [LF] + rest) == LastLine(rest)
  {
    SplitCons(line, rest);
  }

  /** Splitting is chunk-independent: closed lines stay as they are. */
  lemma {:induction false} SplitAppend(a: bytes, b: bytes)
    ensures Split(a + b) == ClosedLines(a) + Split(LastLine(a) + b)
    decreases |a|
  {
    var i := FirstLF(a);
    hide FirstLF;
    if i == |a| {
      assert ClosedLines(a) + Split(a + b) == Split(a + b);
    } else {
      var line, rest := a[..i], a[i + 1..];
      hide Split, ClosedLines, LastLine;
      assert OneLine(line);
      CutAt(a, i);
      hide OneLine;
      Assoc(line + [LF], rest, b);
      SplitCons(line, rest + b);
      LinesCons(line, rest);
      SplitAppend(rest, b);
      Assoc([line], ClosedLines(rest), Split(LastLine(rest) + b));
    }
  }

  // ---- Concatenation of pieces -------------------------------------------------------------

  function Concat(parts: seq<bytes>): bytes
  {
    if parts == [] then [] else parts[0] + Concat(parts[1..])
  }

  lemma {:induction false} ConcatAppend(a: seq<bytes>, b: seq<bytes>)
    ensures Concat(a + b) == Concat(a) + Concat(b)
  {
    if a == [] {
      assert a + b == b;
    } else {
      ConcatAppend(a[1..], b);
      assert (a + b)[1..] == a[1..] + b;
      Assoc(a[0], Concat(a[1..]), Concat(b));
    }
  }

  lemma ConcatSnoc(a: seq<bytes>, x: bytes)
    ensures Concat(a + [x]) == Concat(a) + x
  {
    ConcatAppend(a, [x]);
    assert Concat([x]) == x + Concat([]);
  }

  // ---- bytes.TrimSpace ---------------------------------------------------------------------
  // Unicode white space in UTF-8.  A byte string starts (ends) with a white-space rune exactly when one of
  // these encodings is a prefix (suffix) of it, because UTF-8 is self-synchronising.

  predicate IsSpaceRune(s: bytes)
  {
    || (|s| == 1 && (9 <= s[0] <= 13 || s[0] == SPACE))
    || (|s| == 2 && s[0] == 0xC2 && (s[1] == 0x85 || s[1] == 0xA0))
    || (|s| == 3 && s[0] == 0xE1 && s[1] == 0x9A && s[2] == 0x80)
    || (|s| == 3 && s[0] == 0xE2 && s[1] == 0x80 && (0x80 <= s[2] <= 0x8A || s[2] == 0xA8 || s[2] == 0xA9 || s[2] == 0xAF))
    || (|s| == 3 && s[0] == 0xE2 && s[1] == 0x81 && s[2] == 0x9F)
    || (|s| == 3 && s[0] == 0xE3 && s[1] == 0x80 && s[2] == 0x80)
  }

  /** The code points of the Basic Multilingual Plane in UTF-8. */
  function Utf8(c: nat): bytes
    requires c < 0x10000
  {
    if c < 0x80 then [c as byte]
    else if c < 0x800 then [(0xC0 + c / 64) as byte, (0x80 + c % 64) as byte]
    else [(0xE0 + c / 4096) as byte, (0x80 + c / 64 % 64) as byte, (0x80 + c % 64) as byte]
  }

  /** The property White_Space of the Unicode standard. */
  predicate IsUnicodeSpace(c: nat)
  {
    9 <= c <= 13 || c == 0x20 || c == 0x85 || c == 0xA0 || c == 0x1680 || 0x2000 <= c <= 0x200A
    || c == 0x2028 || c == 0x2029 || c == 0x202F || c == 0x205F || c == 0x3000
  }

  /** The code point that a white-space rune encodes. */
  function SpaceCode(s: bytes): nat
    requires |s| > 0
  {
    if |s| == 1 then s[0] as int
    else if |s| == 2 then s[1] as int
    else if s[0] == 0xE1 then 0x1680
    else if s[0] == 0xE3 then 0x3000
    else if s[1] == 0x81 then 0x205F
    else 0x2000 + (if s[2] >= 0x80 then s[2] as int - 0x80 else 0)
  }

  lemma RuneHasCode(s: bytes)
    requires IsSpaceRune(s)
    ensures IsUnicodeSpace(SpaceCode(s)) && Utf8(SpaceCode(s)) == s
  {
    var c := SpaceCode(s);
    if |s| == 3 && s[0] == 0xE2 && s[1] == 0x80 {
      assert c / 4096 == 2 && c / 64 % 64 == 0 && c % 64 == s[2] as int - 0x80;
    }
  }

  lemma CodeHasRune(c: nat)
    requires IsUnicodeSpace(c)
    ensures IsSpaceRune(Utf8(c))
  {
    if 0x2000 <= c <= 0x202F {
      assert c / 4096 == 2 && c / 64 == 128 && c / 64 % 64 == 0 && c % 64 == c - 0x2000;
    }
  }

  /** What counts as white space is what Unicode says. */
  lemma SpaceRunesAreUnicode(s: bytes)
    ensures IsSpaceRune(s) <==> exists c: nat :: c < 0x10000 && IsUnicodeSpace(c) && Utf8(c) == s
  {
    if IsSpaceRune(s) {
      RuneHasCode(s);
    }
    hide IsSpaceRune, Utf8, SpaceCode;
    if c: nat :| c < 0x10000 && IsUnicodeSpace(c) && Utf8(c) == s {
      CodeHasRune(c);
    }
  }

  /** Length of the white-space rune that starts `s`; 0 if there is none. */
  function LeadingSpace(s: bytes): (n: nat)
    ensures n <= |s|
  {
    if |s| >= 1 && IsSpaceRune(s[..1]) then 1
    else if |s| >= 2 && IsSpaceRune(s[..2]) then 2
    else if |s| >= 3 && IsSpaceRune(s[..3]) then 3
    else 0
  }

  function TrailingSpace(s: bytes): (n: nat)
    ensures n <= |s|
  {
    if EndsInSpace(s, 1) then 1
    else if EndsInSpace(s, 2) then 2
    else if EndsInSpace(s, 3) then 3
    else 0
  }

  predicate EndsInSpace(s: bytes, k: nat)
  {
    k <= |s| && IsSpaceRune(s[|s| - k..])
  }

  function TrimLeft(s: bytes): (r: bytes)
    ensures |r| <= |s|
    decreases |s|
  {
    var n := LeadingSpace(s);
    if n == 0 then s else TrimLeft(s[n..])
  }

  function TrimRight(s: bytes): (r: bytes)
    ensures |r| <= |s|
    decreases |s|
  {
    var n := TrailingSpace(s);
    if n == 0 then s else TrimRight(s[..|s| - n])
  }

  function TrimSpace(s: bytes): bytes
  {
    TrimRight(TrimLeft(s))
  }

  lemma LeadingSpaceMeaning(s: bytes, k: nat)
    requires k <= |s| && IsSpaceRune(s[..k])
    ensures LeadingSpace(s) > 0
  {
  }

  /** Text that is a sequence of white-space runes. */
  ghost predicate Blank(s: bytes)
  {
    exists runes :: SpaceRunes(runes) && Concat(runes) == s
  }

  predicate SpaceRunes(runes: seq<bytes>)
  {
    forall i :: 0 <= i < |runes| ==> IsSpaceRune(runes[i])
  }

  lemma BlankNothing()
    ensures Blank([])
  {
    var none: seq<bytes> := [];
    assert SpaceRunes(none) && Concat(none) == [];
  }

  lemma BlankAround(s: bytes, rune: bytes)
    requires Blank(s) && IsSpaceRune(rune)
    ensures Blank(rune + s) && Blank(s + rune)
  {
    hide IsSpaceRune;
    var runes :| SpaceRunes(runes) && Concat(runes) == s;
    ConcatSnoc(runes, rune);
    assert ([rune] + runes)[1..] == runes;
    assert SpaceRunes(runes + [rune]) && SpaceRunes([rune] + runes);
    assert Concat([rune] + runes) == rune + s;
  }

  /** Only white space is cut off at the front, and none is left there. */
  lemma {:induction false} TrimLeftMeaning(s: bytes)
    ensures var r := TrimLeft(s); LeadingSpace(r) == 0 && |r| <= |s| && r == s[|s| - |r|..] && Blank(s[..|s| - |r|])
    decreases |s|
  {
    hide LeadingSpace, IsSpaceRune, Blank;
    var n := LeadingSpace(s);
    BlankNothing();
    if n > 0 {
      LeadingSpaceIsRune(s);
      TrimLeftMeaning(s[n..]);
      var k := |s| - n - |TrimLeft(s)|;
      assert s[n..][k..] == s[n + k..];
      BlankAround(s[n..][..k], s[..n]);
      assert s[..n] + s[n..][..k] == s[..n + k];
    } else {
      assert s[..0] == [];
    }
  }

  lemma LeadingSpaceIsRune(s: bytes)
    ensures LeadingSpace(s) > 0 ==> IsSpaceRune(s[..LeadingSpace(s)])
  {
    hide IsSpaceRune;
  }

  lemma {:induction false} TrimRightMeaning(s: bytes)
    ensures var r := TrimRight(s); TrailingSpace(r) == 0 && |r| <= |s| && r == s[..|r|] && Blank(s[|r|..])
    decreases |s|
  {
    hide TrailingSpace, IsSpaceRune, Blank;
    var n := TrailingSpace(s);
    BlankNothing();
    if n > 0 {
      TrailingSpaceMeaning(s);
      TrimRightMeaning(s[..|s| - n]);
      var k := |TrimRight(s)|;
      assert s[..|s| - n][..k] == s[..k];
      BlankAround(s[..|s| - n][k..], s[|s| - n..]);
      assert s[..|s| - n][k..] + s[|s| - n..] == s[k..];
    } else {
      assert s[|s|..] == [];
    }
  }

  lemma LeadingSpacePrefix(s: bytes, k: nat)
    requires k <= |s| && LeadingSpace(s) == 0
    ensures LeadingSpace(s[..k]) == 0
  {
    hide IsSpaceRune;
    var n := LeadingSpace(s[..k]);
    assert s[..k][..n] == s[..n];
  }

  /** What TrimSpace promises: no white space is left at either end, and only white space at the ends is cut. */
  lemma TrimSpaceEnds(s: bytes)
    ensures var r := TrimSpace(s);
            && LeadingSpace(r) == 0 && TrailingSpace(r) == 0
            && exists i, j :: 0 <= i <= j <= |s| && r == s[i..j] && Blank(s[..i]) && Blank(s[j..])
  {
    hide LeadingSpace, TrailingSpace, TrimLeft, TrimRight, IsSpaceRune, Blank;
    var l := TrimLeft(s);
    var r := TrimRight(l);
    TrimLeftMeaning(s);
    TrimRightMeaning(l);
    LeadingSpacePrefix(l, |r|);
    var i := |s| - |l|;
    assert s[i..][..|r|] == s[i..i + |r|];
    assert s[i..][|r|..] == s[i + |r|..];
  }

  lemma TrimSpaceIdempotent(s: bytes)
    ensures TrimSpace(TrimSpace(s)) == TrimSpace(s)
  {
    hide LeadingSpace, TrailingSpace, Blank;
    TrimSpaceEnds(s);
  }

  lemma CRIsSpace(v: bytes)
    ensures EndsWithCR(v) ==> TrailingSpace(v) > 0
  {
    if EndsWithCR(v) {
      assert v[|v| - 1..] == [CR];
      assert EndsInSpace(v, 1);
    }
  }

  lemma TrimmedEndsNotInCR(x: bytes)
    ensures !EndsWithCR(TrimSpace(x))
  {
    TrimSpaceEnds(x);
    CRIsSpace(TrimSpace(x));
    hide *;
  }

  /** Text between two printable characters is not trimmed. */
  lemma TrimSpaceBetween(v: bytes)
    requires v != [] && 32 < v[0] < 127 && 32 < v[|v| - 1] < 127
    ensures TrimSpace(v) == v && !EndsWithCR(v)
  {
    forall k | 0 < k <= |v|
      ensures !IsSpaceRune(v[..k]) && !EndsInSpace(v, k)
    {
      PrintableIsNoSpace(v[..k], 0);
      PrintableIsNoSpace(v[|v| - k..], k - 1);
    }
    assert LeadingSpace(v) == 0 && TrailingSpace(v) == 0;
    hide LeadingSpace, TrailingSpace;
  }

  lemma AsciiOneLine(s: string)
    requires forall i :: 0 <= i < |s| ==> s[i] < 128 as char && s[i] != '\n'
    ensures OneLine(Ascii(s))
  {
  }

  lemma TrimSpaceOneLine(s: bytes)
    requires OneLine(s)
    ensures OneLine(TrimSpace(s))
  {
    hide LeadingSpace, TrailingSpace, TrimSpace, Blank;
    TrimSpaceEnds(s);
  }

  /** A white-space rune at the end is no part of a longer one. */
  lemma LeadingSpaceBeforeRune(s: bytes, rune: bytes)
    requires IsSpaceRune(rune)
    ensures LeadingSpace(s + rune) == if s == [] then |rune| else LeadingSpace(s)
  {
    var t := s + rune;
    assert forall k :: 0 <= k <= |s| ==> t[..k] == s[..k];
    if s == [] {
      assert t == rune;
      assert forall k :: 0 < k < |rune| ==> !IsSpaceRune(t[..k]);
      assert t[..|rune|] == rune;
    } else if |s| == 1 {
      assert t[..2][1] == rune[0];
      assert |t| >= 3 ==> t[..3][1] == rune[0];
    } else if |s| == 2 {
      assert t[..3][2] == rune[0];
    }
  }

  lemma {:induction false} TrimLeftBeforeRune(s: bytes, rune: bytes)
    requires IsSpaceRune(rune)
    ensures TrimLeft(s + rune) == if TrimLeft(s) == [] then [] else TrimLeft(s) + rune
    decreases |s|
  {
    hide LeadingSpace, IsSpaceRune;
    LeadingSpaceBeforeRune(s, rune);
    RuneNotEmpty(rune);
    var n := LeadingSpace(s);
    if s == [] {
      assert (s + rune)[|rune|..] == [];
      LeadingSpaceOfNothing();
    } else if n > 0 {
      TrimLeftBeforeRune(s[n..], rune);
      assert (s + rune)[n..] == s[n..] + rune;
    }
  }

  lemma RuneNotEmpty(rune: bytes)
    requires IsSpaceRune(rune)
    ensures 1 <= |rune| <= 3
  {
  }

  lemma LeadingSpaceOfNothing()
    ensures LeadingSpace([]) == 0
  {
  }

  lemma TrailingRune(s: bytes, rune: bytes)
    requires IsSpaceRune(rune)
    ensures TrailingSpace(s + rune) == |rune|
  {
    RuneNotEmpty(rune);
    SuffixBehind(s, rune, |rune|);
    assert rune[|rune| - |rune|..] == rune;
    SuffixBehind(s, rune, 1);
    if |rune| >= 2 {
      SuffixBehind(s, rune, 2);
    }
  }

  lemma SuffixBehind(front: bytes, s: bytes, k: nat)
    requires k <= |s|
    ensures (front + s)[|front + s| - k..] == s[|s| - k..]
  {
  }

  /** White space at the end does not matter to TrimSpace. */
  lemma TrimSpaceBeforeRune(s: bytes, rune: bytes)
    requires IsSpaceRune(rune)
    ensures TrimSpace(s + rune) == TrimSpace(s)
  {
    hide LeadingSpace, TrailingSpace, TrimLeft, IsSpaceRune;
    RuneNotEmpty(rune);
    TrimLeftBeforeRune(s, rune);
    var l := TrimLeft(s);
    if l != [] {
      TrailingRune(l, rune);
      assert (l + rune)[..|l|] == l;
    }
  }

  lemma TrimSpaceBeforeLF(s: bytes)
    ensures TrimSpace(s + [LF]) == TrimSpace(s)
  {
    TrimSpaceBeforeRune(s, [LF]);
  }

  lemma {:induction false} TrimSpaceIgnoresCRs(s: bytes)
    ensures TrimSpace(TrimCRs(s)) == TrimSpace(s)
  {
    hide TrimSpace;
    if EndsWithCR(s) {
      var front := s[..|s| - 1];
      TrimSpaceIgnoresCRs(front);
      TrimSpaceBeforeRune(front, [CR]);
      assert s == front + [CR];
    }
  }

  /** Nor does it matter whether the end was trimmed before. */
  lemma {:induction false} TrimSpaceAfterTrimRight(s: bytes)
    ensures TrimSpace(TrimRight(s)) == TrimSpace(s)
    decreases |s|
  {
    hide TrimSpace, TrailingSpace, IsSpaceRune;
    var n := TrailingSpace(s);
    if n > 0 {
      var front, rune := s[..|s| - n], s[|s| - n..];
      TrailingSpaceMeaning(s);
      TrimSpaceAfterTrimRight(front);
      TrimSpaceBeforeRune(front, rune);
      assert s == front + rune;
    }
  }

  /** Text behind an ASCII word is trimmed at its end alone. */
  lemma {:induction false} TrimRightBehind(word: bytes, s: bytes)
    requires Word(word)
    ensures TrimRight(word + s) == word + TrimRight(s)
    decreases |s|
  {
    hide TrailingSpace;
    TrailingSpaceBehind(word, s);
    var n := TrailingSpace(s);
    if n > 0 {
      TrimRightBehind(word, s[..|s| - n]);
      assert (word + s)[..|word + s| - n] == word + s[..|s| - n];
    }
  }

  /** A word of printable ASCII characters other than the blank. */
  predicate Word(w: bytes)
  {
    w != [] && forall i :: 0 <= i < |w| ==> 32 < w[i] < 127
  }

  lemma TrailingSpaceBehind(word: bytes, s: bytes)
    requires Word(word)
    ensures TrailingSpace(word + s) == TrailingSpace(s)
  {
    SpaceBehindWord(word, s, 1);
    SpaceBehindWord(word, s, 2);
    SpaceBehindWord(word, s, 3);
    hide EndsInSpace;
  }

  lemma SpaceBehindWord(word: bytes, s: bytes, k: nat)
    requires Word(word) && k > 0
    ensures EndsInSpace(word + s, k) == EndsInSpace(s, k)
  {
    hide IsSpaceRune;
    var t := word + s;
    if k <= |s| {
      SuffixBehind(word, s, k);
    } else if k <= |t| {
      var last := word[|word| - 1];
      assert t[|word| - 1] == last;
      assert t[|t| - k..][k - |s| - 1] == last;
      PrintableIsNoSpace(t[|t| - k..], k - |s| - 1);
    }
  }

  lemma PrintableIsNoSpace(s: bytes, i: nat)
    requires i < |s| && 32 < s[i] < 127
    ensures !IsSpaceRune(s)
  {
  }

  lemma TrimSpaceBehind(word: bytes, s: bytes)
    requires Word(word)
    ensures TrimSpace(word + s) == word + TrimRight(s)
  {
    var t := word + s;
    assert forall k :: 0 < k <= |t| ==> t[..k][0] == word[0];
    assert LeadingSpace(t) == 0;
    hide LeadingSpace, TrailingSpace, TrimRight;
    TrimRightBehind(word, s);
  }

  lemma TrimSpaceBehindBlank(s: bytes)
    ensures TrimSpace([SPACE] + s) == TrimSpace(s)
  {
    var t := [SPACE] + s;
    assert t[..1] == [SPACE];
    assert LeadingSpace(t) == 1 && t[1..] == s;
    hide LeadingSpace;
  }

  /** Only text made of white space alone trims to nothing. */
  lemma {:induction false} TrimRightToNothing(s: bytes)
    requires s != [] && TrimRight(s) == []
    ensures LeadingSpace(s) > 0
    decreases |s|
  {
    hide IsSpaceRune, LeadingSpace, TrailingSpace;
    var n := TrailingSpace(s);
    var front := s[..|s| - n];
    if front == [] {
      TrailingSpaceMeaning(s);
      assert s[|s| - n..] == s[..|s|];
      LeadingSpaceMeaning(s, |s|);
    } else if n > 0 {
      TrimRightToNothing(front);
      if LeadingSpace(s) == 0 {
        LeadingSpacePrefix(s, |s| - n);
      }
    }
  }

  lemma TrailingSpaceMeaning(s: bytes)
    ensures TrailingSpace(s) > 0 ==> IsSpaceRune(s[|s| - TrailingSpace(s)..])
  {
    hide IsSpaceRune;
  }

  /** White space cannot start in a line and reach over its line feed. */
  lemma LeadingSpaceInLine(line: bytes, rest: bytes)
    requires line != [] && LeadingSpace(line) == 0
    ensures LeadingSpace(line + [LF] + rest) == 0
  {
    var t := line + [LF] + rest;
    assert t[|line|] == LF;
    assert forall k :: 0 <= k <= |line| ==> t[..k] == line[..k];
    if |line| == 1 {
      assert t[..2][1] == LF;
      assert |t| >= 3 ==> t[..3][1] == LF;
    } else if |line| == 2 {
      assert t[..3][2] == LF;
    }
  }

  lemma JoinNotBlank(lines: seq<bytes>)
    requires |lines| > 0 && lines[0] != [] && LeadingSpace(lines[0]) == 0
    ensures TrimSpace(Join(lines)) != []
  {
    hide LeadingSpace;
    var s := Join(lines);
    if |lines| > 1 {
      LeadingSpaceInLine(lines[0], Join(lines[1..]));
    }
    if TrimRight(s) == [] {
      TrimRightToNothing(s);
    }
  }

  /** bytes.TrimRight(s, "\r"). */
  function TrimCRs(s: bytes): (r: bytes)
    ensures |r| <= |s| && r == s[..|r|]
  {
    if EndsWithCR(s) then TrimCRs(s[..|s| - 1]) else s
  }
}

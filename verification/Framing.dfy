/** Server-sent-event framing: the delimiter search every stream component shares. */
module Framing {
  import opened Bytes

  datatype Delimiter = Missing | Found(idx: nat, len: nat)

  const LFLF: bytes := [LF, LF]
  const CRLFCRLF: bytes := [CR, LF, CR, LF]

  /** Earliest of the two delimiters. */
  function FindSSEDelimiter(data: bytes): (d: Delimiter)
    ensures d.Found? ==> d.len > 0 && d.idx + d.len <= |data|
  {
    var lfIdx := Index(data, LFLF);
    var crlfIdx := Index(data, CRLFCRLF);
    if lfIdx == -1 && crlfIdx == -1 then Missing
    else if lfIdx == -1 then Found(crlfIdx, 4)
    else if crlfIdx == -1 then Found(lfIdx, 2)
    else if lfIdx < crlfIdx then Found(lfIdx, 2)
    else Found(crlfIdx, 4)
  }

  // ---- Reference definition: a frame ends where the text read so far first ends in a blank line ----

  predicate EndsInBlankLine(s: bytes, e: int)
  {
    && 2 <= e <= |s|
    && s[e - 1] == LF
    && (s[e - 2] == LF || (4 <= e && s[e - 2] == CR && s[e - 3] == LF && s[e - 4] == CR))
  }

  ghost predicate FirstBlankLine(s: bytes, e: int)
  {
    EndsInBlankLine(s, e) && forall k :: k < e ==> !EndsInBlankLine(s, k)
  }

  /** A blank line ends where one of the two delimiters does. */
  lemma BlankLineIsDelimiter(s: bytes, e: int)
    ensures EndsInBlankLine(s, e) <==> OccursAt(s, LFLF, e - 2) || OccursAt(s, CRLFCRLF, e - 4)
  {
    if 2 <= e <= |s| {
      assert s[e - 2..e] == [s[e - 2], s[e - 1]];
    }
    if 4 <= e <= |s| {
      assert s[e - 4..e] == [s[e - 4], s[e - 3], s[e - 2], s[e - 1]];
    }
  }

  /** The search by earliest start agrees with the reference by earliest end. */
  lemma DelimiterIsFirstBlankLine(s: bytes)
    ensures var d := FindSSEDelimiter(s);
            if d.Missing? then forall e :: !EndsInBlankLine(s, e) else FirstBlankLine(s, d.idx + d.len)
  {
    hide EndsInBlankLine;
    forall e
      ensures EndsInBlankLine(s, e) <==> OccursAt(s, LFLF, e - 2) || OccursAt(s, CRLFCRLF, e - 4)
    {
      BlankLineIsDelimiter(s, e);
    }
    NoShortInLong(s);
    hide OccursAt, Index;
  }

  /** No short delimiter ends inside a long one that starts no later. */
  lemma NoShortInLong(s: bytes)
    ensures forall i, j :: OccursAt(s, LFLF, i) && OccursAt(s, CRLFCRLF, j) && j <= i ==> j + 3 <= i
  {
    forall i, j | OccursAt(s, LFLF, i) && OccursAt(s, CRLFCRLF, j) && j <= i
      ensures j + 3 <= i
    {
      assert s[i..i + 2][0] == s[i] && s[i..i + 2][1] == s[i + 1];
      var w := s[j..j + 4];
      assert s[j] == w[0] && s[j + 1] == w[1] && s[j + 2] == w[2] && s[j + 3] == w[3];
    }
  }

  // ---- Frames of a whole stream ------------------------------------------------------------

  /** Length of the first complete frame, delimiter included; 0 if no frame is complete yet. */
  function FrameLen(s: bytes): (n: nat)
    ensures n <= |s|
  {
    match FindSSEDelimiter(s)
    case Missing => 0
    case Found(idx, len) => idx + len
  }

  lemma DelimiterGivesFrameLen(s: bytes)
    ensures var d := FindSSEDelimiter(s); FrameLen(s) == if d.Missing? then 0 else d.idx + d.len
  {
  }

  predicate IsFrame(f: bytes)
  {
    |f| > 0 && FrameLen(f) == |f|
  }

  function Frames(s: bytes): seq<bytes>
    decreases |s|
  {
    var n := FrameLen(s);
    if n == 0 then [] else [s[..n]] + Frames(s[n..])
  }

  /** What is left behind the last complete frame. */
  function Residual(s: bytes): bytes
    decreases |s|
  {
    var n := FrameLen(s);
    if n == 0 then s else Residual(s[n..])
  }

  lemma FrameLenMeaning(s: bytes)
    ensures FrameLen(s) > 0 ==> FirstBlankLine(s, FrameLen(s))
    ensures FrameLen(s) == 0 ==> forall e :: !EndsInBlankLine(s, e)
  {
    DelimiterIsFirstBlankLine(s);
  }

  lemma FrameLenUnique(s: bytes, n: nat)
    requires FirstBlankLine(s, n)
    ensures FrameLen(s) == n
  {
    FrameLenMeaning(s);
  }

  /** Prefix stability: a delimiter found in a prefix is the one found in every extension. */
  lemma FrameLenStable(s: bytes, more: bytes)
    requires FrameLen(s) > 0
    ensures FrameLen(s + more) == FrameLen(s)
  {
    FrameLenMeaning(s);
    var n := FrameLen(s);
    forall e | e <= n ensures EndsInBlankLine(s + more, e) == EndsInBlankLine(s, e) {}
    FrameLenUnique(s + more, n);
  }

  lemma FirstFrameIsFrame(s: bytes)
    requires FrameLen(s) > 0
    ensures IsFrame(s[..FrameLen(s)])
  {
    FrameLenMeaning(s);
    var n := FrameLen(s);
    forall e | e <= n ensures EndsInBlankLine(s[..n], e) == EndsInBlankLine(s, e) {}
    FrameLenUnique(s[..n], n);
  }

  /** A frame in front of any text is split off first. */
  lemma FramesCons(f: bytes, s: bytes)
    requires IsFrame(f)
    ensures Frames(f + s) == [f] + Frames(s)
    ensures Residual(f + s) == Residual(s)
  {
    FrameLenStable(f, s);
    assert (f + s)[..|f|] == f && (f + s)[|f|..] == s;
  }

  lemma {:induction false} FramesConcat(fs: seq<bytes>, s: bytes)
    requires forall i :: 0 <= i < |fs| ==> IsFrame(fs[i])
    ensures Frames(Concat(fs) + s) == fs + Frames(s)
    ensures Residual(Concat(fs) + s) == Residual(s)
  {
    hide FrameLen, IsFrame, Frames, Residual;
    if fs == [] {
      assert Concat(fs) + s == s;
      assert fs + Frames(s) == Frames(s);
    } else {
      var t := Concat(fs[1..]) + s;
      FramesConcat(fs[1..], s);
      FramesCons(fs[0], t);
      assert Concat(fs) + s == fs[0] + t;
      assert [fs[0]] + (fs[1..] + Frames(s)) == fs + Frames(s);
    }
  }

  /** Splitting loses nothing: the frames and the residual give the text back. */
  lemma {:induction false} FramesPartition(s: bytes)
    ensures s == Concat(Frames(s)) + Residual(s)
    ensures forall i :: 0 <= i < |Frames(s)| ==> IsFrame(Frames(s)[i])
    ensures FrameLen(Residual(s)) == 0
    decreases |s|
  {
    hide FrameLen, IsFrame;
    var n := FrameLen(s);
    if n > 0 {
      FirstFrameIsFrame(s);
      FramesPartition(s[n..]);
      var fs := Frames(s[n..]);
      assert Frames(s) == [s[..n]] + fs && Residual(s) == Residual(s[n..]);
      assert Concat([s[..n]] + fs) == s[..n] + Concat(fs) by {
        assert ([s[..n]] + fs)[1..] == fs;
      }
      Assoc(s[..n], Concat(fs), Residual(s[n..]));
      assert s == s[..n] + s[n..];
      hide Frames, Residual, Concat;
    }
  }

  /** Splitting is chunk-independent: text may be split as it arrives, keeping only the residual. */
  lemma FramesAppend(a: bytes, b: bytes)
    ensures Frames(a + b) == Frames(a) + Frames(Residual(a) + b)
    ensures Residual(a + b) == Residual(Residual(a) + b)
  {
    hide FrameLen, IsFrame, Frames, Residual, Concat;
    var fs, r := Frames(a), Residual(a);
    FramesPartition(a);
    FramesConcat(fs, r + b);
    assert (Concat(fs) + r) + b == Concat(fs) + (r + b);
  }

  /** The only way to cut a text into frames and a frameless rest is the one computed. */
  lemma FramesUnique(fs: seq<bytes>, rest: bytes)
    requires forall i :: 0 <= i < |fs| ==> IsFrame(fs[i])
    requires FrameLen(rest) == 0
    ensures Frames(Concat(fs) + rest) == fs && Residual(Concat(fs) + rest) == rest
  {
    FramesConcat(fs, rest);
  }

  /** What follows a text without a frame can only complete one, not end it earlier. */
  lemma FrameNotWithin(s: bytes, more: bytes)
    requires FrameLen(s) == 0
    ensures FrameLen(s + more) == 0 || |s| < FrameLen(s + more)
  {
    hide FrameLen;
    var t := s + more;
    var n := FrameLen(t);
    if 0 < n <= |s| {
      FirstFrameIsFrame(t);
      assert t[..n] + s[n..] == s;
      FrameLenStable(t[..n], s[n..]);
    }
  }

  /** The first frame of a text and more, in terms of the text alone. */
  lemma FirstFrameIn(s: bytes, more: bytes)
    ensures var n, frames := FrameLen(s), Frames(s + more);
            if n > 0 then frames == [s[..n]] + Frames(s[n..] + more) else frames != [] ==> |s| < |frames[0]| <= |s + more|
  {
    hide FrameLen;
    var n, t := FrameLen(s), s + more;
    if n > 0 {
      FrameLenStable(s, more);
      assert t[..n] == s[..n] && t[n..] == s[n..] + more;
    } else {
      FrameNotWithin(s, more);
    }
  }

  lemma NoFrameInNothing()
    ensures FrameLen([]) == 0
  {
    FrameLenMeaning([]);
  }

  // ---- Frames in terms of lines ------------------------------------------------------------

  /** Text that holds no frame end, even when a line feed follows. */
  predicate Unbroken(s: bytes)
  {
    FrameLen(s + [LF]) == 0
  }

  lemma OneLineIsUnbroken(line: bytes)
    requires OneLine(line)
    ensures Unbroken(line)
  {
    var s := line + [LF];
    FrameLenMeaning(s);
    assert forall i :: 0 <= i < |line| ==> s[i] == line[i] && s[i] != LF;
    hide FrameLen;
  }

  /** Text without line breaks in front of another adds no frame end. */
  lemma FrameBehindWord(word: bytes, s: bytes)
    requires LF !in word && CR !in word
    ensures FrameLen(word + s) == 0 <==> FrameLen(s) == 0
  {
    hide FrameLen;
    var t := word + s;
    FrameLenMeaning(s);
    FrameLenMeaning(t);
    assert forall i :: 0 <= i < |word| ==> t[i] == word[i];
    assert forall i :: 0 <= i < |s| ==> t[|word| + i] == s[i];
    if FrameLen(s) > 0 {
      assert EndsInBlankLine(t, |word| + FrameLen(s));
    }
    if FrameLen(t) > 0 {
      assert EndsInBlankLine(s, FrameLen(t) - |word|);
    }
  }

  /** Where the first frame of a text ends, given a beginning up to a line feed and the text behind that. */
  lemma FrameLenPeel(line: bytes, rest: bytes)
    requires Unbroken(line)
    ensures FrameLen(line) == 0
    ensures FrameLen(line + [LF] + rest) ==
            if HasPrefix(rest, [LF]) then |line| + 2
            else if EndsWithCR(line) && HasPrefix(rest, [CR, LF]) then |line| + 3
            else if FrameLen(rest) > 0 then |line| + 1 + FrameLen(rest)
            else 0
  {
    if FrameLen(line) > 0 {
      FrameLenStable(line, [LF]);
    }
    FrameLenMeaning(line + [LF]);
    hide FrameLen;
    FrameLenMeaning(rest);
    var s := line + [LF] + rest;
    FrameLenMeaning(s);
    PeelShort(line, rest);
    PeelLong(line, rest);
    var at := |line| + 1;
    if HasPrefix(rest, [LF]) {
      assert rest[0] == LF;
      FrameLenUnique(s, at + 1);
    } else if EndsWithCR(line) && HasPrefix(rest, [CR, LF]) {
      assert rest[0] == CR && rest[1] == LF;
      FrameLenUnique(s, at + 2);
    } else if FrameLen(rest) > 0 {
      FrameLenUnique(s, at + FrameLen(rest));
    }
  }

  lemma PeelShort(line: bytes, rest: bytes)
    ensures var s := line + [LF] + rest;
            forall e :: e <= |line| + 1 ==> EndsInBlankLine(s, e) == EndsInBlankLine(line + [LF], e)
  {
  }

  lemma PeelLong(line: bytes, rest: bytes)
    ensures var s, at := line + [LF] + rest, |line| + 1;
            forall e :: at < e ==>
              EndsInBlankLine(s, e) ==
              (if e == at + 1 then HasPrefix(rest, [LF])
               else EndsInBlankLine(rest, e - at) || (e == at + 2 && EndsWithCR(line) && HasPrefix(rest, [CR, LF])))
  {
    var s, at := line + [LF] + rest, |line| + 1;
    assert s[|line|] == LF;
    assert forall i :: at <= i < |s| ==> s[i] == rest[i - at];
    assert EndsWithCR(line) == (|line| > 0 && s[|line| - 1] == CR);
  }
}

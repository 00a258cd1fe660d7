/** Rewriting the JSON payloads of a chunked event stream, frame by frame. */
module Transform {
  import opened Bytes
  import opened Framing
  import opened SSEEvent
  import opened UpstreamReader

  type Payload = bytes -> bytes

  const DATA_SPACE := Ascii("data: ")
  const OPEN_BRACE: byte := 123
  const OPEN_BRACKET: byte := 91

  predicate LooksLikeJson(v: bytes)
  {
    |v| > 0 && (v[0] == OPEN_BRACE || v[0] == OPEN_BRACKET)
  }

  /** What a transform may be handed. */
  predicate JsonText(v: bytes)
  {
    LooksLikeJson(v) && OneLine(v) && TrimSpace(v) == v
  }

  /** One line: a JSON data payload is rewritten, a trailing carriage return kept, all else left alone. */
  function TransformLine(transform: Payload, line: bytes): bytes
  {
    var hadCR := EndsWithCR(line);
    var core := if hadCR then line[..|line| - 1] else line;
    var core' := if HasPrefix(core, DATA_FIELD) then
                   var payload := TrimSpace(core[|DATA_FIELD|..]);
                   if LooksLikeJson(payload) then DATA_SPACE + transform(payload) else core
                 else core;
    if hadCR then core' + [CR] else core'
  }

  function TransformLines(transform: Payload, lines: seq<bytes>): seq<bytes>
  {
    if lines == [] then [] else [TransformLine(transform, lines[0])] + TransformLines(transform, lines[1..])
  }

  function TransformFrame(transform: Payload, frame: bytes): bytes
  {
    Join(TransformLines(transform, Split(frame)))
  }

  function TransformFrames(transform: Payload, frames: seq<bytes>): seq<bytes>
  {
    if frames == [] then [] else [TransformFrame(transform, frames[0])] + TransformFrames(transform, frames[1..])
  }

  /** The rewritten stream: every complete frame, then the rest, if any, as one last frame. */
  function Rewrite(transform: Payload, stream: bytes): bytes
  {
    Concat(TransformFrames(transform, Frames(stream))) + RewriteRest(transform, Residual(stream))
  }

  function RewriteRest(transform: Payload, rest: bytes): bytes
  {
    if rest == [] then [] else TransformFrame(transform, rest)
  }

  // ---- Which lines are rewritten, byte by byte ------------------------------------------------

  /** A data line whose payload starts with an opening brace or bracket carries the image of that payload afterwards. */
  lemma JsonLineRewritten(transform: Payload, x: bytes)
    requires TrimSpace(x) != [] && (TrimSpace(x)[0] == 123 || TrimSpace(x)[0] == 91) && !EndsWithCR(x)
    ensures TransformLine(transform, Ascii("data:") + x) == Ascii("data: ") + transform(TrimSpace(x))
    ensures TransformLine(transform, Ascii("data:") + x + [CR]) == Ascii("data: ") + transform(TrimSpace(x)) + [CR]
  {
    if x == [] {
      TrimSpaceNothing();
    }
    hide TrimSpace;
    var core := Ascii("data:") + x;
    assert core[..5] == DATA_FIELD && core[5..] == x;
    assert (core + [CR])[..|core|] == core;
    assert !EndsWithCR(core) && EndsWithCR(core + [CR]);
  }

  lemma TrimSpaceNothing()
    ensures TrimSpace([]) == []
  {
  }

  /** A data line with the value `x`, in which an object or array begins. */
  predicate IsJsonLine(line: bytes, x: bytes)
  {
    && (line == Ascii("data:") + x || line == Ascii("data:") + x + [CR])
    && TrimSpace(x) != [] && (TrimSpace(x)[0] == 123 || TrimSpace(x)[0] == 91)
  }

  /** Every other line comes back as it is. */
  lemma OtherLineKept(transform: Payload, line: bytes)
    requires forall x :: !IsJsonLine(line, x)
    ensures TransformLine(transform, line) == line
  {
    hide TrimSpace, Ascii;
    var hadCR := EndsWithCR(line);
    var core := if hadCR then line[..|line| - 1] else line;
    assert hadCR ==> line == core + [CR];
    if HasPrefix(core, DATA_FIELD) {
      var x := core[|DATA_FIELD|..];
      assert core == DATA_FIELD + x;
      assert !IsJsonLine(line, x);
    }
  }

  /** A tool-use block, for instance, reaches the transform. */
  lemma ToolUseRewritten(transform: Payload)
    ensures var payload := Ascii("{\"name\":\"mcp__read\"}");
            TransformLine(transform, Ascii("data: ") + payload) == Ascii("data: ") + transform(payload)
  {
    var payload := Ascii("{\"name\":\"mcp__read\"}");
    assert payload[0] == 123 && payload[|payload| - 1] == 125;
    SpacedJsonRewritten(transform, payload);
  }

  lemma SpacedJsonRewritten(transform: Payload, payload: bytes)
    requires payload != [] && payload[0] == 123 && payload[|payload| - 1] == 125
    ensures TransformLine(transform, Ascii("data: ") + payload) == Ascii("data: ") + transform(payload)
  {
    TrimSpaceBetween(payload);
    TrimSpaceBehindBlank(payload);
    SpaceBehindColon(payload);
    hide TrimSpace, Ascii, TransformLine;
    JsonLineRewritten(transform, [SPACE] + payload);
  }

  lemma SpaceBehindColon(payload: bytes)
    ensures Ascii("data: ") + payload == Ascii("data:") + ([SPACE] + payload)
  {
  }

  // ---- What rewriting keeps ----------------------------------------------------------------

  /** Text that neither holds a frame end nor makes one with what may follow it in a line. */
  predicate SafeImage(v: bytes)
  {
    !EndsWithCR(v) && Unbroken(v) && Unbroken(v + [CR])
  }

  ghost predicate SafeImages(transform: Payload)
  {
    forall x :: JsonText(x) ==> SafeImage(transform(x))
  }

  /** Text of one line is safe unless it ends in a carriage return. */
  lemma OneLineIsSafe(v: bytes)
    requires OneLine(v) && !EndsWithCR(v)
    ensures SafeImage(v)
  {
    hide Unbroken;
    OneLineIsUnbroken(v);
    OneLineIsUnbroken(v + [CR]);
  }

  /** A transform is safe if whatever it does not return as it is comes back as one line that does not end in a carriage return. */
  lemma ReturningTextIsSafe(transform: Payload)
    requires forall x :: JsonText(x) ==> transform(x) == x || (OneLine(transform(x)) && !EndsWithCR(transform(x)))
    ensures SafeImages(transform)
  {
    hide SafeImage, TrimSpace, EndsWithCR;
    forall x | JsonText(x)
      ensures SafeImage(transform(x))
    {
      TrimmedEndsNotInCR(x);
      OneLineIsSafe(transform(x));
    }
  }

  /** What is handed over is always such text. */
  lemma PayloadIsJsonText(x: bytes)
    requires OneLine(x) && LooksLikeJson(TrimSpace(x))
    ensures JsonText(TrimSpace(x))
  {
    hide TrimSpace;
    TrimSpaceOneLine(x);
    TrimSpaceIdempotent(x);
  }

  /** A rewritten line, in front of anything, does not look like a line end. */
  predicate StartsPlain(s: bytes)
  {
    s != [] && s[0] != LF && s[0] != CR
  }

  lemma TransformLineKeeps(transform: Payload, line: bytes)
    ensures TransformLine(transform, line) == [] <==> line == []
    ensures TransformLine(transform, line) == line || StartsPlain(TransformLine(transform, line))
    ensures SafeImages(transform) && OneLine(line) ==>
              var r := TransformLine(transform, line);
              Unbroken(r) && EndsWithCR(r) == EndsWithCR(line) && (r == [CR] <==> line == [CR])
  {
    hide TrimSpace, SafeImages, JsonText, Unbroken;
    var hadCR := EndsWithCR(line);
    var core := if hadCR then line[..|line| - 1] else line;
    assert hadCR ==> line == core + [CR];
    if HasPrefix(core, DATA_FIELD) && LooksLikeJson(TrimSpace(core[|DATA_FIELD|..])) {
      var x := core[|DATA_FIELD|..];
      var r := DATA_SPACE + transform(TrimSpace(x));
      assert TransformLine(transform, line) == if hadCR then r + [CR] else r;
      assert StartsPlain(r);
      if SafeImages(transform) && OneLine(line) {
        PayloadIsJsonText(x);
        SafeLine(transform, TrimSpace(x));
      }
    } else {
      assert TransformLine(transform, line) == line;
      if OneLine(line) {
        OneLineIsUnbroken(line);
      }
    }
  }

  lemma SafeLine(transform: Payload, x: bytes)
    requires SafeImages(transform) && JsonText(x)
    ensures var r := DATA_SPACE + transform(x);
            Unbroken(r) && Unbroken(r + [CR]) && !EndsWithCR(r) && r[0] == DATA_SPACE[0] != CR
  {
    hide FrameLen, JsonText;
    var v := transform(x);
    assert LF !in DATA_SPACE && CR !in DATA_SPACE;
    FrameBehindWord(DATA_SPACE, v + [LF]);
    FrameBehindWord(DATA_SPACE, v + [CR] + [LF]);
    assert DATA_SPACE + (v + [LF]) == DATA_SPACE + v + [LF];
    assert DATA_SPACE + (v + [CR] + [LF]) == DATA_SPACE + v + [CR] + [LF];
  }

  lemma {:induction false} TransformLinesShape(transform: Payload, lines: seq<bytes>)
    ensures |TransformLines(transform, lines)| == |lines|
    ensures forall i :: 0 <= i < |lines| ==> TransformLines(transform, lines)[i] == TransformLine(transform, lines[i])
  {
    hide TransformLine;
    if lines != [] {
      TransformLinesShape(transform, lines[1..]);
    }
  }

  /** A text ends in its first blank line, or has none, exactly when its rewriting does. */
  lemma {:induction false} RewritingKeepsBlankLines(transform: Payload, lines: seq<bytes>)
    requires SafeImages(transform) && |lines| > 0
    requires forall i :: 0 <= i < |lines| ==> OneLine(lines[i])
    ensures var a, b := Join(lines), Join(TransformLines(transform, lines));
            && (FrameLen(a) == 0 <==> FrameLen(b) == 0)
            && (IsFrame(a) <==> IsFrame(b))
  {
    hide TransformLine, FrameLen, Unbroken, SafeImages;
    var mapped := TransformLines(transform, lines);
    var line, line' := lines[0], TransformLine(transform, lines[0]);
    TransformLineKeeps(transform, line);
    OneLineIsUnbroken(line);
    if |lines| == 1 {
      TransformLinesShape(transform, lines);
      assert mapped == [line'];
      FrameLenPeel(line, []);
      FrameLenPeel(line', []);
    } else {
      var rest, rest' := Join(lines[1..]), Join(mapped[1..]);
      TransformLinesShape(transform, lines);
      RewritingKeepsBlankLines(transform, lines[1..]);
      FrameLenPeel(line, rest);
      FrameLenPeel(line', rest');
      SameStart(transform, lines[1..]);
    }
  }

  /** The first line of a rewriting is blank in the same way. */
  lemma SameStart(transform: Payload, lines: seq<bytes>)
    requires SafeImages(transform) && |lines| > 0
    requires forall i :: 0 <= i < |lines| ==> OneLine(lines[i])
    ensures var a, b := Join(lines), Join(TransformLines(transform, lines));
            && (HasPrefix(a, [LF]) <==> HasPrefix(b, [LF]))
            && (HasPrefix(a, [CR, LF]) <==> HasPrefix(b, [CR, LF]))
            && (a == [LF] <==> b == [LF])
            && (a == [CR, LF] <==> b == [CR, LF])
            && (a == [] <==> b == [])
  {
    hide TransformLine, SafeImages, Unbroken;
    TransformLineKeeps(transform, lines[0]);
    TransformLinesShape(transform, lines);
    var mapped := TransformLines(transform, lines);
    if |lines| > 1 {
      TransformLineKeeps(transform, lines[1]);
    }
    StartOfJoin(lines);
    StartOfJoin(mapped);
  }

  lemma StartOfJoin(lines: seq<bytes>)
    requires |lines| > 0 && (OneLine(lines[0]) || StartsPlain(lines[0]))
    ensures var a := Join(lines);
            && (HasPrefix(a, [LF]) <==> |lines| > 1 && lines[0] == [])
            && (HasPrefix(a, [CR, LF]) <==> |lines| > 1 && lines[0] == [CR])
            && (a == [LF] <==> lines == [[], []])
            && (a == [CR, LF] <==> lines == [[CR], []])
            && (a == [] <==> lines == [[]])
  {
    var a := Join(lines);
    assert HasPrefix(a, [LF]) ==> a[0] == LF;
    assert HasPrefix(a, [CR, LF]) ==> a[0] == CR && a[1] == LF;
    if |lines| > 1 {
      var tail := Join(lines[1..]);
      assert a == lines[0] + [LF] + tail;
      assert tail == [] ==> lines[1..] == [[]];
    }
  }

  lemma TransformFrameKeeps(transform: Payload, frame: bytes)
    ensures TransformFrame(transform, frame) == [] <==> frame == []
    ensures SafeImages(transform) ==>
              var r := TransformFrame(transform, frame);
              (FrameLen(r) == 0 <==> FrameLen(frame) == 0) && (IsFrame(r) <==> IsFrame(frame))
  {
    hide FrameLen, TransformLine, IsFrame, SafeImages, Unbroken;
    var lines := Split(frame);
    JoinSplit(frame);
    TransformLinesShape(transform, lines);
    TransformLineKeeps(transform, lines[0]);
    if SafeImages(transform) {
      RewritingKeepsBlankLines(transform, lines);
    }
  }

  lemma {:induction false} TransformFramesShape(transform: Payload, frames: seq<bytes>)
    ensures |TransformFrames(transform, frames)| == |frames|
    ensures forall i :: 0 <= i < |frames| ==> TransformFrames(transform, frames)[i] == TransformFrame(transform, frames[i])
  {
    hide TransformFrame;
    if frames != [] {
      TransformFramesShape(transform, frames[1..]);
    }
  }

  /** No frame is merged, split or created, and none changes place. */
  ghost predicate FramingKept(transform: Payload, stream: bytes)
  {
    && Frames(Rewrite(transform, stream)) == TransformFrames(transform, Frames(stream))
    && Residual(Rewrite(transform, stream)) == RewriteRest(transform, Residual(stream))
  }

  lemma FramingPreserved(transform: Payload, stream: bytes)
    requires SafeImages(transform)
    ensures FramingKept(transform, stream)
  {
    hide FrameLen, IsFrame, TransformFrame, Frames, Residual, Concat, TransformFrames, SafeImages;
    var fs, rest := Frames(stream), Residual(stream);
    FramesPartition(stream);
    TransformFramesShape(transform, fs);
    var gs := TransformFrames(transform, fs);
    forall i | 0 <= i < |gs|
      ensures IsFrame(gs[i])
    {
      TransformFrameKeeps(transform, fs[i]);
    }
    TransformFrameKeeps(transform, rest);
    NoFrameInNothing();
    FramesUnique(gs, RewriteRest(transform, rest));
  }

  /** Text without a frame whose rewriting has one shows that framing is not kept. */
  lemma FrameMade(transform: Payload, stream: bytes, rewritten: bytes)
    requires stream != [] && FrameLen(stream) == 0
    requires TransformFrame(transform, stream) == rewritten && FrameLen(rewritten) > 0
    ensures !FramingKept(transform, stream)
  {
    hide FrameLen, TransformFrame;
    assert Frames(stream) == [] && Residual(stream) == stream;
    assert Concat(TransformFrames(transform, [])) + rewritten == rewritten;
    assert Rewrite(transform, stream) == rewritten;
    assert Frames(rewritten) != [];
  }

  /** The image of a payload alone in its line. */
  lemma LineOfPayload(transform: Payload, x: bytes)
    requires JsonText(x)
    ensures TransformLine(transform, DATA_FIELD + x) == DATA_SPACE + transform(x)
    ensures TransformLine(transform, DATA_FIELD + x + [CR]) == DATA_SPACE + transform(x) + [CR]
    ensures OneLine(DATA_FIELD + x) && OneLine(DATA_FIELD + x + [CR]) && !EndsWithCR(DATA_FIELD + x)
  {
    TrimmedEndsNotInCR(x);
    hide TrimSpace;
    var core := DATA_FIELD + x;
    assert core[..|DATA_FIELD|] == DATA_FIELD && core[|DATA_FIELD|..] == x;
    assert (core + [CR])[..|core|] == core;
  }

  /** An unsafe image breaks the framing of some stream: the payload, and a line end behind it. */
  lemma UnsafeBreaks(transform: Payload, x: bytes)
    requires JsonText(x) && !SafeImage(transform(x))
    ensures exists stream :: !FramingKept(transform, stream)
  {
    hide FramingKept, FrameLen, TransformLine, JsonText, TransformFrame;
    LineOfPayload(transform, x);
    var line, image := DATA_FIELD + x, DATA_SPACE + transform(x);
    OneLineIsUnbroken(line);
    OneLineIsUnbroken(line + [CR]);
    assert LF !in DATA_SPACE && CR !in DATA_SPACE;
    if !Unbroken(transform(x)) {
      FrameBehindWord(DATA_SPACE, transform(x) + [LF]);
      assert DATA_SPACE + (transform(x) + [LF]) == image + [LF];
      TwoLines(transform, line, []);
      FrameMade(transform, line + [LF], image + [LF]);
    } else if !Unbroken(transform(x) + [CR]) {
      FrameBehindWord(DATA_SPACE, transform(x) + [CR] + [LF]);
      assert DATA_SPACE + (transform(x) + [CR] + [LF]) == image + [CR] + [LF];
      TwoLines(transform, line + [CR], []);
      FrameMade(transform, line + [CR] + [LF], image + [CR] + [LF]);
    } else {
      var stream := line + [LF] + [CR, LF];
      TwoLines(transform, line, [CR, LF]);
      FrameBehindWord(DATA_SPACE, transform(x) + [LF]);
      assert DATA_SPACE + (transform(x) + [LF]) == image + [LF];
      BlankBehind(line, image);
      FrameMade(transform, stream, image + [LF] + [CR, LF]);
    }
  }

  /** A line and what is not rewritten behind it. */
  lemma TwoLines(transform: Payload, line: bytes, rest: bytes)
    requires OneLine(line) && (rest == [] || rest == [CR, LF])
    ensures TransformFrame(transform, line + [LF] + rest) == TransformLine(transform, line) + [LF] + rest
    ensures rest == [] ==> TransformFrame(transform, line + [LF]) == TransformLine(transform, line) + [LF]
  {
    hide TransformLine;
    SplitCons(line, rest);
    SplitSingle([]);
    BlankLinesKept(transform);
    if rest == [] {
      assert Split(rest) == [[]];
      assert TransformLines(transform, Split(rest)) == [[]];
      assert line + [LF] + rest == line + [LF];
    } else {
      SplitCons([CR], []);
      assert [CR] + [LF] + [] == rest;
      assert Split(rest) == [[CR], []];
      assert [[CR], []][1..] == [[]];
      assert TransformLines(transform, [[]]) == [[]];
      assert TransformLines(transform, Split(rest)) == [[CR], []];
      assert Join([[CR], []]) == rest;
    }
    var lines := Split(line + [LF] + rest);
    assert lines == [line] + Split(rest) && lines[1..] == Split(rest);
    var mapped := TransformLines(transform, lines);
    assert mapped == [TransformLine(transform, line)] + Split(rest) && mapped[1..] == Split(rest);
    JoinSplit(rest);
  }

  lemma BlankLinesKept(transform: Payload)
    ensures TransformLine(transform, []) == [] && TransformLine(transform, [CR]) == [CR]
  {
    assert [CR][..0] == [];
  }

  /** A blank line behind an image that ends in a carriage return ends a frame, which it does not behind the payload. */
  lemma BlankBehind(line: bytes, image: bytes)
    requires Unbroken(line) && !EndsWithCR(line) && Unbroken(image) && EndsWithCR(image)
    ensures FrameLen(line + [LF] + [CR, LF]) == 0 && FrameLen(image + [LF] + [CR, LF]) > 0
  {
    hide FrameLen;
    assert OneLine([CR]);
    OneLineIsUnbroken([CR]);
    assert [CR] + [LF] == [CR, LF];
    assert !HasPrefix([CR, LF], [LF]) by { assert [CR, LF][0] == CR; }
    assert HasPrefix([CR, LF], [CR, LF]);
    FrameLenPeel(line, [CR, LF]);
    FrameLenPeel(image, [CR, LF]);
  }

  /** The exact condition: framing is kept on every stream if and only if every image is safe. */
  lemma FramingPreservedIff(transform: Payload)
    ensures (forall stream :: FramingKept(transform, stream)) <==> SafeImages(transform)
  {
    hide FramingKept, SafeImage, JsonText;
    if SafeImages(transform) {
      forall stream
        ensures FramingKept(transform, stream)
      {
        FramingPreserved(transform, stream);
      }
    } else {
      var x :| JsonText(x) && !SafeImage(transform(x));
      UnsafeBreaks(transform, x);
    }
  }

  lemma {:induction false} TransformFramesAppend(transform: Payload, a: seq<bytes>, b: seq<bytes>)
    ensures TransformFrames(transform, a + b) == TransformFrames(transform, a) + TransformFrames(transform, b)
  {
    hide TransformFrame;
    if a == [] {
      assert a + b == b;
    } else {
      TransformFramesAppend(transform, a[1..], b);
      assert (a + b)[1..] == a[1..] + b;
    }
  }

  /** transformSSEFrame: the lines are overwritten in place. */
  method TransformSSEFrame(transform: Payload, frame: bytes) returns (r: bytes)
    ensures r == TransformFrame(transform, frame)
  {
    hide *;
    var split := Split(frame);
    TransformLinesShape(transform, split);
    var lines := new bytes[|split|](i requires 0 <= i < |split| => split[i]);
    RewriteLines(transform, lines);
    JoinRewritten(transform, frame, lines[..]);
    r := Join(lines[..]);
  }

  lemma JoinRewritten(transform: Payload, frame: bytes, lines: seq<bytes>)
    requires |lines| == |Split(frame)|
    requires forall k :: 0 <= k < |lines| ==> lines[k] == TransformLine(transform, Split(frame)[k])
    ensures Join(lines) == TransformFrame(transform, frame)
  {
    hide TransformLine, Split, Join;
    TransformLinesShape(transform, Split(frame));
    assert lines == TransformLines(transform, Split(frame));
  }

  method RewriteLines(transform: Payload, lines: array<bytes>)
    modifies lines
    ensures forall k :: 0 <= k < lines.Length ==> lines[k] == TransformLine(transform, old(lines[k]))
  {
    hide TransformLine;
    for i := 0 to lines.Length
      invariant forall k :: 0 <= k < i ==> lines[k] == TransformLine(transform, old(lines[k]))
      invariant forall k :: i <= k < lines.Length ==> lines[k] == old(lines[k])
    {
      lines[i] := RewriteLine(transform, lines[i]);
    }
  }

  method RewriteLine(transform: Payload, line: bytes) returns (core: bytes)
    ensures core == TransformLine(transform, line)
  {
    hide TrimSpace;
    var hadCR := EndsWithCR(line);
    core := line;
    if hadCR {
      core := core[..|core| - 1];
    }
    if HasPrefix(core, DATA_FIELD) {
      var payload := TrimSpace(core[|DATA_FIELD|..]);
      if LooksLikeJson(payload) {
        payload := transform(payload);
        core := DATA_SPACE + payload;
      }
    }
    if hadCR {
      core := core + [CR];
    }
  }

  // ---- The stream wrapper ------------------------------------------------------------------

  lemma NothingRewritten(transform: Payload)
    ensures Concat([]) == [] && TransformFrames(transform, []) == []
  {
  }

  class SSETransformWrapper {
    const transform: Payload
    var rc: Upstream
    var buf: bytes
    var out: bytes
    var eof: bool

    ghost var delivered: bytes
    ghost var frames: seq<bytes>  // the complete frames taken out of the stream so far
    ghost var rest: bytes         // the rest behind the last frame, once rewritten

    /** What has been written to `out` since the beginning. */
    ghost function Written(): bytes
      reads `frames, `rest
    {
      Concat(TransformFrames(transform, frames)) + RewriteRest(transform, rest)
    }

    ghost predicate Valid()
      reads this, rc
    {
      Consistent() && (eof ==> FrameLen(buf) == 0)
    }

    /** The same while complete frames may still sit in `buf`. */
    ghost predicate Consistent()
      reads this, rc
    {
      && !rc.closed
      && rc.yielded == Concat(frames) + rest + buf
      && (forall i :: 0 <= i < |frames| ==> IsFrame(frames[i]))
      && delivered + out == Written()
      && (eof ==> rc.script == [])
      && (rest != [] ==> eof && buf == [] && FrameLen(rest) == 0)
    }

    constructor (rc: Upstream, transform: Payload)
      requires !rc.closed && rc.yielded == []
      ensures Valid() && this.rc == rc && this.transform == transform && delivered == []
    {
      hide TransformFrame, IsFrame, FrameLen, Concat, TransformFrames;
      NothingRewritten(transform);
      this.rc, this.transform := rc, transform;
      buf, out, eof := [], [], false;
      delivered, frames, rest := [], [], [];
    }

    /** bytes.Buffer.Read: the end of file is reported only by an empty buffer. */
    method ReadOut(p: array<byte>) returns (n: nat)
      requires Valid() && out != []
      modifies this`out, this`delivered, p
      ensures Valid() && n <= p.Length && delivered == old(delivered) + p[..n]
      ensures p.Length > 0 ==> |out| < old(|out|)
      ensures forall i :: n <= i < p.Length ==> p[i] == old(p[i])
    {
      hide TransformFrame, IsFrame, FrameLen, Concat, TransformFrames, RewriteRest, Written;
      n := Copy(p, out);
      assert delivered + out == (delivered + out[..n]) + out[n..];
      delivered := delivered + out[..n];
      out := out[n..];
    }

    /** Rewrites every complete frame in `buf` into `out`. */
    method TakeFrames()
      requires Consistent() && rest == []
      modifies this`buf, this`out, this`frames
      ensures Valid() && FrameLen(buf) == 0
    {
      hide *;
      while true
        invariant Consistent()
        decreases |buf|
      {
        var delimiter := FindSSEDelimiter(buf);
        DelimiterGivesFrameLen(buf);
        if delimiter.Missing? {
          ValidAgain();
          break;
        }
        TakeFrame(delimiter.idx + delimiter.len);
      }
    }

    lemma ValidAgain()
      requires Consistent() && FrameLen(buf) == 0
      ensures Valid()
    {
    }

    method TakeFrame(n: nat)
      requires Consistent() && rest == [] && n > 0 && n == FrameLen(buf)
      modifies this`buf, this`out, this`frames
      ensures Consistent() && |buf| < old(|buf|)
    {
      hide TransformFrame, IsFrame, FrameLen, Concat, TransformFrames;
      var frame := buf[..n];
      FirstFrameIsFrame(buf);
      assert Concat(frames) + [] + buf == (Concat(frames) + frame) + [] + buf[n..];
      ConcatSnoc(frames, frame);
      var rewritten := TransformSSEFrame(transform, frame);
      WriteFrame(frame);
      buf := buf[n..];
      out := out + rewritten;
      frames := frames + [frame];
    }

    /** Writing one more rewritten frame behind the earlier ones. */
    lemma WriteFrame(frame: bytes)
      requires rest == []
      ensures Concat(TransformFrames(transform, frames + [frame])) + RewriteRest(transform, [])
              == Written() + TransformFrame(transform, frame)
    {
      hide TransformFrame, Concat;
      TransformFramesAppend(transform, frames, [frame]);
      assert TransformFrames(transform, [frame]) == [TransformFrame(transform, frame)];
      ConcatSnoc(TransformFrames(transform, frames), TransformFrame(transform, frame));
    }

    /** The rest behind the last frame is rewritten once the upstream has ended. */
    method FlushRest()
      requires Valid() && eof && out == [] && buf != []
      modifies this`buf, this`out, this`rest
      ensures Valid() && buf == [] && out != []
    {
      hide TransformFrame, IsFrame, FrameLen, Concat, TransformFrames, SafeImages;
      TransformFrameKeeps(transform, buf);
      NoFrameInNothing();
      var rewritten := TransformSSEFrame(transform, buf);
      assert Concat(frames) + [] + buf == Concat(frames) + buf + [];
      assert Concat(TransformFrames(transform, frames)) + [] + rewritten == Concat(TransformFrames(transform, frames)) + rewritten;
      out := out + rewritten;
      rest := buf;
      buf := [];
    }

    method Fill() returns (err: Signal)
      requires Valid() && !eof
      modifies this`buf, this`eof, rc
      ensures Consistent() && rest == [] && eof == (err == EOF)
      ensures rc.Total() == old(rc.Total())
      ensures ToRead() < old(ToRead())
      ensures old(ErrorFree(rc.script)) ==> ErrorFree(rc.script) && err != Failed
    {
      hide TransformFrame, IsFrame, FrameLen, Concat, TransformFrames, RewriteRest, Written, Upstream.Total, Work, ErrorFree;
      var got;
      got, err := rc.ReadSome(0x2000);
      Assoc(Concat(frames) + rest, buf, got);
      buf := buf + got;
      eof := err == EOF;
    }

    /** At the end everything read has been delivered, rewritten. */
    lemma AllDelivered()
      requires Valid() && eof && out == [] && buf == []
      ensures delivered == Rewrite(transform, rc.Total())
    {
      hide TransformFrame, IsFrame, FrameLen, TransformFrames, RewriteRest;
      assert rc.Total() == rc.yielded;
      assert rc.yielded == Concat(frames) + rest;
      assert delivered + [] == delivered;
      FramesUnique(frames, rest);
    }

    method Read(p: array<byte>) returns (n: nat, err: Signal)
      requires Valid()
      modifies this, rc, p
      ensures Valid() && rc == old(rc) && rc.Total() == old(rc.Total())
      ensures n <= p.Length && delivered == old(delivered) + p[..n]
      ensures forall i :: n <= i < p.Length ==> p[i] == old(p[i])
      ensures err != Nil ==> n == 0
      ensures err == EOF ==> delivered == Rewrite(transform, rc.Total())
      ensures err == Nil && p.Length > 0 ==>
                || ToRead() < old(ToRead())
                || (ToRead() == old(ToRead()) && |buf| < old(|buf|))
                || (ToRead() == old(ToRead()) && |buf| == old(|buf|) && |out| < old(|out|))
      ensures old(ErrorFree(rc.script)) ==> ErrorFree(rc.script) && err != Failed
      decreases !eof
    {
      hide *;
      if |out| > 0 {
        n := ReadOut(p);
        return n, Nil;
      }
      assert p[..0] == [];

      if eof {
        if |buf| > 0 {
          FlushRest();
          n := ReadOut(p);
          return n, Nil;
        }
        AllDelivered();
        return 0, EOF;
      }

      var failure := Fill();
      if failure == Failed {
        StillValid();
        return 0, Failed;
      }
      TakeFrames();

      if |out| > 0 {
        n := ReadOut(p);
        return n, Nil;
      }
      if eof {
        n, err := Read(p);
        return;
      }
      return 0, Nil;
    }

    lemma StillValid()
      requires Consistent() && !eof
      ensures Valid()
    {
    }

    ghost function ToRead(): nat
      reads `rc, `eof, rc`script
    {
      Work(rc.script) + if eof then 0 else 1
    }
  }

  /** A client reading to the end with buffers of any positive sizes. */
  method ReadAll(w: SSETransformWrapper, sizes: nat -> nat) returns (out: bytes, err: Signal, pieces: Script)
    requires w.Valid() && w.delivered == []
    modifies w, w.rc
    ensures w.Valid() && err != Nil && out == w.delivered && w.rc == old(w.rc) && w.rc.Total() == old(w.rc.Total())
    ensures err == EOF ==> out == Rewrite(w.transform, w.rc.Total())
    ensures old(ErrorFree(w.rc.script)) ==> err == EOF
    ensures RecordOf(pieces, out, err) && forall i :: 0 <= i < |pieces| ==> |pieces[i].data| <= 1 + sizes(i)
  {
    hide *;
    out, err, pieces := [], Nil, [];
    RecordBegins();
    while err == Nil
      invariant w.Valid() && w.delivered == out && w.rc == old(w.rc) && w.rc.Total() == old(w.rc.Total())
      invariant err == EOF ==> out == Rewrite(w.transform, w.rc.Total())
      invariant old(ErrorFree(w.rc.script)) ==> ErrorFree(w.rc.script) && err != Failed
      invariant RecordOf(pieces, out, err) && forall i :: 0 <= i < |pieces| ==> |pieces[i].data| <= 1 + sizes(i)
      decreases err == Nil, w.ToRead(), |w.buf|, |w.out|
    {
      var p := new byte[1 + sizes(|pieces|)];
      var n;
      n, err := w.Read(p);
      RecordMore(pieces, out, p[..n], err);
      out := out + p[..n];
      pieces := pieces + [Chunk(p[..n], err)];
    }
  }

  /** Chunk independence: the bytes a client gets are a function of the upstream's bytes alone. */
  method ReadThrough(transform: Payload, script: Script, afterClose: Ending, sizes: nat -> nat)
    returns (out: bytes, err: Signal, pieces: Script)
    ensures err == EOF ==> out == Rewrite(transform, Content(script))
    ensures ErrorFree(script) ==> err == EOF
    ensures err != Nil
    ensures RecordOf(pieces, out, err) && forall i :: 0 <= i < |pieces| ==> |pieces[i].data| <= 1 + sizes(i)
  {
    hide *;
    var rc := new Upstream(script, afterClose);
    rc.TotalAtStart();
    var w := new SSETransformWrapper(rc, transform);
    out, err, pieces := ReadAll(w, sizes);
  }
}

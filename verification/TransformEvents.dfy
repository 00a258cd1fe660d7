/** What the frame rewriter does to the events that a parser behind it reads. */
module TransformEvents {
  import opened Bytes
  import opened SSEEvent
  import opened Transform

  /** The one kind of line that is rewritten: not indented, and read as JSON data by the parser. */
  predicate Rewritable(line: bytes)
  {
    HasPrefix(line, DATA_FIELD) && var f := LineField(line); f.Data? && LooksLikeJson(f.value)
  }

  function RewrittenField(transform: Payload, line: bytes): Field
  {
    var f := LineField(line);
    if Rewritable(line) then Data(TrimSpace(transform(f.value))) else f
  }

  /** A data line with a JSON payload, and its rewriting, as the parser reads them. */
  lemma JsonLine(transform: Payload, x: bytes)
    ensures LineField(DATA_SPACE + transform(TrimSpace(x))) == Data(TrimSpace(transform(TrimSpace(x))))
  {
    hide TrimSpace, LineField;
    var image := transform(TrimSpace(x));
    TrimSpaceBehindBlank(image);
    DataLineField([SPACE] + image);
    assert DATA_SPACE + image == DATA_FIELD + ([SPACE] + image);
  }

  /** The rewriter finds a payload where the parser finds it: the parser then reads its image, and nothing else changes. */
  lemma RewrittenLine(transform: Payload, line: bytes)
    ensures LineField(TransformLine(transform, line)) == RewrittenField(transform, line)
    ensures !Rewritable(line) ==> TransformLine(transform, line) == line
  {
    hide TrimSpace, LineField;
    var hadCR := EndsWithCR(line);
    var core := if hadCR then line[..|line| - 1] else line;
    assert hadCR ==> line == core + [CR];
    AddCRField(core);
    DataPrefixBeforeCR(core);
    if HasPrefix(core, DATA_FIELD) {
      var x := core[|DATA_FIELD|..];
      assert core == DATA_FIELD + x;
      DataLineField(x);
      JsonLine(transform, x);
      AddCRField(DATA_SPACE + transform(TrimSpace(x)));
    }
  }

  lemma DataPrefixBeforeCR(core: bytes)
    ensures HasPrefix(core + [CR], DATA_FIELD) <==> HasPrefix(core, DATA_FIELD)
  {
    if HasPrefix(core + [CR], DATA_FIELD) {
      assert (core + [CR])[|core|] == CR;
      assert DATA_FIELD[4] != CR;
      assert |core| != 4;
    }
  }

  /** A payload the transform leaves as it is keeps its line exactly if that is spaced as the rewriter spaces it. */
  lemma LeftAloneIff(transform: Payload, line: bytes)
    requires Rewritable(line) && transform(LineField(line).value) == LineField(line).value
    ensures var spaced := DATA_SPACE + LineField(line).value;
            TransformLine(transform, line) == line <==> line == spaced || line == spaced + [CR]
  {
    hide TrimSpace, LineField;
    var hadCR := EndsWithCR(line);
    var core := if hadCR then line[..|line| - 1] else line;
    assert hadCR ==> line == core + [CR];
    AddCRField(core);
    DataPrefixBeforeCR(core);
    var x := core[|DATA_FIELD|..];
    assert core == DATA_FIELD + x;
    DataLineField(x);
    var spaced := DATA_SPACE + LineField(line).value;
    assert TransformLine(transform, line) == if hadCR then spaced + [CR] else spaced;
    assert !hadCR ==> line != spaced + [CR] by {
      assert (spaced + [CR])[|spaced|] == CR;
    }
    TrimmedEndsNotInCR(x);
  }

  lemma DoneIsTrimmed()
    ensures TrimSpace(DONE) == DONE
  {
    assert Word(DONE);
    TrimSpaceBehind(DONE, []);
    assert DONE + [] == DONE;
  }

  /** The end marker is no JSON, and its line changes nevertheless. */
  lemma MarkerRespaced(transform: Payload)
    requires transform(DONE) == DONE
    ensures TransformLine(transform, Ascii("data:[DONE]")) == Ascii("data: [DONE]") != Ascii("data:[DONE]")
  {
    var line := Ascii("data:[DONE]");
    assert line[..5] == DATA_FIELD && line[5..] == DONE;
    DoneIsTrimmed();
    hide TrimSpace;
    assert DATA_SPACE + DONE == Ascii("data: [DONE]");
  }

  function RewrittenFields(transform: Payload, lines: seq<bytes>): seq<Field>
  {
    seq(|lines|, i requires 0 <= i < |lines| => RewrittenField(transform, lines[i]))
  }

  /** Whatever the transform is handed comes back without a line feed. */
  ghost predicate OneLineImages(transform: Payload)
  {
    forall x :: JsonText(x) ==> OneLine(transform(x))
  }

  lemma RewrittenOneLine(transform: Payload, line: bytes)
    requires OneLineImages(transform) && OneLine(line)
    ensures OneLine(TransformLine(transform, line))
  {
    hide TrimSpace, JsonText;
    var core := if EndsWithCR(line) then line[..|line| - 1] else line;
    if HasPrefix(core, DATA_FIELD) && LooksLikeJson(TrimSpace(core[|DATA_FIELD|..])) {
      PayloadIsJsonText(core[|DATA_FIELD|..]);
    }
  }

  /** A transform that returns text it does not change as it is, and otherwise one line, meets this. */
  lemma ReturningTextIsOneLine(transform: Payload)
    requires forall x :: JsonText(x) ==> transform(x) == x || OneLine(transform(x))
    ensures OneLineImages(transform)
  {
    hide TrimSpace;
  }

  /** The parser reads a rewritten frame as the original one, with every JSON payload replaced by its image. */
  lemma RewrittenFrame(transform: Payload, frame: bytes)
    requires OneLineImages(transform)
    ensures EventOf(TransformFrame(transform, frame)) == EventOfFields(RewrittenFields(transform, Split(frame)))
  {
    hide TransformLine, LineField, RewrittenField, EventOfFields, Split, Join, Rewritable, OneLineImages;
    var lines := Split(frame);
    var mapped := TransformLines(transform, lines);
    TransformLinesShape(transform, lines);
    forall i | 0 <= i < |lines|
      ensures OneLine(mapped[i]) && LineField(mapped[i]) == RewrittenField(transform, lines[i])
    {
      RewrittenOneLine(transform, lines[i]);
      RewrittenLine(transform, lines[i]);
    }
    SplitJoin(mapped);
    assert Fields(mapped) == RewrittenFields(transform, lines);
  }

  /** `[DONE]` looks like JSON to the rewriter, so a transform has to keep it, and must not forge it. */
  ghost predicate KeepsMarker(transform: Payload)
  {
    forall v :: JsonText(v) ==> (TrimSpace(transform(v)) == DONE <==> v == DONE)
  }

  lemma LineValue(line: bytes)
    requires OneLine(line) && LineField(line).Data?
    ensures var v := LineField(line).value; OneLine(v) && TrimSpace(v) == v
  {
    hide TrimSpace;
    var trimmed := TrimSpace(TrimCRs(line));
    TrimSpaceOneLine(TrimCRs(line));
    var v := TrimPrefix(trimmed, DATA_FIELD);
    TrimSpaceOneLine(v);
    TrimSpaceIdempotent(v);
  }

  lemma {:induction false} SameNames(a: seq<Field>, b: seq<Field>)
    requires |a| == |b|
    requires forall i :: 0 <= i < |a| ==> (a[i] == b[i] || (a[i].Data? && b[i].Data?))
    ensures LastName(a) == LastName(b)
  {
    if a != [] {
      SameNames(a[..|a| - 1], b[..|b| - 1]);
    }
  }

  /** Rewriting changes neither the name of an event nor whether it ends the stream. */
  lemma RewritingKeepsNameAndEnd(transform: Payload, frame: bytes)
    requires OneLineImages(transform) && KeepsMarker(transform)
    ensures var e, e' := EventOf(frame), EventOf(TransformFrame(transform, frame));
            e'.name == e.name && e'.done == e.done
  {
    hide TransformLine, LineField, Split, Join, TransformFrame, LastName, TrimSpace;
    var lines := Split(frame);
    var a, b := Fields(lines), RewrittenFields(transform, lines);
    RewrittenFrame(transform, frame);
    var d := FirstDone(a);
    forall i | 0 <= i < |a|
      ensures a[i] == b[i] || (a[i].Data? && b[i].Data?)
      ensures b[i] == Data(DONE) <==> a[i] == Data(DONE)
    {
      assert a[i] == LineField(lines[i]);
      if a[i].Data? {
        LineValue(lines[i]);
      }
    }
    if d < |a| {
      DoneAt(b, d);
      SameNames(a[..d], b[..d]);
    } else {
      NotDone(b);
      SameNames(a, b);
    }
  }

  /** The end of a stream is seen behind the rewriter as in front of it exactly if the transform does that. */
  lemma EndKeptIff(transform: Payload)
    requires OneLineImages(transform)
    ensures KeepsMarker(transform) <==>
            forall frame :: EventOf(TransformFrame(transform, frame)).done == EventOf(frame).done
  {
    hide OneLineImages, JsonText, TrimSpace, EventOf, TransformFrame;
    if KeepsMarker(transform) {
      forall frame
        ensures EventOf(TransformFrame(transform, frame)).done == EventOf(frame).done
      {
        RewritingKeepsNameAndEnd(transform, frame);
      }
    } else {
      var v :| JsonText(v) && !(TrimSpace(transform(v)) == DONE <==> v == DONE);
      OneDataLine(transform, v);
      assert EventOf(TransformFrame(transform, DATA_FIELD + v)).done != EventOf(DATA_FIELD + v).done;
    }
  }

  /** A frame of one data line, and its rewriting. */
  lemma OneDataLine(transform: Payload, v: bytes)
    requires OneLineImages(transform) && JsonText(v)
    ensures EventOf(DATA_FIELD + v).done <==> v == DONE
    ensures EventOf(TransformFrame(transform, DATA_FIELD + v)).done <==> TrimSpace(transform(v)) == DONE
  {
    hide TrimSpace, LineField, TransformFrame, Split, EventOf, OneLineImages, EventOfFields;
    var frame := DATA_FIELD + v;
    DataLineField(v);
    assert frame[..5] == DATA_FIELD;
    assert OneLine(frame);
    SplitSingle(frame);
    RewrittenFrame(transform, frame);
    assert RewrittenFields(transform, [frame]) == [Data(TrimSpace(transform(v)))];
    OneField(TrimSpace(transform(v)));
    OneField(v);
    EventOfLine(frame);
  }

  lemma OneField(v: bytes)
    ensures EventOfFields([Data(v)]).done <==> v == DONE
  {
    if v == DONE {
      DoneAt([Data(v)], 0);
    } else {
      NotDone([Data(v)]);
    }
  }

  lemma EventOfLine(line: bytes)
    requires Split(line) == [line]
    ensures EventOf(line) == EventOfFields([LineField(line)])
  {
    hide LineField, Split, EventOfFields;
    assert Fields([line]) == [LineField(line)];
  }
}

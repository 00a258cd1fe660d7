/** What single events contribute to an aggregation, an audit and the token account. */
module EventRules {
  import opened Bytes
  import opened Framing
  import opened SSEEvent
  import opened EventText
  import opened Usage
  import opened Aggregator
  import PseudoNonStream
  import TokenExtractor

  /** A payload is a snapshot if it embeds a response object, or if it is a response object itself. */
  lemma SnapshotRule(view: View, frame: bytes)
    ensures var e := EventOf(frame);
            && (e.payload == [] ==> SnapshotOf(view, frame) == NoSnapshot)
            && (e.payload != [] && view.embedded(e.payload).Object? ==>
                  SnapshotOf(view, frame) == Snapshot(view.embedded(e.payload).raw))
            && (e.payload != [] && view.embedded(e.payload).NoObject? ==>
                  SnapshotOf(view, frame) ==
                  if view.objectField(e.payload) == Ascii("response") then Snapshot(TrimSpace(e.payload)) else NoSnapshot)
  {
    DoneCarriesNothing(frame);
    hide EventOf, TrimSpace;
  }

  lemma DoneCarriesNothing(frame: bytes)
    ensures EventOf(frame).done ==> EventOf(frame).payload == []
  {
    hide Split, LastName, DataValues, Join;
  }

  /** One written event with one data line, as a whole stream. */
  lemma OneEvent(name: bytes, v: bytes)
    requires Carried(name) && Carried(v) && v != Ascii("[DONE]")
    ensures var text := Write(name, [v]);
            EventOf(text) == Event(name, v, false) && Frames(text) == [text] && Front(text) == [text] && text != []
  {
    hide TrimSpace, Ascii, EventOf, FrameLen, Write, OneLine;
    var text := Write(name, [v]);
    WrittenIsRead(name, [v]);
    WrittenIsFrame(name, [v]);
    JoinOne(v);
    FramesCons(text, []);
    NoFrameInNothing();
    assert text + [] == text;
    assert Frames([]) == [];
    BeforeDoneIs([text], []);
    assert [text] + [] == [text];
  }

  /** A stream of one event aggregates to the response in it, or to an error if it has none. */
  lemma OneEventAggregated(view: View, name: bytes, v: bytes)
    requires Carried(name) && Carried(v) && v != Ascii("[DONE]") && ProperView(view)
    ensures Aggregate(view, Write(name, [v])) ==
            match view.embedded(v)
            case Object(raw) => Ok(raw)
            case NoObject => if view.objectField(v) == Ascii("response") then Ok(v) else Err(MissingResponse)
  {
    OneEvent(name, v);
    CarriedIs(v);
    var text := Write(name, [v]);
    SnapshotRule(view, text);
    AggregateOne(view, text);
    TrimSpaceOfNothing();
    hide TrimSpace, Ascii, EventOf, Write, Front, SnapshotOf, Aggregate, Carried, OneLine, Frames;
    if view.embedded(v).Object? {
      assert TrimSpace(view.embedded(v).raw) != [];
    }
  }

  lemma AggregateOne(view: View, text: bytes)
    requires Front(text) == [text]
    ensures Aggregate(view, text) == Conclude(match SnapshotOf(view, text) case Snapshot(raw) => raw case NoSnapshot => [])
  {
    hide Front, SnapshotOf, Conclude;
    assert [text][..0] == [];
    assert LastSnapshot(view, []) == [];
  }

  /** An audit sees the text of that event. */
  lemma OneEventAudited(textOf: bytes -> bytes, name: bytes, v: bytes)
    requires Carried(name) && Carried(v) && v != Ascii("[DONE]")
    ensures PseudoNonStream.StreamText(textOf, Write(name, [v])) == textOf(v)
  {
    OneEvent(name, v);
    var text := Write(name, [v]);
    hide TrimSpace, Ascii, EventOf, FrameLen, Write, Frames, BeforeDone, Front, OneLine;
    assert [text][..0] == [];
    assert PseudoNonStream.FrameText(textOf, text) == textOf(v);
    assert PseudoNonStream.FrameTexts(textOf, [text]) == [textOf(v)];
    assert Concat([textOf(v)]) == textOf(v) + [] == textOf(v);
  }

  // ---- The events the token account is made of -----------------------------------------------

  /** The event name goes with the first data line behind it, and with that alone. */
  function Named(name: bytes, values: seq<bytes>): seq<Handed>
    decreases |values|
  {
    if values == [] then [] else [(name, values[0])] + Named([], values[1..])
  }

  lemma {:induction false} DataLinesHanded(s: TokenExtractor.Scan, values: seq<bytes>)
    requires forall i :: 0 <= i < |values| ==> Carried(values[i]) && values[i] != Ascii("[DONE]")
    ensures TokenExtractor.ScanLines(s, DataLines(values)) ==
            if values == [] then s else TokenExtractor.Scan([], s.handed + Named(s.event, values))
    decreases |values|
  {
    hide TrimSpace, Ascii, OneLine, FieldOf, Carried, Named;
    if values == [] {
      TokenExtractor.ScanNothing(s);
    } else {
      var v := values[0];
      DataLineScans(s, v);
      NamedCons(s.handed, s.event, values);
      var next := TokenExtractor.ScanLine(s, Ascii("data: ") + v);
      hide TokenExtractor.ScanLine;
      DataLinesHanded(next, values[1..]);
      TokenExtractor.ScanCons(s, Ascii("data: ") + v, DataLines(values[1..]));
      NothingNamed([]);
    }
  }

  lemma NamedCons(front: seq<Handed>, name: bytes, values: seq<bytes>)
    requires values != []
    ensures front + [(name, values[0])] + Named([], values[1..]) == front + Named(name, values)
    ensures |values| == 1 ==> front + [(name, values[0])] == front + Named(name, values)
  {
    var first, rest := (name, values[0]), Named([], values[1..]);
    assert Named(name, values) == [first] + rest;
    assert |values| == 1 ==> rest == [];
    hide Named;
    assert front + [first] + rest == front + ([first] + rest);
  }

  lemma DataLineScans(s: TokenExtractor.Scan, v: bytes)
    requires Carried(v) && v != Ascii("[DONE]")
    ensures TokenExtractor.ScanLine(s, Ascii("data: ") + v) == TokenExtractor.Scan([], s.handed + [(s.event, v)])
  {
    MarkerText();
    DataLineReads(v);
    SameField(Ascii("data: ") + v);
    hide TrimSpace, Ascii, OneLine, FieldOf, LineField;
  }

  /** The extractor reads a line as the event parser does. */
  lemma SameField(line: bytes)
    ensures FieldOf(TrimSpace(line)) == LineField(line)
  {
    TrimSpaceIgnoresCRs(line);
    hide TrimSpace, TrimCRs, FieldOf;
  }

  /** A written event is handed over line by line: its name with the first data line, no name with the others. */
  lemma WrittenIsHanded(name: bytes, values: seq<bytes>)
    requires Carried(name)
    requires forall i :: 0 <= i < |values| ==> Carried(values[i]) && values[i] != Ascii("[DONE]")
    ensures TokenExtractor.Events(Write(name, values)) == Named(name, values)
  {
    hide TrimSpace, Ascii, OneLine, FieldOf, LineField, Join, Split, DataLines, Named, Carried;
    var first := Ascii("event: ") + name;
    var s0, s1 := TokenExtractor.START, TokenExtractor.Scan(name, []);
    WrittenSplits(name, values);
    EventLineScans(name);
    DataLinesHanded(s1, values);
    BlankLinesScan(TokenExtractor.ScanLines(s1, DataLines(values)));
    TokenExtractor.ScanCons(s0, first, DataLines(values) + [[], []]);
    TokenExtractor.ScanAppend(s1, DataLines(values), [[], []]);
    assert [first] + (DataLines(values) + [[], []]) == [first] + DataLines(values) + [[], []];
    NothingNamed(name);
    assert [] + Named(name, values) == Named(name, values);
  }

  lemma NothingNamed(name: bytes)
    ensures Named(name, []) == []
  {
  }

  lemma EventLineScans(name: bytes)
    requires Carried(name)
    ensures TokenExtractor.ScanLine(TokenExtractor.START, Ascii("event: ") + name) == TokenExtractor.Scan(name, [])
  {
    EventLineField(name);
    SameField(Ascii("event: ") + name);
    hide TrimSpace, Ascii, FieldOf, LineField;
  }

  lemma BlankLinesScan(s: TokenExtractor.Scan)
    ensures TokenExtractor.ScanLines(s, [[], []]) == s
  {
    BlankLineField();
    SameField([]);
    hide FieldOf, TrimSpace;
    assert TokenExtractor.ScanLine(s, []) == s;
    var blank: bytes := [];
    assert [blank, blank][1..] == [blank] && [blank][1..] == [];
    assert TokenExtractor.ScanLines(s, [blank]) == s;
  }

  lemma WrittenSplits(name: bytes, values: seq<bytes>)
    requires Carried(name) && forall i :: 0 <= i < |values| ==> Carried(values[i])
    ensures Split(Write(name, values)) == [Ascii("event: ") + name] + DataLines(values) + [[], []]
  {
    hide TrimSpace, Ascii, LineField, Join, Split, DataLines, OneLine, Carried, Fields;
    DataLinesRead(values);
    NameIsOneLine(name);
    BlankLines();
    JoinedLines(Ascii("event: ") + name, DataLines(values), [[], []]);
  }
}

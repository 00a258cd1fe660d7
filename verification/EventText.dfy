/** Writing an event as text, and reading it back. */
module EventText {
  import opened Bytes
  import opened Framing
  import opened SSEEvent

  /** Text that a field of an event can carry: one line, not blank, and without white space around it. */
  predicate Carried(v: bytes)
  {
    v != [] && OneLine(v) && TrimSpace(v) == v
  }

  function DataLines(values: seq<bytes>): seq<bytes>
  {
    if values == [] then [] else [Ascii("data: ") + values[0]] + DataLines(values[1..])
  }

  /** An event line, the data lines, and the blank line that ends the frame. */
  function Write(name: bytes, values: seq<bytes>): bytes
  {
    Join([Ascii("event: ") + name] + DataLines(values) + [[], []])
  }

  lemma EventLineField(x: bytes)
    ensures LineField(Ascii("event: ") + x) == EventName(TrimSpace(x))
  {
    var prefix, rest := Ascii("event:"), [SPACE] + x;
    assert Ascii("event: ") + x == prefix + rest;
    assert Word(prefix);
    hide TrimSpace, TrimCRs, TrimRight;
    TrimSpaceIgnoresCRs(prefix + rest);
    TrimSpaceBehind(prefix, rest);
    TrimSpaceAfterTrimRight(rest);
    TrimSpaceBehindBlank(x);
    var trimmed := prefix + TrimRight(rest);
    assert trimmed[..|prefix|] == prefix && trimmed[|prefix|..] == TrimRight(rest);
    assert EVENT_FIELD == prefix;
  }

  lemma DataLineReads(x: bytes)
    ensures LineField(Ascii("data: ") + x) == Data(TrimSpace(x))
  {
    hide TrimSpace, LineField;
    assert Ascii("data: ") + x == DATA_FIELD + ([SPACE] + x);
    DataLineField([SPACE] + x);
    TrimSpaceBehindBlank(x);
  }

  function DataFields(values: seq<bytes>): seq<Field>
  {
    if values == [] then [] else [Data(values[0])] + DataFields(values[1..])
  }

  lemma {:induction false} DataLinesRead(values: seq<bytes>)
    requires forall i :: 0 <= i < |values| ==> Carried(values[i])
    ensures Fields(DataLines(values)) == DataFields(values)
    ensures forall i :: 0 <= i < |DataLines(values)| ==> OneLine(DataLines(values)[i])
  {
    hide LineField, TrimSpace;
    if values != [] {
      DataLinesRead(values[1..]);
      DataLineReads(values[0]);
      FieldsCons(Ascii("data: ") + values[0], DataLines(values[1..]));
    }
  }

  lemma {:induction false} FieldsAppend(a: seq<bytes>, b: seq<bytes>)
    ensures Fields(a + b) == Fields(a) + Fields(b)
  {
    hide LineField;
  }

  lemma {:induction false} DataValuesAppend(a: seq<Field>, b: seq<Field>)
    ensures DataValues(a + b) == DataValues(a) + DataValues(b)
  {
    if b == [] {
      assert a + b == a;
    } else {
      var n := |b| - 1;
      DataValuesAppend(a, b[..n]);
      assert (a + b)[..|a| + n] == a + b[..n];
      Assoc(DataValues(a), DataValues(b[..n]), if b[n].Data? && |b[n].value| > 0 then [b[n].value] else []);
    }
  }

  lemma {:induction false} NameStays(name: bytes, fs: seq<Field>)
    requires forall i :: 0 <= i < |fs| ==> !fs[i].EventName?
    ensures LastName([EventName(name)] + fs) == name
  {
    var all := [EventName(name)] + fs;
    if fs != [] {
      NameStays(name, fs[..|fs| - 1]);
      assert all[..|all| - 1] == [EventName(name)] + fs[..|fs| - 1];
    }
  }

  lemma {:induction false} DataFieldsAre(values: seq<bytes>)
    ensures |DataFields(values)| == |values|
    ensures forall i :: 0 <= i < |values| ==> DataFields(values)[i] == Data(values[i])
  {
    if values != [] {
      DataFieldsAre(values[1..]);
    }
  }

  lemma OneValue(v: bytes)
    requires v != []
    ensures DataValues([Data(v)]) == [v]
  {
    assert [Data(v)][..0] == [];
  }

  lemma {:induction false} ValuesOfData(values: seq<bytes>)
    requires forall i :: 0 <= i < |values| ==> values[i] != []
    ensures DataValues(DataFields(values)) == values
  {
    if values == [] {
      NoFields();
    } else {
      hide DataValues;
      ValuesOfData(values[1..]);
      OneValue(values[0]);
      DataValuesAppend([Data(values[0])], DataFields(values[1..]));
      assert DataFields(values) == [Data(values[0])] + DataFields(values[1..]);
      assert [values[0]] + values[1..] == values;
    }
  }

  lemma {:induction false} NoValues(fs: seq<Field>)
    requires forall i :: 0 <= i < |fs| ==> !fs[i].Data?
    ensures DataValues(fs) == []
  {
    if fs != [] {
      NoValues(fs[..|fs| - 1]);
    }
  }

  /** The fields of a written event: a name, its values, and lines without meaning. */
  function WrittenFields(name: bytes, values: seq<bytes>, tail: seq<Field>): seq<Field>
  {
    [EventName(name)] + DataFields(values) + tail
  }

  lemma ValuesOf(name: bytes, values: seq<bytes>, tail: seq<Field>)
    requires forall i :: 0 <= i < |values| ==> values[i] != []
    requires forall i :: 0 <= i < |tail| ==> tail[i] == Ignored
    ensures LastName(WrittenFields(name, values, tail)) == name
    ensures DataValues(WrittenFields(name, values, tail)) == values
  {
    ValuesOfData(values);
    NoValues(tail);
    NoValues([EventName(name)]);
    DataFieldsAre(values);
    hide LastName, DataValues, DataFields;
    NameStays(name, DataFields(values) + tail);
    assert [EventName(name)] + (DataFields(values) + tail) == [EventName(name)] + DataFields(values) + tail;
    DataValuesAppend([EventName(name)], DataFields(values));
    DataValuesAppend([EventName(name)] + DataFields(values), tail);
    assert [] + values + [] == values;
  }

  lemma NoneIsDone(name: bytes, values: seq<bytes>, tail: seq<Field>)
    requires forall i :: 0 <= i < |values| ==> values[i] != [] && values[i] != DONE
    requires forall i :: 0 <= i < |tail| ==> tail[i] == Ignored
    ensures var fs := WrittenFields(name, values, tail); forall i :: 0 <= i < |fs| ==> fs[i] != Data(DONE)
  {
    DataFieldsAre(values);
    hide DataFields;
    var fs := WrittenFields(name, values, tail);
    forall i | 0 <= i < |fs|
      ensures fs[i] != Data(DONE)
    {
      assert fs[i] == EventName(name) || fs[i] in DataFields(values) || fs[i] in tail;
    }
  }

  /** Lines joined to a text are what it splits into. */
  lemma JoinedLines(first: bytes, middle: seq<bytes>, more: seq<bytes>)
    requires OneLine(first) && |more| > 0
    requires forall i :: 0 <= i < |middle| ==> OneLine(middle[i])
    requires forall i :: 0 <= i < |more| ==> OneLine(more[i])
    ensures Split(Join([first] + middle + more)) == [first] + middle + more
  {
    hide *;
    var front := [first] + middle;
    assert forall i :: 0 <= i < |front| ==> OneLine(front[i]);
    SplitJoin(front + more);
  }

  lemma JoinedFields(first: bytes, middle: seq<bytes>, more: seq<bytes>)
    requires OneLine(first) && |more| > 0
    requires forall i :: 0 <= i < |middle| ==> OneLine(middle[i])
    requires forall i :: 0 <= i < |more| ==> OneLine(more[i])
    ensures Fields(Split(Join([first] + middle + more))) == [LineField(first)] + Fields(middle) + Fields(more)
  {
    hide *;
    FieldsCons(first, middle);
    FieldsAppend([first] + middle, more);
    JoinedLines(first, middle, more);
  }

  lemma CarriedIs(v: bytes)
    requires Carried(v)
    ensures v != [] && OneLine(v) && TrimSpace(v) == v
  {
    hide TrimSpace;
  }

  lemma NameIsOneLine(name: bytes)
    requires Carried(name)
    ensures OneLine(Ascii("event: ") + name)
  {
    hide TrimSpace;
    var prefix := Ascii("event: ");
    assert OneLine(prefix);
    hide Ascii;
  }

  lemma WrittenFieldsIs(name: bytes, values: seq<bytes>, tail: seq<Field>)
    ensures WrittenFields(name, values, tail) == [EventName(name)] + DataFields(values) + tail
  {
  }

  lemma MarkerText()
    ensures DONE == Ascii("[DONE]") && Ascii("data: [DONE]") == Ascii("data: ") + DONE && OneLine(Ascii("data: [DONE]"))
  {
  }

  lemma WrittenLines(name: bytes, values: seq<bytes>, more: seq<bytes>)
    requires Carried(name) && forall i :: 0 <= i < |values| ==> Carried(values[i])
    requires |more| > 0 && forall i :: 0 <= i < |more| ==> OneLine(more[i])
    ensures var lines := [Ascii("event: ") + name] + DataLines(values) + more;
            Fields(Split(Join(lines))) == WrittenFields(name, values, Fields(more))
  {
    hide *;
    NameIsOneLine(name);
    CarriedIs(name);
    DataLinesRead(values);
    EventLineField(name);
    JoinedFields(Ascii("event: ") + name, DataLines(values), more);
    WrittenFieldsIs(name, values, Fields(more));
  }

  lemma BlankLines()
    ensures Fields([[], []]) == [Ignored, Ignored] && OneLine([])
  {
    BlankLineField();
    hide LineField;
  }

  lemma ReadsAs(text: bytes, name: bytes, values: seq<bytes>, tail: seq<Field>)
    requires Fields(Split(text)) == WrittenFields(name, values, tail)
    requires forall i :: 0 <= i < |values| ==> values[i] != [] && values[i] != DONE
    requires forall i :: 0 <= i < |tail| ==> tail[i] == Ignored
    ensures EventOf(text) == Event(name, Join(values), false)
  {
    hide Fields, Split, WrittenFields, Join;
    ValuesOf(name, values, tail);
    NoneIsDone(name, values, tail);
    NotDone(WrittenFields(name, values, tail));
  }

  /** An event that is written is read back: its name, and its data lines joined by line feeds. */
  lemma WrittenIsRead(name: bytes, values: seq<bytes>)
    requires Carried(name)
    requires forall i :: 0 <= i < |values| ==> Carried(values[i]) && values[i] != Ascii("[DONE]")
    ensures EventOf(Write(name, values)) == Event(name, Join(values), false)
  {
    hide EventOf, TrimSpace, Split, Join, Fields, WrittenFields, Ascii, DataLines, OneLine;
    MarkerText();
    BlankLines();
    WrittenLines(name, values, [[], []]);
    ReadsAs(Write(name, values), name, values, [Ignored, Ignored]);
  }

  /** A line `data: [DONE]` ends the event, whatever follows: the name before it is kept, the payload is not. */
  lemma DoneIsRead(name: bytes, values: seq<bytes>, rest: seq<bytes>)
    requires Carried(name) && forall i :: 0 <= i < |rest| ==> OneLine(rest[i])
    requires forall i :: 0 <= i < |values| ==> Carried(values[i]) && values[i] != Ascii("[DONE]")
    ensures EventOf(Join([Ascii("event: ") + name] + DataLines(values) + ([Ascii("data: [DONE]")] + rest)))
            == Event(name, [], true)
  {
    hide LineField, TrimSpace, Split, Join, DataLines, OneLine, Fields, Ascii, WrittenFields, EventOfFields;
    var done := Ascii("data: [DONE]");
    MarkerText();
    DataLineReads(DONE);
    DoneTrimmed();
    WrittenLines(name, values, [done] + rest);
    FieldsCons(done, rest);
    DoneInFields(name, values, Fields(rest));
  }

  lemma DoneInFields(name: bytes, values: seq<bytes>, tail: seq<Field>)
    requires forall i :: 0 <= i < |values| ==> values[i] != [] && values[i] != DONE
    ensures EventOfFields(WrittenFields(name, values, [Data(DONE)] + tail)) == Event(name, [], true)
  {
    hide LastName, DataValues, DataFields, FirstDone;
    NoneIsDone(name, values, []);
    ValuesOf(name, values, []);
    var front := WrittenFields(name, values, []);
    var fs := front + ([Data(DONE)] + tail);
    assert fs == WrittenFields(name, values, [Data(DONE)] + tail);
    assert fs[..|front|] == front && fs[|front|] == Data(DONE);
    DoneAt(fs, |front|);
  }

  lemma DoneTrimmed()
    ensures TrimSpace(DONE) == DONE
  {
    assert Word(DONE);
    TrimSpaceBehind(DONE, []);
    assert DONE + [] == DONE;
  }

  // ---- What is written is one frame ----------------------------------------------------------

  lemma {:induction false} LinesAreFrame(lines: seq<bytes>)
    requires lines != []
    requires forall i :: 0 <= i < |lines| ==> OneLine(lines[i]) && lines[i] != [] && !EndsWithCR(lines[i])
    ensures IsFrame(Join(lines + [[], []]))
  {
    hide FrameLen, Unbroken, EndsWithCR;
    var line, all := lines[0], lines + [[], []];
    OneLineIsUnbroken(line);
    assert all[1..] == lines[1..] + [[], []];
    var rest := Join(all[1..]);
    assert Join(all) == line + [LF] + rest;
    FrameLenPeel(line, rest);
    if |lines| == 1 {
      assert lines[1..] + [[], []] == [[], []];
      TwoBlanks();
      assert HasPrefix(rest, [LF]);
    } else {
      LinesAreFrame(lines[1..]);
      assert all[1..][0] == lines[1] && rest == lines[1] + [LF] + Join(all[1..][1..]);
      assert rest[0] == lines[1][0] != LF;
      assert rest[..1][0] == rest[0];
    }
  }

  lemma TwoBlanks()
    ensures Join([[], []]) == [LF]
  {
    JoinOne([]);
    var blank: bytes := [];
    assert [blank, blank][1..] == [blank];
    assert [] + [LF] + [] == [LF];
  }

  lemma WrittenIsFrame(name: bytes, values: seq<bytes>)
    requires Carried(name) && forall i :: 0 <= i < |values| ==> Carried(values[i])
    ensures IsFrame(Write(name, values))
  {
    hide IsFrame, Join, TrimSpace;
    var lines := [Ascii("event: ") + name] + DataLines(values);
    DataLinesRead(values);
    DataLinesPlain(values);
    NameIsOneLine(name);
    EndsPlain(Ascii("event: "), name);
    hide Ascii, DataLines, OneLine, Carried;
    LinesAreFrame(lines);
  }

  lemma {:induction false} DataLinesPlain(values: seq<bytes>)
    requires forall i :: 0 <= i < |values| ==> Carried(values[i])
    ensures forall i :: 0 <= i < |DataLines(values)| ==> DataLines(values)[i] != [] && !EndsWithCR(DataLines(values)[i])
  {
    hide Carried;
    if values != [] {
      DataLinesPlain(values[1..]);
      EndsPlain(Ascii("data: "), values[0]);
    }
  }

  lemma EndsPlain(prefix: bytes, v: bytes)
    requires Carried(v)
    ensures prefix + v != [] && !EndsWithCR(prefix + v)
  {
    TrimmedEndsNotInCR(v);
    hide TrimSpace;
  }
}

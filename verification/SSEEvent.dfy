/** Parsing of one server-sent-event frame. */
module SSEEvent {
  import opened Bytes

  const EVENT_FIELD := Ascii("event:")
  const DATA_FIELD := Ascii("data:")
  const DONE := Ascii("[DONE]")

  datatype Event = Event(name: bytes, payload: bytes, done: bool)

  datatype Field = EventName(name: bytes) | Data(value: bytes) | Ignored

  /** How a line reads once its surrounding white space is gone. */
  function FieldOf(trimmed: bytes): Field
  {
    if |trimmed| == 0 then Ignored
    else if HasPrefix(trimmed, EVENT_FIELD) then EventName(TrimSpace(TrimPrefix(trimmed, EVENT_FIELD)))
    else if HasPrefix(trimmed, DATA_FIELD) then Data(TrimSpace(TrimPrefix(trimmed, DATA_FIELD)))
    else Ignored
  }

  function LineField(line: bytes): Field
  {
    FieldOf(TrimSpace(TrimCRs(line)))
  }

  function Fields(lines: seq<bytes>): seq<Field>
  {
    seq(|lines|, i requires 0 <= i < |lines| => LineField(lines[i]))
  }

  /** The last event name given, or empty. */
  function LastName(fs: seq<Field>): bytes
  {
    if fs == [] then []
    else if fs[|fs| - 1].EventName? then fs[|fs| - 1].name
    else LastName(fs[..|fs| - 1])
  }

  /** The non-empty data values in order. */
  function DataValues(fs: seq<Field>): seq<bytes>
  {
    if fs == [] then []
    else
      var last := fs[|fs| - 1];
      DataValues(fs[..|fs| - 1]) + if last.Data? && |last.value| > 0 then [last.value] else []
  }

  /** Index of the first `[DONE]` marker, or |fs|. */
  function FirstDone(fs: seq<Field>): (i: nat)
    ensures i <= |fs| && forall k :: 0 <= k < i ==> fs[k] != Data(DONE)
    ensures i < |fs| ==> fs[i] == Data(DONE)
  {
    if fs == [] || fs[0] == Data(DONE) then 0 else 1 + FirstDone(fs[1..])
  }

  /** The meaning of a frame: up to the first `[DONE]`, the last name and the joined data. */
  function EventOfFields(fs: seq<Field>): Event
  {
    var d := FirstDone(fs);
    if d < |fs| then Event(LastName(fs[..d]), [], true)
    else Event(LastName(fs), Join(DataValues(fs)), false)
  }

  function EventOf(frame: bytes): Event
  {
    EventOfFields(Fields(Split(frame)))
  }

  lemma DoneAt(fs: seq<Field>, i: nat)
    requires i < |fs| && fs[i] == Data(DONE)
    requires forall k :: 0 <= k < i ==> fs[k] != Data(DONE)
    ensures EventOfFields(fs) == Event(LastName(fs[..i]), [], true)
  {
    var d := FirstDone(fs);
    assert !(d < i) && !(i < d);
  }

  lemma NotDone(fs: seq<Field>)
    requires forall k :: 0 <= k < |fs| ==> fs[k] != Data(DONE)
    ensures EventOfFields(fs) == Event(LastName(fs), Join(DataValues(fs)), false)
  {
    var d := FirstDone(fs);
  }

  lemma NextField(fs: seq<Field>, i: nat)
    requires i < |fs|
    ensures LastName(fs[..i + 1]) == if fs[i].EventName? then fs[i].name else LastName(fs[..i])
    ensures DataValues(fs[..i + 1]) == DataValues(fs[..i]) + if fs[i].Data? && |fs[i].value| > 0 then [fs[i].value] else []
  {
    assert fs[..i + 1][..i] == fs[..i];
  }

  /** parseSSEEvent: one pass over the lines, stopping at `[DONE]`. */
  method ParseSSEEvent(event: bytes) returns (r: Event)
    ensures r == EventOf(event)
  {
    hide TrimSpace, TrimCRs, TrimPrefix, HasPrefix, Split, Join, LastName, DataValues, EventOfFields;
    var lines := Split(event);
    ghost var fs := Fields(lines);
    var eventName: bytes, dataLines: seq<bytes> := [], [];
    assert LastName(fs[..0]) == [] && DataValues(fs[..0]) == [] by {
      NoFields();
      assert fs[..0] == [];
    }
    for i := 0 to |lines|
      invariant eventName == LastName(fs[..i]) && dataLines == DataValues(fs[..i])
      invariant forall k :: 0 <= k < i ==> fs[k] != Data(DONE)
    {
      NextField(fs, i);
      assert fs[i] == LineField(lines[i]);
      var line := TrimCRs(lines[i]);
      var trimmed := TrimSpace(line);
      if |trimmed| == 0 {
        continue;
      }
      if HasPrefix(trimmed, EVENT_FIELD) {
        eventName := TrimSpace(TrimPrefix(trimmed, EVENT_FIELD));
        continue;
      }
      if HasPrefix(trimmed, DATA_FIELD) {
        var data := TrimSpace(TrimPrefix(trimmed, DATA_FIELD));
        if data == DONE {
          DoneAt(fs, i);
          return Event(eventName, [], true);
        }
        if |data| > 0 {
          dataLines := dataLines + [data];
        }
      }
    }
    assert fs[..|lines|] == fs;
    NotDone(fs);
    if |dataLines| == 0 {
      JoinNothing();
      return Event(eventName, [], false);
    }
    var payload := Join(dataLines);
    return Event(eventName, payload, false);
  }

  lemma NoFields()
    ensures LastName([]) == [] && DataValues([]) == []
  {
  }

  lemma JoinNothing()
    ensures Join([]) == []
  {
  }

  // ---- A frame of one data line ------------------------------------------------------------

  lemma FieldOfData(v: bytes)
    ensures FieldOf(DATA_FIELD + v) == Data(TrimSpace(v))
  {
    hide TrimSpace;
    var trimmed := DATA_FIELD + v;
    assert trimmed[0] == DATA_FIELD[0];
    assert EVENT_FIELD[0] != DATA_FIELD[0];
    assert trimmed[..5] == DATA_FIELD && trimmed[5..] == v;
  }

  lemma DataLineField(x: bytes)
    ensures LineField(DATA_FIELD + x) == Data(TrimSpace(x))
  {
    assert Word(DATA_FIELD);
    hide TrimSpace, TrimCRs, TrimRight, FieldOf;
    TrimSpaceIgnoresCRs(DATA_FIELD + x);
    TrimSpaceBehind(DATA_FIELD, x);
    TrimSpaceAfterTrimRight(x);
    FieldOfData(TrimRight(x));
  }

  lemma DataFrame(v: bytes)
    requires OneLine(v) && TrimSpace(v) != DONE && TrimSpace(v) != []
    ensures EventOf(DATA_FIELD + v + [LF, LF]) == Event([], TrimSpace(v), false)
  {
    hide TrimSpace, LineField, Split, Join;
    var line := DATA_FIELD + v;
    assert OneLine(line);
    SplitCons(line, [LF]);
    SplitCons([], []);
    SplitSingle([]);
    assert [] + [LF] + [] == [LF] && line + [LF] + [LF] == line + [LF, LF];
    assert Split([]) == [[]] && Split([LF]) == [[], []];
    assert Split(line + [LF, LF]) == [line, [], []];
    DataLineField(v);
    BlankLineField();
    assert Fields([line, [], []]) == [Data(TrimSpace(v)), Ignored, Ignored];
    DataAndBlanks(TrimSpace(v));
  }

  lemma BlankLineField()
    ensures LineField([]) == Ignored
  {
  }

  lemma DataAndBlanks(v: bytes)
    requires v != DONE && v != []
    ensures EventOfFields([Data(v), Ignored, Ignored]) == Event([], v, false)
  {
    hide Join;
    var fs := [Data(v), Ignored, Ignored];
    NotDone(fs);
    assert fs[..2] == [Data(v), Ignored] && fs[..2][..1] == [Data(v)] && [Data(v)][..0] == [];
    assert LastName([Data(v)]) == [] && DataValues([Data(v)]) == [v];
    assert LastName(fs[..2]) == [] && DataValues(fs[..2]) == [v];
    JoinOne(v);
  }

  // ---- CRLF and LF line ends parse alike ---------------------------------------------------

  /** The same text with a carriage return put before every line feed. */
  function WithCRLF(s: bytes): bytes
  {
    if s == [] then []
    else if s[0] == LF then [CR, LF] + WithCRLF(s[1..])
    else [s[0]] + WithCRLF(s[1..])
  }

  function AddCRs(lines: seq<bytes>): seq<bytes>
    requires |lines| > 0
  {
    if |lines| == 1 then lines else [lines[0] + [CR]] + AddCRs(lines[1..])
  }

  lemma {:induction false} WithCRLFLine(line: bytes, rest: bytes)
    requires OneLine(line)
    ensures WithCRLF(line) == line
    ensures WithCRLF(line + [LF] + rest) == (line + [CR]) + [LF] + WithCRLF(rest)
  {
    if line == [] {
      assert [LF] + rest == line + [LF] + rest;
    } else {
      WithCRLFLine(line[1..], rest);
      assert (line + [LF] + rest)[1..] == line[1..] + [LF] + rest;
    }
  }

  lemma {:induction false} WithCRLFSplit(s: bytes)
    ensures Split(WithCRLF(s)) == AddCRs(Split(s))
    decreases |s|
  {
    var i := FirstLF(s);
    if i == |s| {
      assert s[..i] == s;
      WithCRLFLine(s, []);
    } else {
      WithCRLFSplit(s[i + 1..]);
      CutAt(s, i);
      WithCRLFLine(s[..i], s[i + 1..]);
      SplitCons(s[..i] + [CR], WithCRLF(s[i + 1..]));
      SplitCons(s[..i], s[i + 1..]);
    }
  }

  lemma AddCRField(line: bytes)
    ensures LineField(line + [CR]) == LineField(line)
  {
    assert (line + [CR])[..|line|] == line;
    assert TrimCRs(line + [CR]) == TrimCRs(line);
    hide TrimCRs, TrimSpace;
  }

  lemma FieldsCons(line: bytes, lines: seq<bytes>)
    ensures Fields([line] + lines) == [LineField(line)] + Fields(lines)
  {
    hide LineField;
  }

  lemma {:induction false} AddCRsFields(lines: seq<bytes>)
    requires |lines| > 0
    ensures Fields(AddCRs(lines)) == Fields(lines)
  {
    if |lines| > 1 {
      AddCRsFields(lines[1..]);
      AddCRField(lines[0]);
      FieldsCons(lines[0], lines[1..]);
      FieldsCons(lines[0] + [CR], AddCRs(lines[1..]));
      assert [lines[0]] + lines[1..] == lines;
      hide LineField, Fields;
    }
  }

  lemma LineEndsDoNotMatter(frame: bytes)
    ensures EventOf(WithCRLF(frame)) == EventOf(frame)
  {
    WithCRLFSplit(frame);
    AddCRsFields(Split(frame));
  }

  lemma {:induction false} DataValuesTrimmed(fs: seq<Field>)
    requires forall i :: 0 <= i < |fs| && fs[i].Data? ==> LeadingSpace(fs[i].value) == 0
    ensures forall v :: v in DataValues(fs) ==> v != [] && LeadingSpace(v) == 0
  {
    hide LeadingSpace;
    if fs != [] {
      DataValuesTrimmed(fs[..|fs| - 1]);
    }
  }

  /** A payload, where there is one, is never blank. */
  lemma PayloadNotBlank(frame: bytes)
    requires |EventOf(frame).payload| > 0
    ensures TrimSpace(EventOf(frame).payload) != []
  {
    var lines := Split(frame);
    var fs := Fields(lines);
    hide Split, LastName, TrimCRs, TrimSpace, LeadingSpace, TrailingSpace, Blank, Join;
    forall i | 0 <= i < |fs| && fs[i].Data?
      ensures LeadingSpace(fs[i].value) == 0
    {
      TrimSpaceEnds(TrimPrefix(TrimSpace(TrimCRs(lines[i])), DATA_FIELD));
    }
    DataValuesTrimmed(fs);
    var values := DataValues(fs);
    JoinNothing();
    assert values != [];
    assert values[0] in values;
    JoinNotBlank(values);
  }
}

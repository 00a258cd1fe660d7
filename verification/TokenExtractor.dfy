/** The side channel that reads token usage off a stream while forwarding it untouched. */
module TokenExtractor {
  import opened Bytes
  import opened SSEEvent
  import opened UpstreamReader
  import opened Usage

  // ---- The line-by-line parse --------------------------------------------------------------

  /** The current event name and the events handed to the parser so far. */
  datatype Scan = Scan(event: bytes, handed: seq<Handed>)

  const START := Scan([], [])

  function ScanLine(s: Scan, line: bytes): Scan
  {
    match FieldOf(TrimSpace(line))
    case EventName(name) => s.(event := name)
    case Data(value) => if value == DONE then s.(event := []) else Scan([], s.handed + [(s.event, value)])
    case Ignored => s
  }

  function ScanLines(s: Scan, lines: seq<bytes>): Scan
    decreases |lines|
  {
    if lines == [] then s else ScanLines(ScanLine(s, lines[0]), lines[1..])
  }

  lemma {:induction false} ScanAppend(s: Scan, a: seq<bytes>, b: seq<bytes>)
    ensures ScanLines(s, a + b) == ScanLines(ScanLines(s, a), b)
    decreases |a|
  {
    hide ScanLine;
    if a == [] {
      assert a + b == b;
    } else {
      ScanAppend(ScanLine(s, a[0]), a[1..], b);
      assert (a + b)[1..] == a[1..] + b;
    }
  }

  /** Text arriving in pieces scans as the whole, if the unfinished line is kept. */
  lemma ScanChunk(seen: bytes, chunk: bytes)
    ensures ScanLines(START, ClosedLines(seen + chunk))
            == ScanLines(ScanLines(START, ClosedLines(seen)), ClosedLines(LastLine(seen) + chunk))
    ensures LastLine(seen + chunk) == LastLine(LastLine(seen) + chunk)
  {
    hide Split, ScanLines;
    var closed, tail := ClosedLines(seen), Split(LastLine(seen) + chunk);
    SplitAppend(seen, chunk);
    assert (closed + tail)[..|closed| + |tail| - 1] == closed + tail[..|tail| - 1];
    ScanAppend(START, closed, ClosedLines(LastLine(seen) + chunk));
  }

  lemma ScanLast(stream: bytes)
    ensures ScanLines(START, Split(stream)) == ScanLine(ScanLines(START, ClosedLines(stream)), LastLine(stream))
  {
    hide ScanLine;
    var lines := Split(stream);
    hide Split;
    assert lines == ClosedLines(stream) + [LastLine(stream)];
    ScanAppend(START, ClosedLines(stream), [LastLine(stream)]);
  }

  lemma LinesOfOneLine(s: bytes)
    requires OneLine(s)
    ensures ClosedLines(s) == [] && LastLine(s) == s && Split(s) == [s]
  {
    SplitSingle(s);
  }

  lemma ScanNothing(s: Scan)
    ensures ScanLines(s, []) == s
  {
  }

  lemma ScanCons(s: Scan, line: bytes, lines: seq<bytes>)
    ensures ScanLines(s, [line] + lines) == ScanLines(ScanLine(s, line), lines)
  {
    assert ([line] + lines)[1..] == lines;
  }

  lemma BlankLine(s: Scan, line: bytes)
    requires TrimSpace(line) == []
    ensures ScanLine(s, line) == s
  {
  }

  lemma LastLineIsOneLine(s: bytes)
    ensures OneLine(LastLine(s))
  {
  }

  /** Every event of the stream, as a line-by-line reading of the whole text finds them. */
  function Events(stream: bytes): seq<Handed>
  {
    ScanLines(START, Split(stream)).handed
  }

  // ---- The extractor -----------------------------------------------------------------------

  class SSETokenExtractor {
    const start: TokenUsage  // what the trace held at the start
    const reader: Upstream
    const trace: RequestTrace?
    const parser: UsageParser
    var buffer: bytes
    var extracted: bool
    var currentEvent: bytes
    ghost var handed: seq<Handed>
    ghost var flushed: bool

    ghost predicate Booked()
      reads `handed, `extracted, trace, parser
    {
      var a := BookAll(parser.provider, start, handed);
      parser.cur == a.cur && extracted == a.extracted && (trace != null ==> trace.usage == a.trace)
    }

    ghost predicate Valid()
      reads this, reader, trace, parser
    {
      && Booked()
      && (if flushed then Scan(currentEvent, handed) == ScanLines(START, Split(reader.yielded))
          else Scan(currentEvent, handed) == ScanLines(START, ClosedLines(reader.yielded))
               && buffer == LastLine(reader.yielded))
    }

    constructor (reader: Upstream, trace: RequestTrace?, provider: Provider)
      requires reader.yielded == []
      ensures Valid() && !flushed && this.reader == reader && this.trace == trace
      ensures fresh(parser) && parser.provider == provider
      ensures start == if trace == null then NO_USAGE else trace.usage
    {
      this.reader, this.trace := reader, trace;
      start := if trace == null then NO_USAGE else trace.usage;
      parser := new UsageParser(provider);
      buffer, extracted, currentEvent := [], false, [];
      handed, flushed := [], false;
      new;
      LinesOfOneLine([]);
    }

    /** parseSSEData: one event goes to the parser, its usage to the trace. */
    method ParseSSEData(data: bytes)
      requires Booked()
      modifies this`extracted, this`handed, parser, trace
      ensures Booked() && handed == old(handed) + [(currentEvent, data)]
    {
      BookSnoc(parser.provider, start, handed, (currentEvent, data));
      hide BookAll;
      handed := handed + [(currentEvent, data)];
      var r := parser.ConsumeSSE(currentEvent, data);
      if !r.ok {
        return;
      }
      if r.usage.Some? && trace != null {
        var u := r.usage.value;
        trace.SetUsage(u.input, u.output, u.cacheRead, u.cacheCreation);
      }
      if r.final {
        extracted := true;
      }
    }

    /** One trimmed line. */
    method ProcessLine(trimmed: bytes, ghost line: bytes)
      requires Booked() && trimmed == TrimSpace(line)
      modifies this`currentEvent, this`extracted, this`handed, parser, trace
      ensures Booked() && Scan(currentEvent, handed) == ScanLine(old(Scan(currentEvent, handed)), line)
    {
      hide BookAll, TrimSpace;
      if HasPrefix(trimmed, EVENT_FIELD) {
        currentEvent := TrimSpace(TrimPrefix(trimmed, EVENT_FIELD));
        return;
      }
      if HasPrefix(trimmed, DATA_FIELD) {
        var data := TrimSpace(TrimPrefix(trimmed, DATA_FIELD));
        if data == DONE {
          currentEvent := [];
          return;
        }
        ParseSSEData(data);
        currentEvent := [];
      }
    }

    /** Every line that `buffer` now completes is processed; the unfinished one stays. */
    method ProcessChunk(chunk: bytes)
      requires Booked()
      modifies this`buffer, this`currentEvent, this`extracted, this`handed, parser, trace
      ensures Booked() && buffer == LastLine(old(buffer) + chunk)
      ensures Scan(currentEvent, handed) == ScanLines(old(Scan(currentEvent, handed)), ClosedLines(old(buffer) + chunk))
    {
      hide Split, ScanLine, ScanLines, ClosedLines, LastLine, FirstLF, TrimSpace, FieldOf, Booked;
      buffer := buffer + chunk;
      ghost var all, before := buffer, Scan(currentEvent, handed);
      while true
        invariant Booked()
        invariant LastLine(buffer) == LastLine(all)
        invariant ScanLines(Scan(currentEvent, handed), ClosedLines(buffer)) == ScanLines(before, ClosedLines(all))
        decreases |buffer|
      {
        var i := FirstLF(buffer);
        if i == |buffer| {
          assert buffer[..i] == buffer;
          LinesOfOneLine(buffer);
          ScanNothing(Scan(currentEvent, handed));
          break;
        }
        var line, rest := buffer[..i + 1], buffer[i + 1..];
        assert line == buffer[..i] + [LF];
        assert buffer == buffer[..i] + [LF] + rest;
        LinesCons(buffer[..i], rest);
        ScanCons(Scan(currentEvent, handed), buffer[..i], ClosedLines(rest));
        TrimSpaceBeforeLF(buffer[..i]);
        var trimmed := TrimSpace(line);
        ProcessLine(trimmed, buffer[..i]);
        buffer := rest;
      }
    }

    /** What is left in `buffer` at the end counts as a last line. */
    method FlushRemainingBuffer()
      requires Valid() && !flushed
      modifies this`buffer, this`currentEvent, this`extracted, this`handed, this`flushed, parser, trace
      ensures Valid() && flushed
    {
      hide Split, ScanLine, ScanLines, ClosedLines, LastLine, FirstLF, TrimSpace, FieldOf, Booked, OneLine;
      ScanLast(reader.yielded);
      LastLineIsOneLine(reader.yielded);
      flushed := true;
      var remaining := TrimSpace(buffer);
      if remaining == [] {
        BlankLine(Scan(currentEvent, handed), buffer);
        return;
      }
      TrimSpaceOneLine(buffer);
      LinesOfOneLine(remaining);
      TrimSpaceIdempotent(buffer);
      var lines := Split(remaining);
      assert lines == [remaining];
      ghost var before := Scan(currentEvent, handed);
      for k := 0 to |lines|
        invariant flushed && buffer == old(buffer)
        invariant Booked() && Scan(currentEvent, handed) == if k == 0 then before else ScanLine(before, buffer)
      {
        var line := TrimSpace(lines[k]);
        if line == [] {
          continue;
        }
        ProcessLine(line, buffer);
      }
      buffer := [];
    }

    method Read(p: array<byte>) returns (n: nat, err: Signal)
      requires Valid() && !flushed
      modifies this`buffer, this`currentEvent, this`extracted, this`handed, reader, parser, trace, p
      ensures Valid() && n <= p.Length
      ensures reader.yielded == old(reader.yielded) + p[..n] && reader.Total() == old(reader.Total())
      ensures forall i :: n <= i < p.Length ==> p[i] == old(p[i])
      ensures !reader.closed && err == EOF ==> reader.script == []
      ensures Work(reader.script) <= old(Work(reader.script))
      ensures !reader.closed && p.Length > 0 ==> err == EOF || Work(reader.script) < old(Work(reader.script))
      ensures !reader.closed && old(ErrorFree(reader.script)) ==> err != Failed && ErrorFree(reader.script)
      ensures reader.closed == old(reader.closed)
      ensures if reader.closed then n == 0 && err == reader.afterClose
              else Served(p[..n], err, reader.script) == Serve(old(reader.script), p.Length)
    {
      hide ScanLines, ClosedLines, LastLine, Split, Booked, Content, Work, ErrorFree, Upstream.Total, Serve;
      n, err := reader.Read(p);
      Accept(old(reader.yielded), p[..n]);
    }

    /** The bytes just read have been seen. */
    method Accept(ghost seen: bytes, chunk: bytes)
      requires Booked() && !flushed
      requires reader.yielded == seen + chunk && buffer == LastLine(seen)
      requires Scan(currentEvent, handed) == ScanLines(START, ClosedLines(seen))
      modifies this`buffer, this`currentEvent, this`extracted, this`handed, parser, trace
      ensures Valid()
    {
      hide Split, ScanLine, ScanLines, ClosedLines, LastLine, FirstLF, Booked;
      ScanChunk(seen, chunk);
      if |chunk| > 0 {
        ProcessChunk(chunk);
      } else {
        assert seen + chunk == seen;
      }
    }

    method Close()
      requires Valid() && !flushed
      modifies this`buffer, this`currentEvent, this`extracted, this`handed, this`flushed, reader`closed, parser, trace
      ensures Valid() && flushed && reader.closed
    {
      hide ScanLines, ClosedLines, LastLine, Split, Booked;
      FlushRemainingBuffer();
      reader.Close();
    }
  }

  /** A client that forwards the stream to its end and closes it: bytes untouched, usage a fold over the stream. */
  method ForwardAndClose(script: Script, afterClose: Ending, provider: Provider, trace: RequestTrace, sizes: nat -> nat)
    returns (out: bytes, err: Signal, usage: TokenUsage)
    modifies trace
    ensures err != Nil && (ErrorFree(script) ==> err == EOF)
    ensures err == EOF ==> out == Content(script)
    ensures out <= Content(script)
    ensures usage == trace.usage == BookAll(provider, old(trace.usage), Events(out)).trace
  {
    hide ScanLines, ClosedLines, LastLine, Split, Content, Work, ErrorFree, BookAll;
    var reader := new Upstream(script, afterClose);
    reader.TotalAtStart();
    var e := new SSETokenExtractor(reader, trace, provider);
    out, err := [], Nil;
    var calls := 0;
    while err == Nil
      invariant e.Valid() && !e.flushed && e.reader == reader && !reader.closed
      invariant e.trace == trace && e.parser.provider == provider && fresh(e.parser) && e.start == old(trace.usage)
      invariant reader.yielded == out && reader.Total() == Content(script)
      invariant err == EOF ==> reader.script == []
      invariant ErrorFree(script) ==> ErrorFree(reader.script) && err != Failed
      decreases Work(reader.script), err == Nil
    {
      var p := new byte[1 + sizes(calls)];
      var n;
      n, err := e.Read(p);
      out := out + p[..n];
      calls := calls + 1;
    }
    ContentOfNothing();
    assert reader.Total() == out + Content(reader.script);
    e.Close();
    usage := trace.usage;
  }
}

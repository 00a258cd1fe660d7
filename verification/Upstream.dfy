/** An upstream `io.ReadCloser` that hands over a fixed byte stream in arbitrary pieces. */
module UpstreamReader {
  import opened Bytes

  /** The `error` result of `Read`: nil, io.EOF, or any other error. */
  datatype Signal = Nil | EOF | Failed

  /** A closed body reports its end or an error, never an endless run of empty reads. */
  type Ending = s: Signal | s != Nil witness EOF

  /** One piece the stream offers, with the error that comes with its last byte. */
  datatype Chunk = Chunk(data: bytes, err: Signal)

  type Script = seq<Chunk>

  /** The bytes a script delivers up to its first end of file. */
  function Content(script: Script): bytes
  {
    if script == [] then []
    else if script[0].err == EOF then script[0].data
    else script[0].data + Content(script[1..])
  }

  lemma ContentOfNothing()
    ensures Content([]) == []
  {
  }

  predicate ErrorFree(script: Script)
  {
    forall i :: 0 <= i < |script| ==> script[i].err != Failed
  }

  /** Bounds the number of reads that can still make progress. */
  function Work(script: Script): nat
  {
    if script == [] then 0 else |script[0].data| + 1 + Work(script[1..])
  }

  /** What one read into a buffer of `max` bytes takes off a script. */
  datatype Served = Served(data: bytes, err: Signal, rest: Script)

  function Serve(script: Script, max: nat): (r: Served)
    ensures |r.data| <= max
  {
    if script == [] then Served([], EOF, [])
    else
      var chunk := script[0];
      if |chunk.data| > max then
        Served(chunk.data[..max], Nil, [Chunk(chunk.data[max..], chunk.err)] + script[1..])
      else
        Served(chunk.data, chunk.err, if chunk.err == EOF then [] else script[1..])
  }

  lemma ServeKeepsContent(script: Script, max: nat)
    ensures var r := Serve(script, max); r.data + Content(r.rest) == Content(script)
  {
    if script != [] {
      var chunk := script[0];
      if |chunk.data| > max {
        var rest := [Chunk(chunk.data[max..], chunk.err)] + script[1..];
        assert rest[1..] == script[1..];
        assert chunk.data == chunk.data[..max] + chunk.data[max..];
        Assoc(chunk.data[..max], chunk.data[max..], Content(script[1..]));
      }
    }
  }

  lemma ServeMakesProgress(script: Script, max: nat)
    ensures var r := Serve(script, max);
            && (r.err == EOF ==> r.rest == [])
            && (max > 0 && script != [] ==> Work(r.rest) < Work(script))
            && (script == [] ==> r.err == EOF)
            && Work(r.rest) <= Work(script)
            && (ErrorFree(script) ==> r.err != Failed && ErrorFree(r.rest))
  {
    if script != [] && |script[0].data| > max {
      var rest := Serve(script, max).rest;
      assert rest[1..] == script[1..];
      assert forall i :: 0 < i < |rest| ==> rest[i] == script[i];
    }
  }

  lemma {:induction false} ContentAppend(script: Script, piece: Chunk)
    requires forall i :: 0 <= i < |script| ==> script[i].err != EOF
    ensures Content(script + [piece]) == Content(script) + piece.data
  {
    if script == [] {
      assert Content([piece]) == piece.data;
    } else {
      assert (script + [piece])[1..] == script[1..] + [piece];
      ContentAppend(script[1..], piece);
      Assoc(script[0].data, Content(script[1..]), piece.data);
    }
  }

  /** The results of consecutive reads, as the script a reader further up meets: `out` in all, and `err` with the last one. */
  predicate RecordOf(pieces: Script, out: bytes, err: Signal)
  {
    && Content(pieces) == out
    && (forall i :: 0 <= i < |pieces| - 1 ==> pieces[i].err == Nil)
    && (if pieces == [] then err == Nil else pieces[|pieces| - 1].err == err)
  }

  lemma RecordMore(pieces: Script, out: bytes, data: bytes, err: Signal)
    requires RecordOf(pieces, out, Nil)
    ensures RecordOf(pieces + [Chunk(data, err)], out + data, err)
  {
    hide Content;
    ContentAppend(pieces, Chunk(data, err));
  }

  lemma RecordBegins()
    ensures RecordOf([], [], Nil)
  {
  }

  lemma RecordMeans(pieces: Script, out: bytes, err: Signal)
    requires RecordOf(pieces, out, err)
    ensures Content(pieces) == out && (err != Failed ==> ErrorFree(pieces))
  {
    hide Content;
  }

  class Upstream {
    var script: Script
    var closed: bool
    const afterClose: Ending  // what reading a closed body reports
    ghost var yielded: bytes  // all bytes handed over so far

    constructor (script: Script, afterClose: Ending)
      ensures this.script == script && this.afterClose == afterClose
      ensures yielded == [] && !closed
    {
      this.script := script;
      this.afterClose := afterClose;
      closed := false;
      yielded := [];
    }

    /** The whole stream, whatever the reads were. */
    ghost function Total(): bytes
      reads `yielded, `script
    {
      yielded + Content(script)
    }

    lemma TotalAtStart()
      requires yielded == []
      ensures Total() == Content(script)
    {
    }

    method Read(p: array<byte>) returns (n: nat, err: Signal)
      modifies this, p
      ensures n <= p.Length && closed == old(closed)
      ensures yielded == old(yielded) + p[..n]
      ensures forall i :: n <= i < p.Length ==> p[i] == old(p[i])
      ensures Total() == old(Total())
      ensures !closed && err == EOF ==> script == []
      ensures Work(script) <= old(Work(script))
      ensures !closed && p.Length > 0 ==> Work(script) < old(Work(script)) || (err == EOF && old(script) == [])
      ensures !closed && old(ErrorFree(script)) ==> err != Failed && ErrorFree(script)
      ensures closed ==> n == 0 && err == afterClose && script == old(script)
      ensures !closed ==> Served(p[..n], err, script) == Serve(old(script), p.Length)
    {
      if closed {
        assert p[..0] == [];
        return 0, afterClose;
      }
      hide Serve, Content, Work, ErrorFree;
      ServeKeepsContent(script, p.Length);
      ServeMakesProgress(script, p.Length);
      var served := Serve(script, p.Length);
      n := Copy(p, served.data);
      err := served.err;
      assert served.data[..n] == served.data;
      Assoc(yielded, served.data, Content(served.rest));
      script := served.rest;
      yielded := yielded + served.data;
    }

    /** One read into a fresh scratch buffer, as every consumer of a body does. */
    method ReadSome(size: nat) returns (got: bytes, err: Signal)
      requires size > 0
      modifies this
      ensures |got| <= size && closed == old(closed)
      ensures yielded == old(yielded) + got && Total() == old(Total())
      ensures !closed && err == EOF ==> script == []
      ensures Work(script) <= old(Work(script))
      ensures !closed ==> Work(script) < old(Work(script)) || (err == EOF && old(script) == [])
      ensures !closed && old(ErrorFree(script)) ==> err != Failed && ErrorFree(script)
      ensures closed ==> got == [] && err == afterClose && script == old(script) && yielded == old(yielded)
      ensures !closed ==> Served(got, err, script) == Serve(old(script), size)
    {
      hide *;
      var tmp := new byte[size];
      var n;
      n, err := Read(tmp);
      got := tmp[..n];
    }

    method Close()
      modifies this`closed
      ensures closed && Total() == old(Total())
    {
      closed := true;
    }
  }

  /** Go's `copy`. */
  method Copy(p: array<byte>, src: bytes) returns (n: nat)
    modifies p
    ensures n == if |src| < p.Length then |src| else p.Length
    ensures p[..n] == src[..n]
    ensures forall i :: n <= i < p.Length ==> p[i] == old(p[i])
  {
    n := if |src| < p.Length then |src| else p.Length;
    forall i | 0 <= i < n {
      p[i] := src[i];
    }
  }
}

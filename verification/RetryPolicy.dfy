/** Which frames make the retry wrapper abandon an attempt, and what a whole run should deliver. */
module RetryPolicy {
  import opened Bytes
  import opened Framing
  import opened SSEEvent
  import opened UpstreamReader

  /** The string view of a JSON payload: value at a dotted path, and lower-casing. */
  datatype Json = Json(get: (bytes, bytes) -> bytes, lower: bytes -> bytes)

  const TYPE := Ascii("type")
  const ERROR := Ascii("error")
  const ERROR_TYPE := Ascii("error.type")
  const ERROR_CODE := Ascii("error.code")
  const ERROR_MESSAGE := Ascii("error.message")
  const RATE_LIMIT_ERROR := Ascii("rate_limit_error")
  const CONCURRENCY_LIMIT := Ascii("concurrency limit exceeded")
  const STREAM_READ_ERROR := Ascii("stream_read_error")

  predicate Contains(s: bytes, part: bytes)
  {
    Index(s, part) >= 0
  }

  predicate IsRetryableErrorPayload(json: Json, eventName: bytes, payload: bytes)
  {
    if |payload| == 0 then false
    else
      var topType := json.lower(json.get(payload, TYPE));
      var errMsg := json.lower(json.get(payload, ERROR_MESSAGE));
      var errCode := json.lower(json.get(payload, ERROR_CODE));
      || (eventName == ERROR && json.get(payload, ERROR_TYPE) == RATE_LIMIT_ERROR && Contains(errMsg, CONCURRENCY_LIMIT))
      || ((errCode == STREAM_READ_ERROR || Contains(errMsg, STREAM_READ_ERROR))
          && (topType == [] || topType == ERROR || eventName == ERROR))
  }

  predicate IsRetryPreludeFrame(json: Json, eventName: bytes, payload: bytes)
  {
    if |payload| == 0 then false
    else
      var topType := json.lower(json.get(payload, TYPE));
      var eventType := if topType == [] then json.lower(eventName) else topType;
      || eventType == Ascii("response.created")
      || eventType == Ascii("response.in_progress")
      || eventType == Ascii("response.output_item.added")
      || eventType == Ascii("response.output_item.done")
      || eventType == Ascii("response.content_part.added")
      || eventType == Ascii("response.content_part.done")
  }

  // ---- The verdict on an attempt -----------------------------------------------------------

  datatype Verdict = Open | Retryable | Substantive

  /** Comments, keep-alives and prelude events leave the verdict open. */
  function FrameVerdict(json: Json, frame: bytes): Verdict
  {
    var e := EventOf(frame);
    if |e.payload| == 0 && !e.done then Open
    else if IsRetryableErrorPayload(json, e.name, e.payload) then Retryable
    else if IsRetryPreludeFrame(json, e.name, e.payload) then Open
    else Substantive
  }

  /** The verdict of the first frame that gives one. */
  function Lead(json: Json, frames: seq<bytes>): Verdict
  {
    if frames == [] then Open
    else if FrameVerdict(json, frames[0]) != Open then FrameVerdict(json, frames[0])
    else Lead(json, frames[1..])
  }

  function Decide(json: Json, stream: bytes): Verdict
  {
    Lead(json, Frames(stream))
  }

  /** A stream is abandoned, or let through, because of its first frame that is neither a comment nor prelude. */
  lemma {:induction false} LeadMeaning(json: Json, frames: seq<bytes>, v: Verdict)
    requires v != Open
    ensures Lead(json, frames) == v <==> exists i: nat :: LeadsAt(json, frames, i) && FrameVerdict(json, frames[i]) == v
  {
    hide FrameVerdict;
    if frames != [] {
      var rest := frames[1..];
      if FrameVerdict(json, frames[0]) != Open {
        assert LeadsAt(json, frames, 0);
      } else {
        LeadMeaning(json, rest, v);
        forall i: nat | LeadsAt(json, rest, i)
          ensures LeadsAt(json, frames, i + 1) && frames[i + 1] == rest[i]
        {
        }
        forall i: nat | LeadsAt(json, frames, i)
          ensures i > 0 && LeadsAt(json, rest, i - 1) && frames[i] == rest[i - 1]
        {
          assert forall k :: 0 <= k < i - 1 ==> rest[k] == frames[k + 1];
        }
      }
    }
  }

  predicate LeadsAt(json: Json, frames: seq<bytes>, i: nat)
  {
    i < |frames| && FrameVerdict(json, frames[i]) != Open && forall k :: 0 <= k < i ==> FrameVerdict(json, frames[k]) == Open
  }

  /** The end marker always lets a stream through, wherever its frame's payload was read. */
  lemma DoneLetsThrough(json: Json, frame: bytes)
    requires EventOf(frame).done
    ensures FrameVerdict(json, frame) == Substantive
  {
    hide Split, LastName, DataValues, Join, IsRetryableErrorPayload, IsRetryPreludeFrame;
    assert EventOf(frame).payload == [];
    NoPayload(json, EventOf(frame).name);
  }

  lemma NoPayload(json: Json, name: bytes)
    ensures !IsRetryableErrorPayload(json, name, []) && !IsRetryPreludeFrame(json, name, [])
  {
  }

  lemma {:induction false} LeadAppend(json: Json, a: seq<bytes>, b: seq<bytes>)
    ensures Lead(json, a + b) == if Lead(json, a) == Open then Lead(json, b) else Lead(json, a)
  {
    hide FrameVerdict;
    if a == [] {
      assert a + b == b;
    } else {
      LeadAppend(json, a[1..], b);
      assert (a + b)[1..] == a[1..] + b;
    }
  }

  /** A verdict reached on a prefix is the verdict on the whole stream. */
  lemma DecideStable(json: Json, prefix: bytes, more: bytes)
    requires Decide(json, prefix) != Open
    ensures Decide(json, prefix + more) == Decide(json, prefix)
  {
    hide Lead, Frames, Residual;
    FramesAppend(prefix, more);
    LeadAppend(json, Frames(prefix), Frames(Residual(prefix) + more));
  }

  /** The verdict of a stream that starts with open frames is that of its next frame. */
  lemma DecideAtFrame(json: Json, open: seq<bytes>, rest: bytes)
    requires forall i :: 0 <= i < |open| ==> IsFrame(open[i])
    requires Lead(json, open) == Open && FrameLen(rest) > 0
    requires FrameVerdict(json, rest[..FrameLen(rest)]) != Open
    ensures Decide(json, Concat(open) + rest) == FrameVerdict(json, rest[..FrameLen(rest)])
  {
    hide FrameLen, IsFrame, FrameVerdict, Residual, Concat;
    FramesConcat(open, rest);
    LeadAppend(json, open, Frames(rest));
  }

  lemma DecideWithoutFrame(json: Json, open: seq<bytes>, rest: bytes)
    requires forall i :: 0 <= i < |open| ==> IsFrame(open[i])
    requires Lead(json, open) == Open && FrameLen(rest) == 0
    ensures Decide(json, Concat(open) + rest) == Open
  {
    hide FrameLen, IsFrame, FrameVerdict, Residual, Concat;
    FramesConcat(open, rest);
    assert open + [] == open;
  }

  lemma LeadSnoc(json: Json, open: seq<bytes>, frame: bytes)
    requires Lead(json, open) == Open && FrameVerdict(json, frame) == Open
    ensures Lead(json, open + [frame]) == Open
  {
    hide FrameVerdict;
    LeadAppend(json, open, [frame]);
  }

  // ---- How far an attempt is read before its verdict ----------------------------------------

  const READ_SIZE: nat := 0x2000

  /**
    * The bytes still to be read from `script` until a frame gives a verdict, with `buf` read but not examined yet.  Every
    * turn reads once, unless the end has been seen, and then examines at most one frame; a read error ends the turn.
    */
  function ReadAhead(json: Json, buf: bytes, script: Script, exhausted: bool): bytes
    decreases Work(script) + (if exhausted then 0 else 1), |buf|, 1
  {
    if exhausted then ExamineNext(json, buf, script, true)
    else
      var served := Serve(script, READ_SIZE);
      ServeMakesProgress(script, READ_SIZE);
      served.data + if served.err == Failed then ReadAhead(json, buf + served.data, served.rest, false)
                    else ExamineNext(json, buf + served.data, served.rest, served.err == EOF)
  }

  /** The same in the middle of a turn, when the read has been made. */
  function ExamineNext(json: Json, buf: bytes, script: Script, exhausted: bool): bytes
    decreases Work(script) + (if exhausted then 0 else 1), |buf|, if FrameLen(buf) == 0 && !exhausted then 2 else 0
  {
    var n := FrameLen(buf);
    if n > 0 then
      if FrameVerdict(json, buf[..n]) == Open then ReadAhead(json, buf[n..], script, exhausted) else []
    else if exhausted then []
    else ReadAhead(json, buf, script, false)
  }

  /** Everything read of an attempt when its verdict is reached. */
  function Held(json: Json, script: Script): bytes
  {
    ReadAhead(json, [], script, false)
  }

  /** What the next read does to the bytes still ahead. */
  lemma ReadOnce(json: Json, yielded: bytes, buf: bytes, script: Script)
    ensures var served := Serve(script, READ_SIZE);
            yielded + ReadAhead(json, buf, script, false) ==
            yielded + served.data + if served.err == Failed then ReadAhead(json, buf + served.data, served.rest, false)
                                    else ExamineNext(json, buf + served.data, served.rest, served.err == EOF)
  {
    hide ExamineNext, Serve;
  }

  lemma ExamineOnce(json: Json, buf: bytes, script: Script, exhausted: bool)
    ensures var n := FrameLen(buf);
            ExamineNext(json, buf, script, exhausted) ==
            if n > 0 then (if FrameVerdict(json, buf[..n]) == Open then ReadAhead(json, buf[n..], script, exhausted) else [])
            else if exhausted then [] else ReadAhead(json, buf, script, false)
    ensures exhausted ==> ReadAhead(json, buf, script, true) == ExamineNext(json, buf, script, true)
  {
    hide FrameLen, FrameVerdict, Serve;
  }

  // ---- What a whole run should deliver -----------------------------------------------------

  const MAX_RETRIES: nat := 3

  /** What one call of the retry function gives: a fresh body, or an error. */
  datatype Attempt = Body(script: Script, afterClose: Ending) | Refused

  /** An attempt's whole stream, what has been read of it at its verdict, and what its body reports once closed. */
  datatype Offer = Offer(stream: bytes, held: bytes, ending: Ending)

  function OfferOf(json: Json, script: Script, afterClose: Ending): Offer
  {
    Offer(Content(script), Held(json, script), afterClose)
  }

  /** Every byte of one attempt, or what was held of the one whose retry was refused. */
  datatype Outcome = Whole(stream: bytes) | Cut(offer: Offer)

  function Delivered(o: Outcome): bytes
  {
    match o
    case Whole(stream) => stream
    case Cut(offer) => offer.held
  }

  function FinalSignal(o: Outcome): Signal
  {
    match o
    case Whole(_) => EOF
    case Cut(offer) => offer.ending
  }

  function Run(json: Json, offer: Offer, attempts: seq<Attempt>, left: nat): Outcome
    decreases left
  {
    if left == 0 || Decide(json, offer.stream) != Retryable then Whole(offer.stream)
    else if attempts == [] || attempts[0].Refused? then Cut(offer)
    else Run(json, OfferOf(json, attempts[0].script, attempts[0].afterClose), attempts[1..], left - 1)
  }

  /** The k-th attempt of a run: the first one, then what the successive retries give. */
  function OfferAt(json: Json, first: Offer, attempts: seq<Attempt>, k: nat): Offer
    requires k <= |attempts|
    requires forall i :: 0 <= i < k ==> attempts[i].Body?
  {
    if k == 0 then first else OfferOf(json, attempts[k - 1].script, attempts[k - 1].afterClose)
  }

  function Stream(first: bytes, attempts: seq<Attempt>, k: nat): bytes
    requires k <= |attempts|
    requires forall i :: 0 <= i < k ==> attempts[i].Body?
  {
    if k == 0 then first else Content(attempts[k - 1].script)
  }

  /** Index of the attempt a run ends with: the first that is not to be retried, or can not be. */
  function SettlesAt(json: Json, first: bytes, attempts: seq<Attempt>, left: nat): (k: nat)
    ensures k <= left && k <= |attempts| && forall i :: 0 <= i < k ==> attempts[i].Body?
    decreases left
  {
    if left == 0 || Decide(json, first) != Retryable || attempts == [] || attempts[0].Refused? then 0
    else 1 + SettlesAt(json, Content(attempts[0].script), attempts[1..], left - 1)
  }

  /** The attempt at `k` is to be retried like all before it, and its retry is refused. */
  ghost predicate RefusedAt(json: Json, first: bytes, attempts: seq<Attempt>, left: nat, k: nat)
  {
    && k < left && k <= |attempts| && (forall i :: 0 <= i < k ==> attempts[i].Body?)
    && (k == |attempts| || attempts[k].Refused?)
    && forall i :: 0 <= i <= k ==> Decide(json, Stream(first, attempts, i)) == Retryable
  }

  /**
    * A run ends with one attempt, all attempts before it being retryable.  That attempt is whole, and then it is acceptable
    * or the last one allowed, unless it is cut because its retry was refused.
    */
  lemma {:induction false} RunMeaning(json: Json, first: Offer, attempts: seq<Attempt>, left: nat)
    ensures var k := SettlesAt(json, first.stream, attempts, left);
            var offer := OfferAt(json, first, attempts, k);
            && offer.stream == Stream(first.stream, attempts, k)
            && (forall i :: 0 <= i < k ==> Decide(json, Stream(first.stream, attempts, i)) == Retryable)
            && if RefusedAt(json, first.stream, attempts, left, k) then Run(json, first, attempts, left) == Cut(offer)
               else Run(json, first, attempts, left) == Whole(offer.stream)
                    && (k < left ==> Decide(json, offer.stream) != Retryable)
    decreases left
  {
    hide Decide, Content, Held;
    var k := SettlesAt(json, first.stream, attempts, left);
    if k > 0 {
      var next := OfferOf(json, attempts[0].script, attempts[0].afterClose);
      RunMeaning(json, next, attempts[1..], left - 1);
      forall i | 0 < i <= k
        ensures Stream(first.stream, attempts, i) == Stream(next.stream, attempts[1..], i - 1)
      {
      }
      RefusedLater(json, first.stream, attempts, left, k);
    }
  }

  /** Leaving out the first attempt. */
  lemma RefusedLater(json: Json, first: bytes, attempts: seq<Attempt>, left: nat, k: nat)
    requires k > 0 && left > 0 && attempts != [] && attempts[0].Body? && Decide(json, first) == Retryable
    ensures RefusedAt(json, first, attempts, left, k) <==>
            RefusedAt(json, Content(attempts[0].script), attempts[1..], left - 1, k - 1)
  {
    hide Decide, Content;
    var next, rest := Content(attempts[0].script), attempts[1..];
    if RefusedAt(json, first, attempts, left, k) {
      forall i | 0 <= i <= k - 1
        ensures Decide(json, Stream(next, rest, i)) == Retryable
      {
        assert Stream(next, rest, i) == Stream(first, attempts, i + 1);
      }
    }
    if RefusedAt(json, next, rest, left - 1, k - 1) {
      assert forall i :: 0 < i < k ==> attempts[i] == rest[i - 1];
      forall i | 0 <= i <= k
        ensures Decide(json, Stream(first, attempts, i)) == Retryable
      {
        assert i > 0 ==> Stream(first, attempts, i) == Stream(next, rest, i - 1);
      }
    }
  }

  /** A run is cut exactly if the retry of some attempt is refused, all up to it being retryable. */
  lemma {:induction false} CutIff(json: Json, first: Offer, attempts: seq<Attempt>, left: nat)
    ensures Run(json, first, attempts, left).Cut? <==> exists k: nat :: RefusedAt(json, first.stream, attempts, left, k)
    decreases left
  {
    hide Decide, Content, Held;
    RunMeaning(json, first, attempts, left);
    if k: nat :| RefusedAt(json, first.stream, attempts, left, k) {
      assert Stream(first.stream, attempts, 0) == first.stream;
      if k > 0 {
        var next := OfferOf(json, attempts[0].script, attempts[0].afterClose);
        RefusedLater(json, first.stream, attempts, left, k);
        CutIff(json, next, attempts[1..], left - 1);
      }
    }
  }

  /** No read of the attempts a run uses can fail. */
  predicate CleanRun(json: Json, first: bytes, attempts: seq<Attempt>, left: nat)
  {
    forall i :: 0 <= i < SettlesAt(json, first, attempts, left) ==> ErrorFree(attempts[i].script)
  }

  /** Which attempt is delivered depends on the bytes alone, not on the pieces they come in. */
  lemma {:induction false} RunIgnoresPieces(json: Json, first: Offer, a: seq<Attempt>, first': Offer, b: seq<Attempt>, left: nat)
    requires first.stream == first'.stream && |a| == |b| && forall i :: 0 <= i < |a| ==> SameBytes(a[i], b[i])
    ensures var o, o' := Run(json, first, a, left), Run(json, first', b, left);
            if o.Whole? then o' == o else o'.Cut? && o'.offer.stream == o.offer.stream
    decreases left
  {
    hide Decide, Content, Held;
    if left > 0 && a != [] {
      assert SameBytes(a[0], b[0]);
      if a[0].Body? {
        RunIgnoresPieces(json, OfferOf(json, a[0].script, a[0].afterClose), a[1..],
                         OfferOf(json, b[0].script, b[0].afterClose), b[1..], left - 1);
      }
    }
  }

  predicate SameBytes(a: Attempt, b: Attempt)
  {
    if a.Body? then b.Body? && Content(a.script) == Content(b.script) else b.Refused?
  }

  // ---- What is lost when a retry is refused --------------------------------------------------

  lemma {:induction false} ReadAheadBegins(json: Json, buf: bytes, script: Script, exhausted: bool)
    ensures ReadAhead(json, buf, script, exhausted) <= Content(script)
    decreases Work(script) + (if exhausted then 0 else 1), |buf|, 1
  {
    hide FrameVerdict, FrameLen, Serve, Content, ExamineNext;
    if exhausted {
      ExamineNextBegins(json, buf, script, true);
    } else {
      var served := Serve(script, READ_SIZE);
      ServeMakesProgress(script, READ_SIZE);
      ServeKeepsContent(script, READ_SIZE);
      if served.err == Failed {
        ReadAheadBegins(json, buf + served.data, served.rest, false);
      } else {
        ExamineNextBegins(json, buf + served.data, served.rest, served.err == EOF);
      }
    }
  }

  lemma {:induction false} ExamineNextBegins(json: Json, buf: bytes, script: Script, exhausted: bool)
    ensures ExamineNext(json, buf, script, exhausted) <= Content(script)
    decreases Work(script) + (if exhausted then 0 else 1), |buf|, if FrameLen(buf) == 0 && !exhausted then 2 else 0
  {
    hide FrameVerdict, FrameLen, Content, ReadAhead;
    var n := FrameLen(buf);
    if n > 0 {
      ReadAheadBegins(json, buf[n..], script, exhausted);
    } else if !exhausted {
      ReadAheadBegins(json, buf, script, false);
    }
  }

  /** What is held is a beginning of the stream; the rest of it is lost if the retry is refused. */
  lemma HeldBegins(json: Json, script: Script)
    ensures Held(json, script) <= Content(script)
  {
    ReadAheadBegins(json, [], script, false);
  }

  // ---- How much is held, in terms of the reads -------------------------------------------------

  /** The bytes of the first k reads of a body. */
  function Reads(script: Script, k: nat): bytes
    decreases k
  {
    if k == 0 then [] else Serve(script, READ_SIZE).data + Reads(Serve(script, READ_SIZE).rest, k - 1)
  }

  /** The least number of reads that give n bytes. */
  function LeastReads(script: Script, n: int): nat
    decreases Work(script)
  {
    if n <= 0 || script == [] then 0
    else
      ServeMakesProgress(script, READ_SIZE);
      var served := Serve(script, READ_SIZE);
      1 + LeastReads(served.rest, n - |served.data|)
  }

  lemma {:induction false} LeastReadsIs(script: Script, n: int, k: nat)
    requires n <= |Content(script)|
    ensures |Reads(script, k)| >= n <==> k >= LeastReads(script, n)
    decreases Work(script)
  {
    hide Serve, Content;
    if n > 0 && script == [] {
      ContentOfNothing();
    } else if n > 0 && k > 0 {
      ServeMakesProgress(script, READ_SIZE);
      ServeKeepsContent(script, READ_SIZE);
      var served := Serve(script, READ_SIZE);
      LeastReadsIs(served.rest, n - |served.data|, k - 1);
    }
  }

  /** All reads together give the content, and any number of them a beginning of it. */
  lemma {:induction false} ReadsBegin(script: Script, k: nat)
    ensures Reads(script, k) <= Content(script)
    decreases k
  {
    hide Serve, Content;
    if k > 0 {
      ServeKeepsContent(script, READ_SIZE);
      ReadsBegin(Serve(script, READ_SIZE).rest, k - 1);
    }
  }

  /**
    * The turn in which the i-th frame is examined, counted from 1, when `have` bytes of the frames have been read already:
    * a turn makes one read and examines at most one frame, so a frame is examined in the turn after the one before it, or
    * as soon as enough reads have completed it.
    */
  function TurnOf(have: nat, script: Script, frames: seq<bytes>, i: nat): nat
    requires i <= |frames|
    decreases i
  {
    if i == 0 then 0
    else
      var next, complete := TurnOf(have, script, frames, i - 1) + 1, LeastReads(script, |Concat(frames[..i])| - have);
      if next < complete then complete else next
  }

  lemma LeastReadsStep(script: Script, n: int)
    ensures var served := Serve(script, READ_SIZE);
            LeastReads(script, n) == if n <= 0 || script == [] then 0 else 1 + LeastReads(served.rest, n - |served.data|)
    ensures n <= 0 || script == [] ==> LeastReads(Serve(script, READ_SIZE).rest, n - |Serve(script, READ_SIZE).data|) == 0
  {
  }

  /** A turn whose read completes no frame. */
  lemma {:induction false} TurnWithoutFrame(have: nat, script: Script, frames: seq<bytes>, i: nat)
    requires 0 < i <= |frames| && |frames[0]| <= have + |Content(script)|
    requires have + |Serve(script, READ_SIZE).data| < |frames[0]|
    ensures TurnOf(have, script, frames, i) ==
            1 + TurnOf(have + |Serve(script, READ_SIZE).data|, Serve(script, READ_SIZE).rest, frames, i)
    decreases i
  {
    hide Serve, Concat, Content, LeastReads;
    var served := Serve(script, READ_SIZE);
    var n := |Concat(frames[..i])| - have;
    FirstOfConcat(frames, i);
    ContentOfNothing();
    ServeKeepsContent(script, READ_SIZE);
    LeastReadsStep(script, n);
    if i == 1 {
      NothingConcat(frames[1..]);
      LeastReadsStep(served.rest, n - |served.data|);
    } else {
      TurnWithoutFrame(have, script, frames, i - 1);
    }
  }

  lemma FirstOfConcat(frames: seq<bytes>, i: nat)
    requires 0 < i <= |frames|
    ensures |Concat(frames[..i])| == |frames[0]| + |Concat(frames[1..][..i - 1])|
  {
    assert frames[..i][1..] == frames[1..][..i - 1];
  }

  /** A turn that examines the first frame. */
  lemma {:induction false} TurnWithFrame(have: nat, script: Script, frames: seq<bytes>, i: nat)
    requires i < |frames| && have + |Serve(script, READ_SIZE).data| >= |frames[0]|
    ensures TurnOf(have, script, frames, i + 1) ==
            1 + TurnOf(have + |Serve(script, READ_SIZE).data| - |frames[0]|, Serve(script, READ_SIZE).rest, frames[1..], i)
    decreases i
  {
    hide Serve, Concat, LeastReads;
    var served := Serve(script, READ_SIZE);
    var n := |Concat(frames[..i + 1])| - have;
    FirstOfConcat(frames, i + 1);
    LeastReadsStep(script, n);
    if i == 0 {
      NothingConcat(frames[1..]);
      LeastReadsStep(served.rest, n - |served.data|);
    } else {
      TurnWithFrame(have, script, frames, i - 1);
    }
  }

  lemma NothingConcat(frames: seq<bytes>)
    ensures Concat(frames[..0]) == []
  {
  }

  /** Once the end has been seen, one more read would change nothing. */
  lemma EndSeenReads(json: Json, buf: bytes)
    ensures ReadAhead(json, buf, [], true) == ReadAhead(json, buf, [], false)
  {
    hide ExamineNext;
    assert buf + [] == buf;
    assert [] + ExamineNext(json, buf, [], true) == ExamineNext(json, buf, [], true);
  }

  lemma ReadsFirst(script: Script, k: nat)
    ensures Reads(script, k + 1) == Serve(script, READ_SIZE).data + Reads(Serve(script, READ_SIZE).rest, k)
  {
    hide Serve;
  }

  /** What is read until the verdict is what the turns up to that of the leading frame read. */
  lemma {:induction false} AheadIs(json: Json, buf: bytes, script: Script, exhausted: bool, m: nat)
    requires ErrorFree(script) && (exhausted ==> script == [])
    requires LeadsAt(json, Frames(buf + Content(script)), m)
    ensures ReadAhead(json, buf, script, exhausted) ==
            Reads(script, TurnOf(|buf|, script, Frames(buf + Content(script)), m + 1))
    decreases Work(script) + (if exhausted then 0 else 1), |buf|
  {
    hide FrameVerdict, FrameLen, Frames, Serve, Content, ReadAhead, ExamineNext, TurnOf, ErrorFree, LeadsAt, Reads, Work;
    if exhausted {
      EndSeenReads(json, buf);
    }
    var served := Serve(script, READ_SIZE);
    ServeMakesProgress(script, READ_SIZE);
    ServeKeepsContent(script, READ_SIZE);
    ReadOnce(json, [], buf, script);
    assert [] + ReadAhead(json, buf, script, false) == ReadAhead(json, buf, script, false);
    assert [] + served.data == served.data;
    var buf', rest, seen := buf + served.data, served.rest, served.err == EOF;
    var frames, n := Frames(buf + Content(script)), FrameLen(buf');
    Assoc(buf, served.data, Content(rest));
    assert frames == Frames(buf' + Content(rest));
    FirstFrameIn(buf', Content(rest));
    ExamineOnce(json, buf', rest, seen);
    LeadIsSomewhere(json, frames, m);
    if n == 0 {
      assert seen ==> Content(rest) == [] && buf' + [] == buf' by { ContentOfNothing(); }
      AheadIs(json, buf', rest, false, m);
      TurnWithoutFrame(|buf|, script, frames, m + 1);
      ReadsFirst(script, TurnOf(|buf'|, rest, frames, m + 1));
    } else {
      TurnWithFrame(|buf|, script, frames, m);
      ReadsFirst(script, TurnOf(|buf'| - n, rest, frames[1..], m));
      if m == 0 {
        NoReads(rest, |buf'| - n, frames[1..]);
        assert served.data + [] == served.data;
      } else {
        assert frames[1..] == Frames(buf'[n..] + Content(rest));
        assert seen ==> rest == [];
        AheadIs(json, buf'[n..], rest, seen, m - 1);
      }
    }
  }

  lemma NoReads(script: Script, have: nat, frames: seq<bytes>)
    ensures Reads(script, TurnOf(have, script, frames, 0)) == []
  {
  }

  /** The leading frame is the first one, or leads what is behind the first one. */
  lemma LeadIsSomewhere(json: Json, frames: seq<bytes>, m: nat)
    requires LeadsAt(json, frames, m)
    ensures frames != [] && m < |frames|
    ensures FrameVerdict(json, frames[0]) != Open <==> m == 0
    ensures m > 0 ==> LeadsAt(json, frames[1..], m - 1)
  {
    hide FrameVerdict;
    assert forall i :: 0 <= i < |frames| - 1 ==> frames[1..][i] == frames[i + 1];
  }

  /** Index of the leading frame, or the number of frames if there is none. */
  function LeadIndex(json: Json, frames: seq<bytes>): (m: nat)
    ensures m <= |frames|
  {
    if frames == [] || FrameVerdict(json, frames[0]) != Open then 0 else 1 + LeadIndex(json, frames[1..])
  }

  lemma {:induction false} LeadIndexIs(json: Json, frames: seq<bytes>)
    requires Lead(json, frames) != Open
    ensures LeadsAt(json, frames, LeadIndex(json, frames))
  {
    hide FrameVerdict;
    if FrameVerdict(json, frames[0]) == Open {
      LeadIndexIs(json, frames[1..]);
      assert forall i :: 0 < i < |frames| ==> frames[i] == frames[1..][i - 1];
    }
  }

  /** The number of reads made of an attempt when its leading frame is examined. */
  function VerdictReads(json: Json, script: Script): nat
  {
    var frames := Frames(Content(script));
    var m := LeadIndex(json, frames);
    TurnOf(0, script, frames, if m < |frames| then m + 1 else m)
  }

  /** What is held of an attempt at its verdict are the bytes of that many reads. */
  lemma HeldIs(json: Json, script: Script)
    requires ErrorFree(script) && Decide(json, Content(script)) != Open
    ensures Held(json, script) == Reads(script, VerdictReads(json, script))
  {
    hide Frames, Content, ReadAhead, TurnOf, ErrorFree, Reads, Lead, LeadsAt, LeadIndex;
    var frames := Frames(Content(script));
    assert Lead(json, frames) != Open;
    LeadIndexIs(json, frames);
    assert [] + Content(script) == Content(script);
    LeadIsSomewhere(json, frames, LeadIndex(json, frames));
    AheadIs(json, [], script, false, LeadIndex(json, frames));
  }

  function ScriptAt(first: Script, attempts: seq<Attempt>, k: nat): Script
    requires k <= |attempts| && forall i :: 0 <= i < k ==> attempts[i].Body?
  {
    if k == 0 then first else attempts[k - 1].script
  }

  /**
    * The exact condition for losing nothing, for attempts without read errors: the attempt a run ends with is delivered in full
    * if and only if its retry is not refused, or the reads up to its verdict happen to give all its bytes.
    */
  lemma DeliveredInFullIff(json: Json, first: Script, afterClose: Ending, attempts: seq<Attempt>, left: nat)
    requires ErrorFree(ScriptAt(first, attempts, SettlesAt(json, Content(first), attempts, left)))
    ensures var k := SettlesAt(json, Content(first), attempts, left);
            var script := ScriptAt(first, attempts, k);
            Delivered(Run(json, OfferOf(json, first, afterClose), attempts, left)) == Content(script) <==>
            || !RefusedAt(json, Content(first), attempts, left, k)
            || |Reads(script, VerdictReads(json, script))| == |Content(script)|
  {
    hide Decide, Content, Held, SettlesAt, Reads, VerdictReads, ErrorFree, Run;
    var k := SettlesAt(json, Content(first), attempts, left);
    var script := ScriptAt(first, attempts, k);
    var offer := OfferOf(json, first, afterClose);
    RunMeaning(json, offer, attempts, left);
    assert Stream(Content(first), attempts, k) == Content(script);
    assert OfferAt(json, offer, attempts, k).held == Held(json, script);
    if RefusedAt(json, Content(first), attempts, left, k) {
      assert Decide(json, Stream(Content(first), attempts, k)) == Retryable;
      HeldIs(json, script);
      ReadsBegin(script, VerdictReads(json, script));
    }
  }

  /** An error frame that comes in one piece, and more behind it: only the frame is held. */
  lemma HeldAtOnce(json: Json, frame: bytes, more: bytes)
    requires IsFrame(frame) && |frame| <= READ_SIZE && FrameVerdict(json, frame) == Retryable
    ensures Held(json, [Chunk(frame, Nil), Chunk(more, EOF)]) == frame
  {
    hide FrameVerdict, FrameLen, ReadAhead, ExamineNext;
    var script := [Chunk(frame, Nil), Chunk(more, EOF)];
    assert Serve(script, READ_SIZE) == Served(frame, Nil, script[1..]);
    ReadOnce(json, [], [], script);
    ExamineOnce(json, frame, script[1..], false);
    assert [] + frame == frame && frame[..|frame|] == frame && frame + [] == frame;
    assert [] + ReadAhead(json, [], script, false) == ReadAhead(json, [], script, false);
  }

  lemma RestIsLost(json: Json, frame: bytes, more: bytes, ending: Ending)
    requires IsFrame(frame) && |frame| <= READ_SIZE && FrameVerdict(json, frame) == Retryable
    ensures var script := [Chunk(frame, Nil), Chunk(more, EOF)];
            && Content(script) == frame + more
            && Run(json, OfferOf(json, script, ending), [Refused], MAX_RETRIES) == Cut(Offer(frame + more, frame, ending))
  {
    HeldAtOnce(json, frame, more);
    FramesCons(frame, more);
    hide FrameVerdict, FrameLen, Held, Frames;
    var script := [Chunk(frame, Nil), Chunk(more, EOF)];
    assert script[1..] == [Chunk(more, EOF)];
    assert Content(script[1..]) == more;
    assert Lead(json, [frame] + Frames(more)) == Retryable;
  }

  /** An error payload as an upstream sends it, a view that finds the code in it and nothing anywhere else, and its frame. */
  const ERROR_PAYLOAD := Ascii("{\"error\":{\"code\":\"stream_read_error\"}}")
  const FAILING := Json((payload, path) => if payload == ERROR_PAYLOAD && path == ERROR_CODE then STREAM_READ_ERROR else [],
                        text => text)
  const ERROR_FRAME := DATA_FIELD + ERROR_PAYLOAD + [LF, LF]

  /** A concrete run that loses data: the error frame arrives, the retry is refused, and the byte behind it is not delivered. */
  lemma ByteLost()
    ensures var script := [Chunk(ERROR_FRAME, Nil), Chunk(Ascii("x"), EOF)];
            var o := Run(FAILING, OfferOf(FAILING, script, EOF), [Refused], MAX_RETRIES);
            Delivered(o) == ERROR_FRAME && Content(script) == ERROR_FRAME + Ascii("x")
  {
    ErrorPayload();
    hide TrimSpace;
    DataFrame(ERROR_PAYLOAD);
    ErrorFrameIsFrame();
    assert FrameVerdict(FAILING, ERROR_FRAME) == Retryable by {
      hide EventOf, TrimSpace;
    }
    RestIsLost(FAILING, ERROR_FRAME, Ascii("x"), EOF);
  }

  lemma ErrorPayload()
    ensures OneLine(ERROR_PAYLOAD) && TrimSpace(ERROR_PAYLOAD) == ERROR_PAYLOAD && ERROR_PAYLOAD != [] && ERROR_PAYLOAD != DONE
  {
    var v := ERROR_PAYLOAD;
    assert Word(v);
    TrimSpaceBehind(v, []);
    assert v + [] == v && |DONE| != |v|;
  }

  lemma ErrorFrameIsFrame()
    ensures IsFrame(ERROR_FRAME) && |ERROR_FRAME| <= READ_SIZE
  {
    var line := DATA_FIELD + ERROR_PAYLOAD;
    ErrorPayload();
    assert OneLine(line);
    OneLineIsUnbroken(line);
    FrameLenPeel(line, [LF]);
    assert line + [LF] + [LF] == ERROR_FRAME && [LF][..1] == [LF];
    hide FrameLen, Unbroken;
  }
}

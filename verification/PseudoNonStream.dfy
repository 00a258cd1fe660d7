/** Buffering a whole response for an audit, with retries while the audit rejects it. */
module PseudoNonStream {
  import opened Bytes
  import opened Framing
  import opened SSEEvent
  import opened UpstreamReader
  import opened RetryPolicy
  import opened Aggregator

  // ---- The text an audit looks at ----------------------------------------------------------

  /** The text one frame contributes; `textOf` reads it out of a payload. */
  function FrameText(textOf: bytes -> bytes, frame: bytes): bytes
  {
    var e := EventOf(frame);
    if e.done || |e.payload| == 0 then [] else textOf(e.payload)
  }

  function FrameTexts(textOf: bytes -> bytes, frames: seq<bytes>): seq<bytes>
  {
    if frames == [] then []
    else FrameTexts(textOf, frames[..|frames| - 1]) + [FrameText(textOf, frames[|frames| - 1])]
  }

  /** The text of a stream: that of its complete frames in front of `[DONE]`, in order. */
  function StreamText(textOf: bytes -> bytes, stream: bytes): bytes
  {
    Concat(FrameTexts(textOf, Front(stream)))
  }

  lemma FrontFrom(front: seq<bytes>, rest: bytes)
    requires forall i :: 0 <= i < |front| ==> IsFrame(front[i])
    requires NoneDone(front)
    requires FrameLen(rest) == 0 || EventOf(rest[..FrameLen(rest)]).done
    ensures Front(Concat(front) + rest) == front
  {
    hide EventOf, FrameLen, IsFrame, Concat, BeforeDone;
    FramesConcat(front, rest);
    BeforeDoneIs(front, Frames(rest));
  }

  /** extractTextFromSSE: one pass over the buffered frames. */
  method ExtractText(textOf: bytes -> bytes, data: bytes) returns (text: bytes)
    ensures text == StreamText(textOf, data)
  {
    hide EventOf, FrameLen, IsFrame, Concat, Front, FindSSEDelimiter, NoneDone, FrameText;
    text := [];
    var remaining := data;
    ghost var front: seq<bytes> := [];
    NothingTaken(textOf);
    while |remaining| > 0
      invariant forall i :: 0 <= i < |front| ==> IsFrame(front[i])
      invariant NoneDone(front) && data == Concat(front) + remaining
      invariant text == Concat(FrameTexts(textOf, front))
    {
      DelimiterGivesFrameLen(remaining);
      var delimiter := FindSSEDelimiter(remaining);
      if delimiter.Missing? {
        FrontFrom(front, remaining);
        return;
      }
      var cut := delimiter.idx + delimiter.len;
      FirstFrameIsFrame(remaining);
      var event := remaining[..cut];
      var e := ParseSSEEvent(event);
      if e.done {
        FrontFrom(front, remaining);
        return;
      }
      TakeOne(textOf, front, event);
      CutFrame(Concat(front), remaining, cut);
      ConcatSnoc(front, event);
      remaining := remaining[cut..];
      front := front + [event];
      if |e.payload| > 0 {
        text := text + textOf(e.payload);
      }
    }
    NoFrameInNothing();
    FrontFrom(front, remaining);
  }

  lemma NothingTaken(textOf: bytes -> bytes)
    ensures FrameTexts(textOf, []) == [] && Concat([]) == [] && NoneDone([])
  {
  }

  lemma TakeOne(textOf: bytes -> bytes, front: seq<bytes>, frame: bytes)
    requires NoneDone(front) && !EventOf(frame).done
    ensures NoneDone(front + [frame])
    ensures Concat(FrameTexts(textOf, front + [frame])) ==
            var e := EventOf(frame);
            if |e.payload| > 0 then Concat(FrameTexts(textOf, front)) + textOf(e.payload) else Concat(FrameTexts(textOf, front))
  {
    hide EventOf, Concat;
    assert (front + [frame])[..|front|] == front;
    ConcatSnoc(FrameTexts(textOf, front), FrameText(textOf, frame));
    var all := Concat(FrameTexts(textOf, front));
    assert all + [] == all;
  }

  // ---- Audited buffering -------------------------------------------------------------------

  const AUDIT_RETRIES: nat := 2

  /** The response an audited run hands to the client: the first one approved, or the last one obtained. */
  function Audited(approved: bytes -> bool, stream: bytes, attempts: seq<Attempt>, left: nat): bytes
    decreases left
  {
    if approved(stream) || left == 0 || attempts == [] || attempts[0].Refused? then stream
    else Audited(approved, Content(attempts[0].script), attempts[1..], left - 1)
  }

  /** Index of the attempt an audited run settles for. */
  function Settled(approved: bytes -> bool, stream: bytes, attempts: seq<Attempt>, left: nat): (k: nat)
    ensures k <= left && k <= |attempts| && forall i :: 0 <= i < k ==> attempts[i].Body?
    decreases left
  {
    if approved(stream) || left == 0 || attempts == [] || attempts[0].Refused? then 0
    else 1 + Settled(approved, Content(attempts[0].script), attempts[1..], left - 1)
  }

  /** No read of the attempts a run uses can fail. */
  predicate CleanAudit(approved: bytes -> bool, stream: bytes, attempts: seq<Attempt>, left: nat)
  {
    forall i :: 0 <= i < Settled(approved, stream, attempts, left) ==> ErrorFree(attempts[i].script)
  }

  lemma CleanAuditStep(approved: bytes -> bool, stream: bytes, attempts: seq<Attempt>, left: nat)
    requires !approved(stream) && left > 0 && attempts != [] && attempts[0].Body? && CleanAudit(approved, stream, attempts, left)
    ensures ErrorFree(attempts[0].script) && CleanAudit(approved, Content(attempts[0].script), attempts[1..], left - 1)
  {
    hide Content, ErrorFree;
    var k := Settled(approved, Content(attempts[0].script), attempts[1..], left - 1);
    assert Settled(approved, stream, attempts, left) == k + 1;
    assert forall i :: 0 <= i < k ==> attempts[1..][i] == attempts[i + 1];
  }

  /** It is the whole stream of one attempt; every earlier one was rejected, and it is approved unless no further one
      was to be had. */
  lemma {:induction false} AuditedMeaning(approved: bytes -> bool, stream: bytes, attempts: seq<Attempt>, left: nat)
    ensures var k := Settled(approved, stream, attempts, left);
            && Audited(approved, stream, attempts, left) == Stream(stream, attempts, k)
            && (forall i :: 0 <= i < k ==> !approved(Stream(stream, attempts, i)))
            && (approved(Stream(stream, attempts, k)) || k == left || k == |attempts| || attempts[k].Refused?)
    decreases left
  {
    hide Content;
    if !(approved(stream) || left == 0 || attempts == [] || attempts[0].Refused?) {
      var next := Content(attempts[0].script);
      var k := 1 + Settled(approved, next, attempts[1..], left - 1);
      AuditedMeaning(approved, next, attempts[1..], left - 1);
      forall i | 0 < i <= k
        ensures Stream(stream, attempts, i) == Stream(next, attempts[1..], i - 1)
      {
      }
    }
  }

  /** Two rejected responses are replaced; the third is handed on whatever the audit would say. */
  lemma ThirdResponse(approved: bytes -> bool, first: bytes, second: Attempt, third: Attempt, more: seq<Attempt>)
    requires second.Body? && third.Body? && !approved(first) && !approved(Content(second.script))
    ensures Audited(approved, first, [second, third] + more, AUDIT_RETRIES) == Content(third.script)
  {
    hide Content;
    assert ([second, third] + more)[1..] == [third] + more;
    assert Audited(approved, first, [second, third] + more, 2) == Audited(approved, Content(second.script), [third] + more, 1);
    assert ([third] + more)[1..] == more;
  }

  /** An approved response is handed on at once, and a rejected one too if no other can be had. */
  lemma FirstResponse(approved: bytes -> bool, first: bytes, more: seq<Attempt>)
    requires approved(first) || more == [] || more[0].Refused?
    ensures Audited(approved, first, more, AUDIT_RETRIES) == first
  {
  }

  /** io.Copy into the buffer. */
  method BufferAll(r: Upstream) returns (data: bytes, failed: bool)
    requires !r.closed && r.yielded == []
    modifies r
    ensures !failed ==> data == old(r.Total())
    ensures old(ErrorFree(r.script)) ==> !failed
    ensures !r.closed
  {
    hide *;
    data, failed := [], false;
    while true
      invariant !r.closed && r.yielded == data && r.Total() == old(r.Total())
      invariant old(ErrorFree(r.script)) ==> ErrorFree(r.script)
      decreases Work(r.script)
    {
      var got, err := r.ReadSome(0x8000);
      data := data + got;
      if err == EOF {
        AtEnd(r);
        return;
      }
      if err == Failed {
        return data, true;
      }
    }
  }

  lemma AtEnd(r: Upstream)
    requires r.script == []
    ensures r.Total() == r.yielded
  {
  }

  datatype Buffered = Buffered(data: bytes) | ReadFailed

  /** bufferUpstream, with the retry function's answers in order; `canRetry` says whether there is a retry function. */
  method BufferUpstream(approved: bytes -> bool, upstream: Upstream, retries: seq<Attempt>, canRetry: bool) returns (r: Buffered)
    requires !upstream.closed && upstream.yielded == []
    modifies upstream
    ensures r.Buffered? ==>
              r.data == Audited(approved, old(upstream.Total()), if canRetry then retries else [], AUDIT_RETRIES)
    ensures old(ErrorFree(upstream.script))
            && CleanAudit(approved, old(upstream.Total()), if canRetry then retries else [], AUDIT_RETRIES)
            ==> r.Buffered?
  {
    hide Content, Work, ErrorFree, Upstream.Total, CleanAudit;
    var body, answers := upstream, if canRetry then retries else [];
    ghost var clean := ErrorFree(upstream.script) && CleanAudit(approved, upstream.Total(), answers, AUDIT_RETRIES);
    var attempt := 0;
    while true
      invariant 0 <= attempt <= AUDIT_RETRIES
      invariant body == upstream || fresh(body)
      invariant !body.closed && body.yielded == []
      invariant Audited(approved, body.Total(), answers, AUDIT_RETRIES - attempt)
                == Audited(approved, old(upstream.Total()), if canRetry then retries else [], AUDIT_RETRIES)
      invariant !canRetry ==> answers == []
      invariant clean ==> ErrorFree(body.script) && CleanAudit(approved, body.Total(), answers, AUDIT_RETRIES - attempt)
      decreases AUDIT_RETRIES - attempt
    {
      var buf, failed := BufferAll(body);
      if failed {
        return ReadFailed;
      }
      if approved(buf) {
        return Buffered(buf);
      }
      if attempt < AUDIT_RETRIES && canRetry {
        body.Close();
        if answers == [] || answers[0].Refused? {
          return Buffered(buf);
        }
        if clean {
          CleanAuditStep(approved, buf, answers, AUDIT_RETRIES - attempt);
        }
        body := new Upstream(answers[0].script, answers[0].afterClose);
        body.TotalAtStart();
        answers := answers[1..];
        attempt := attempt + 1;
        continue;
      }
      return Buffered(buf);
    }
  }
}

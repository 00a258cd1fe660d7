/** Which events make the retry wrapper abandon an attempt, in terms of the fields an upstream sends. */
module RetryPatterns {
  import opened Bytes
  import opened Framing
  import opened SSEEvent
  import opened UpstreamReader
  import opened RetryPolicy
  import opened EventText

  /** `part` stands somewhere in `text`. */
  ghost predicate Mentions(text: bytes, part: bytes)
  {
    exists before: bytes, after: bytes :: before + part + after == text
  }

  lemma ContainsIs(text: bytes, part: bytes)
    ensures Contains(text, part) <==> Mentions(text, part)
  {
    hide Index;
    if Mentions(text, part) {
      var before: bytes, after: bytes :| before + part + after == text;
      assert text[|before|..|before| + |part|] == part;
      assert OccursAt(text, part, |before|);
    }
    if Contains(text, part) {
      var i := Index(text, part);
      assert text[..i] + part + text[i + |part|..] == text;
    }
  }

  /** An error event that reports the provider's concurrency limit. */
  ghost predicate ConcurrencyLimit(json: Json, e: Event)
  {
    && e.name == Ascii("error") && e.payload != []
    && json.get(e.payload, Ascii("error.type")) == Ascii("rate_limit_error")
    && Mentions(json.lower(json.get(e.payload, Ascii("error.message"))), Ascii("concurrency limit exceeded"))
  }

  /** An error event that reports a broken read, by its code or in its message. */
  ghost predicate StreamReadError(json: Json, e: Event)
  {
    var typ := json.lower(json.get(e.payload, Ascii("type")));
    && e.payload != []
    && (|| json.lower(json.get(e.payload, Ascii("error.code"))) == Ascii("stream_read_error")
        || Mentions(json.lower(json.get(e.payload, Ascii("error.message"))), Ascii("stream_read_error")))
    && (typ == [] || typ == Ascii("error") || e.name == Ascii("error"))
  }

  /** An event of the Responses prelude, by its payload's type or, without one, by its name. */
  ghost predicate Prelude(json: Json, e: Event)
  {
    var typ := json.lower(json.get(e.payload, Ascii("type")));
    var what := if typ == [] then json.lower(e.name) else typ;
    e.payload != [] && what in {Ascii("response.created"), Ascii("response.in_progress"),
                                Ascii("response.output_item.added"), Ascii("response.output_item.done"),
                                Ascii("response.content_part.added"), Ascii("response.content_part.done")}
  }

  /** An attempt is abandoned because of a frame exactly if that reports one of the two errors. */
  lemma RetryableIff(json: Json, frame: bytes)
    ensures FrameVerdict(json, frame) == Retryable <==>
            ConcurrencyLimit(json, EventOf(frame)) || StreamReadError(json, EventOf(frame))
  {
    hide EventOf, Contains, Ascii, Mentions;
    var e := EventOf(frame);
    var message := json.lower(json.get(e.payload, Ascii("error.message")));
    ContainsIs(message, Ascii("concurrency limit exceeded"));
    ContainsIs(message, Ascii("stream_read_error"));
    DoneHasNoPayload(frame);
  }

  lemma DoneHasNoPayload(frame: bytes)
    ensures EventOf(frame).done ==> EventOf(frame).payload == []
  {
    hide Split, LastName, DataValues, Join;
  }

  /** Otherwise the verdict stays open exactly for comments and for the prelude. */
  lemma OpenIff(json: Json, frame: bytes)
    ensures var e := EventOf(frame);
            FrameVerdict(json, frame) == Open <==>
            || (e.payload == [] && !e.done)
            || (Prelude(json, e) && !ConcurrencyLimit(json, e) && !StreamReadError(json, e))
  {
    RetryableIff(json, frame);
    hide EventOf, Contains, Ascii, Mentions, IsRetryableErrorPayload, ConcurrencyLimit, StreamReadError;
    DoneHasNoPayload(frame);
  }

  // ---- Runs that are saved by a retry ---------------------------------------------------------

  /** An attempt whose first frame reports an error is replaced by the next one, if that can be had and is acceptable. */
  lemma NextAttemptDelivered(json: Json, frame: bytes, more: bytes, first: Offer, attempts: seq<Attempt>)
    requires IsFrame(frame) && first.stream == frame + more
    requires ConcurrencyLimit(json, EventOf(frame)) || StreamReadError(json, EventOf(frame))
    requires attempts != [] && attempts[0].Body? && Decide(json, Content(attempts[0].script)) != Retryable
    ensures Run(json, first, attempts, MAX_RETRIES) == Whole(Content(attempts[0].script))
  {
    RetryableIff(json, frame);
    FramesCons(frame, more);
    hide EventOf, FrameVerdict, ConcurrencyLimit, StreamReadError, Content, Frames, Held, FrameLen;
    assert Lead(json, [frame] + Frames(more)) == Retryable;
    assert Decide(json, first.stream) == Retryable;
    hide Decide;
    var next := OfferOf(json, attempts[0].script, attempts[0].afterClose);
    assert Run(json, first, attempts, 3) == Run(json, next, attempts[1..], 2);
  }

  /** The error is forwarded only when three retries have met it too. */
  lemma FourthAttemptDelivered(json: Json, first: Offer, a: Attempt, b: Attempt, c: Attempt)
    requires a.Body? && b.Body? && c.Body?
    requires Decide(json, first.stream) == Retryable && Decide(json, Content(a.script)) == Retryable
    requires Decide(json, Content(b.script)) == Retryable
    ensures Run(json, first, [a, b, c], MAX_RETRIES) == Whole(Content(c.script))
  {
    hide Decide, Content, Held;
    var oa, ob, oc := OfferOf(json, a.script, a.afterClose), OfferOf(json, b.script, b.afterClose), OfferOf(json, c.script, c.afterClose);
    assert [a, b, c][1..] == [b, c] && [b, c][1..] == [c];
    assert Run(json, first, [a, b, c], 3) == Run(json, oa, [b, c], 2);
    assert Run(json, oa, [b, c], 2) == Run(json, ob, [c], 1);
    assert Run(json, ob, [c], 1) == Run(json, oc, [c][1..], 0);
  }

  // ---- A concrete run ------------------------------------------------------------------------

  const LIMIT_PAYLOAD :=
    Ascii("{\"error\":{\"type\":") + Ascii("\"rate_limit_error\",")
    + Ascii("\"message\":\"Concurrency ") + Ascii("limit exceeded\"}}")

  /** What a JSON reader finds in that payload. */
  const LIMIT_VIEW :=
    Json((payload, path) =>
           if payload != LIMIT_PAYLOAD then []
           else if path == Ascii("error.type") then Ascii("rate_limit_error")
           else if path == Ascii("error.message") then Ascii("Concurrency limit exceeded")
           else [],
         LowerAscii)

  lemma PathsDiffer()
    ensures Ascii("error.type") != Ascii("error.message")
  {
    assert |Ascii("error.type")| != |Ascii("error.message")|;
  }

  lemma LimitIsConcurrencyLimit(e: Event)
    requires e.name == Ascii("error") && e.payload == LIMIT_PAYLOAD
    ensures ConcurrencyLimit(LIMIT_VIEW, e)
  {
    PathsDiffer();
    LimitMessage();
    assert |LIMIT_PAYLOAD| > 0;
    hide Ascii, Mentions, LowerAscii;
  }

  lemma LimitMessage()
    ensures Mentions(LowerAscii(Ascii("Concurrency limit exceeded")), Ascii("concurrency limit exceeded"))
  {
    var text, part := LowerAscii(Ascii("Concurrency limit exceeded")), Ascii("concurrency limit exceeded");
    assert text == part;
    assert [] + part + [] == text;
  }

  lemma LimitPayloadCarried()
    ensures Carried(LIMIT_PAYLOAD) && LIMIT_PAYLOAD != Ascii("[DONE]")
  {
    var v := LIMIT_PAYLOAD;
    var start, end := Ascii("{\"error\":{\"type\":"), Ascii("limit exceeded\"}}");
    AsciiOneLine("{\"error\":{\"type\":");
    AsciiOneLine("\"rate_limit_error\",");
    AsciiOneLine("\"message\":\"Concurrency ");
    AsciiOneLine("limit exceeded\"}}");
    assert start[0] == 123 && end[|end| - 1] == 125;
    assert v[0] == start[0] && v[|v| - 1] == end[|end| - 1];
    TrimSpaceBetween(v);
    assert |v| != |Ascii("[DONE]")|;
    hide TrimSpace, Ascii;
  }

  lemma ErrorCarried()
    ensures Carried(Ascii("error"))
  {
    var v := Ascii("error");
    AsciiOneLine("error");
    assert v[0] == 101 && v[|v| - 1] == 114;
    TrimSpaceBetween(v);
    hide TrimSpace;
  }

  /** The provider refuses the first attempt for its concurrency limit; the client gets the second one, and none of the error. */
  lemma LimitRetried(ending: Ending, second: Script, afterClose: Ending)
    requires Decide(LIMIT_VIEW, Content(second)) != Retryable
    ensures var error := Write(Ascii("error"), [LIMIT_PAYLOAD]);
            Run(LIMIT_VIEW, OfferOf(LIMIT_VIEW, [Chunk(error, EOF)], ending), [Body(second, afterClose)], MAX_RETRIES)
            == Whole(Content(second))
  {
    var error := Write(Ascii("error"), [LIMIT_PAYLOAD]);
    LimitPayloadCarried();
    ErrorCarried();
    WrittenIsRead(Ascii("error"), [LIMIT_PAYLOAD]);
    WrittenIsFrame(Ascii("error"), [LIMIT_PAYLOAD]);
    JoinOne(LIMIT_PAYLOAD);
    LimitIsConcurrencyLimit(EventOf(error));
    hide Write, EventOf, IsFrame, Decide, Ascii, Run, Held, Carried, ConcurrencyLimit, StreamReadError;
    assert error + [] == error;
    assert Content([Chunk(error, EOF)]) == error;
    NextAttemptDelivered(LIMIT_VIEW, error, [], OfferOf(LIMIT_VIEW, [Chunk(error, EOF)], ending), [Body(second, afterClose)]);
  }
}

/** The readers stacked as the channel router stacks them: retry wrapper, frame rewriter, token extractor. */
module Pipeline {
  import opened Bytes
  import opened Framing
  import opened UpstreamReader
  import opened RetryPolicy
  import RetryWrapper
  import opened Transform
  import opened Usage
  import opened TokenExtractor

  /**
    * A reader meets the results of the reads it makes of the one below, 8 KiB at a time.  Without read errors, and unless a
    * refused retry ends in one, the client gets the rewriting of exactly one attempt, frame by frame, or of what was held of
    * the attempt whose retry was refused, and the trace is a fold over the bytes the client gets.
    */
  method StreamToClient(json: Json, script: Script, afterClose: Ending, attempts: seq<Attempt>, transform: Payload,
                        provider: Provider, trace: RequestTrace, sizes: nat -> nat)
    returns (body: bytes, out: bytes, err: Signal, usage: TokenUsage)
    modifies trace
    ensures err != Nil && usage == trace.usage == BookAll(provider, old(trace.usage), Events(out)).trace
    ensures body <= Delivered(Run(json, OfferOf(json, script, afterClose), attempts, MAX_RETRIES))
    ensures var goal := Run(json, OfferOf(json, script, afterClose), attempts, MAX_RETRIES);
            ErrorFree(script) && CleanRun(json, Content(script), attempts, MAX_RETRIES) && FinalSignal(goal) == EOF ==>
              && err == EOF && body == Delivered(goal) && out == Rewrite(transform, body)
              && (SafeImages(transform) ==>
                    && Frames(out) == TransformFrames(transform, Frames(Delivered(goal)))
                    && Residual(out) == RewriteRest(transform, Residual(Delivered(goal))))
  {
    hide *;
    var received, err1, pieces1 := RetryWrapper.ReadThrough(json, script, afterClose, attempts, i => 0x1fff);
    RecordMeans(pieces1, received, err1);
    var rewritten, err2, pieces2 := Transform.ReadThrough(transform, pieces1, EOF, i => 0x1fff);
    RecordMeans(pieces2, rewritten, err2);
    out, err, usage := ForwardAndClose(pieces2, EOF, provider, trace, sizes);
    body := received;
    if SafeImages(transform) {
      FramingPreserved(transform, body);
      FramingIs(transform, body);
    }
  }

  lemma FramingIs(transform: Payload, stream: bytes)
    requires FramingKept(transform, stream)
    ensures Frames(Rewrite(transform, stream)) == TransformFrames(transform, Frames(stream))
    ensures Residual(Rewrite(transform, stream)) == RewriteRest(transform, Residual(stream))
  {
  }
}

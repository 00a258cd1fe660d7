/** The stream wrapper that retries an attempt transparently while its prelude ends in a retryable error. */
module RetryWrapper {
  import opened Arithmetic
  import opened Bytes
  import opened Framing
  import opened SSEEvent
  import opened UpstreamReader
  import opened RetryPolicy

  /** Base waits slept over the first `n` retries: 1 + 2 + ... + n. */
  function Waits(n: nat): nat
  {
    if n == 0 then 0 else n + Waits(n - 1)
  }

  lemma VerdictOfEvent(json: Json, frame: bytes)
    ensures var e := EventOf(frame);
            FrameVerdict(json, frame) ==
            if |e.payload| == 0 && !e.done then Open
            else if IsRetryableErrorPayload(json, e.name, e.payload) then Retryable
            else if IsRetryPreludeFrame(json, e.name, e.payload) then Open
            else Substantive
  {
  }

  lemma NextWait(n: nat)
    ensures Waits(n + 1) == Waits(n) + n + 1
  {
  }

  lemma RunStep(json: Json, offer: Offer, attempts: seq<Attempt>, left: nat)
    requires left > 0 && Decide(json, offer.stream) == Retryable
    ensures Run(json, offer, attempts, left) ==
            if attempts == [] || attempts[0].Refused? then Cut(offer)
            else Run(json, OfferOf(json, attempts[0].script, attempts[0].afterClose), attempts[1..], left - 1)
  {
    hide Decide, OfferOf;
  }

  lemma CleanRunStep(json: Json, stream: bytes, attempts: seq<Attempt>, left: nat)
    requires left > 0 && Decide(json, stream) == Retryable && attempts != [] && attempts[0].Body?
    requires CleanRun(json, stream, attempts, left)
    ensures ErrorFree(attempts[0].script) && CleanRun(json, Content(attempts[0].script), attempts[1..], left - 1)
  {
    hide Decide, Content, ErrorFree;
    var k := SettlesAt(json, Content(attempts[0].script), attempts[1..], left - 1);
    assert SettlesAt(json, stream, attempts, left) == k + 1;
    assert forall i :: 0 <= i < k ==> attempts[1..][i] == attempts[i + 1];
  }

  lemma NothingSkipped(json: Json)
    ensures Lead(json, []) == Open && Concat([]) == []
  {
  }

  class SSEConcurrencyRetryWrapper {
    const json: Json
    var upstream: Upstream
    var attempts: seq<Attempt>  // what the coming calls of the retry function give
    var buf: bytes              // read from the upstream, not yet examined
    var staged: bytes           // prelude frames held back until the verdict
    var pending: bytes          // decided, waiting for the caller
    var started: bool
    var exhausted: bool
    var retries: nat

    ghost var delivered: bytes      // everything returned to the caller
    ghost var skipped: seq<bytes>   // the frames in `staged`
    ghost var refused: bool         // the last retry failed
    ghost var retryCalls: nat
    ghost var baseWaits: nat
    ghost var examining: bool       // this turn's read has been made, its frame is not examined yet
    ghost var goal: Outcome         // what the whole run is to deliver; never changes

    /** Before forwarding: nothing is delivered, and all that the current attempt yielded is held. */
    ghost predicate Holding()
      reads this, upstream
    {
      && delivered == [] && pending == [] && !refused
      && upstream.yielded == staged + buf
      && staged == Concat(skipped)
      && (forall i :: 0 <= i < |skipped| ==> IsFrame(skipped[i]))
      && Lead(json, skipped) == Open
      && retries <= MAX_RETRIES
      && goal == Run(json, CurrentOffer(), attempts, MAX_RETRIES - retries)
    }

    /** What the current attempt has to offer, counting what will have been read of it at its verdict. */
    ghost function CurrentOffer(): Offer
      reads `upstream, `buf, `exhausted, `examining, upstream`yielded, upstream`script
    {
      Offer(upstream.Total(),
            upstream.yielded + if examining then ExamineNext(json, buf, upstream.script, exhausted)
                               else ReadAhead(json, buf, upstream.script, exhausted),
            upstream.afterClose)
    }

    /** While forwarding: the caller gets what one single attempt yielded, in order. */
    ghost predicate Forwarding()
      reads this, upstream
    {
      && staged == [] && !examining
      && upstream.yielded == delivered + pending + buf
      && goal == (if refused then Cut(Offer(upstream.Total(), upstream.yielded, upstream.afterClose))
                  else Whole(upstream.Total()))
      && (refused ==> buf == [] && Decide(json, upstream.yielded) == Retryable)
    }

    ghost predicate Valid()
      reads this, upstream
    {
      && (if started then Forwarding() else Holding())
      && upstream.closed == refused
      && (exhausted ==> if refused then upstream.afterClose == EOF else upstream.script == [])
      && retries <= MAX_RETRIES + 1
      && retryCalls == Min(retries, MAX_RETRIES)
      && baseWaits == Waits(retryCalls)
    }

    /** No read error can be met any more. */
    ghost predicate Clean()
      reads this, upstream
    {
      && ErrorFree(upstream.script)
      && (!started ==> CleanRun(json, upstream.Total(), attempts, MAX_RETRIES - Min(retries, MAX_RETRIES)))
    }

    constructor (json: Json, upstream: Upstream, attempts: seq<Attempt>)
      requires !upstream.closed && upstream.yielded == []
      ensures Valid() && !examining && !started && this.json == json && this.upstream == upstream && this.attempts == attempts
      ensures delivered == [] && retries == 0
      ensures goal == Run(json, OfferOf(json, upstream.script, upstream.afterClose), attempts, MAX_RETRIES)
    {
      hide Run, Decide, Lead, IsFrame, Content, Concat, ReadAhead, ExamineNext;
      NothingSkipped(json);
      this.json, this.upstream, this.attempts := json, upstream, attempts;
      buf, staged, pending := [], [], [];
      started, exhausted, retries := false, false, 0;
      delivered, skipped, refused, retryCalls, baseWaits, examining := [], [], false, 0, 0, false;
      goal := Run(json, OfferOf(json, upstream.script, upstream.afterClose), attempts, MAX_RETRIES);
      new;
      FreshOffer();
    }

    lemma FreshOffer()
      requires upstream.yielded == [] && buf == [] && !exhausted && !examining
      ensures CurrentOffer() == OfferOf(json, upstream.script, upstream.afterClose)
    {
      hide ReadAhead, ExamineNext, Content;
      assert [] + Content(upstream.script) == Content(upstream.script);
      assert [] + ReadAhead(json, [], upstream.script, false) == ReadAhead(json, [], upstream.script, false);
    }

    /** The retry function: a fresh body, or null for an error. */
    method RetryFunc() returns (body: Upstream?)
      modifies this`attempts, this`retryCalls
      ensures retryCalls == old(retryCalls) + 1
      ensures if old(attempts) == [] || old(attempts)[0].Refused? then body == null
              else body != null && fresh(body) && !body.closed && body.yielded == []
                   && body.script == old(attempts)[0].script && body.afterClose == old(attempts)[0].afterClose
                   && attempts == old(attempts)[1..]
    {
      retryCalls := retryCalls + 1;
      if attempts == [] || attempts[0].Refused? {
        return null;
      }
      body := new Upstream(attempts[0].script, attempts[0].afterClose);
      attempts := attempts[1..];
    }

    /** Hands over as much of `pending` as fits. */
    method ServePending(p: array<byte>) returns (n: nat)
      requires Valid() && started
      modifies this`pending, this`delivered, p
      ensures Valid() && n <= p.Length && (|old(pending)| > 0 && p.Length > 0 ==> n > 0)
      ensures delivered == old(delivered) + p[..n]
      ensures old(Clean()) ==> Clean()
      ensures forall i :: n <= i < p.Length ==> p[i] == old(p[i])
    {
      hide Decide, Waits, Upstream.Total;
      n := Copy(p, pending);
      assert delivered + pending == (delivered + pending[..n]) + pending[n..];
      delivered := delivered + pending[..n];
      pending := pending[n..];
    }

    /** Hands over as much of `buf` as fits; nothing is pending. */
    method ServeBuf(p: array<byte>) returns (n: nat)
      requires Valid() && started && pending == []
      modifies this`buf, this`delivered, p
      ensures Valid() && n <= p.Length && (|old(buf)| > 0 && p.Length > 0 ==> n > 0)
      ensures delivered == old(delivered) + p[..n]
      ensures old(Clean()) ==> Clean()
      ensures forall i :: n <= i < p.Length ==> p[i] == old(p[i])
    {
      hide Decide, Waits, Upstream.Total;
      n := Copy(p, buf);
      assert delivered + pending + buf == (delivered + buf[..n]) + pending + buf[n..];
      delivered := delivered + buf[..n];
      buf := buf[n..];
    }

    /** One read of up to 8 KiB into `buf`. */
    method Fill() returns (err: Signal)
      requires Valid() && !examining && !exhausted && pending == []
      modifies this`buf, this`exhausted, this`examining, upstream
      ensures Valid() && examining == (!started && err != Failed)
      ensures exhausted == (err == EOF)
      ensures Work(upstream.script) <= old(Work(upstream.script))
      ensures !refused ==> err == EOF || Work(upstream.script) < old(Work(upstream.script))
      ensures refused ==> err == upstream.afterClose && buf == old(buf)
      ensures old(Clean()) ==> Clean() && (err == Failed ==> refused)
    {
      hide Run, Decide, Lead, IsFrame, Concat, ErrorFree, Waits, Content, Work, Upstream.Total, ReadAhead,
           ExamineNext, Serve, CleanRun;
      ghost var before := CurrentOffer();
      ReadOnce(json, upstream.yielded, buf, upstream.script);
      var got;
      got, err := upstream.ReadSome(0x2000);
      if started {
        Assoc(delivered + pending, buf, got);
        assert refused ==> got == [] && delivered + pending + got == delivered + pending;
      } else {
        Assoc(staged, buf, got);
      }
      buf := buf + got;
      exhausted := err == EOF;
      examining := !started && err != Failed;
      assert !started ==> CurrentOffer() == before;
    }

    /** Once the end has been seen a turn reads nothing. */
    ghost method BeginTurn()
      requires Valid() && !examining && exhausted && !started
      modifies this`examining
      ensures Valid() && examining
      ensures old(Clean()) ==> Clean()
    {
      hide Run, Decide, Lead, IsFrame, Concat, Waits, Content, Upstream.Total, ReadAhead, ExamineNext, ErrorFree, CleanRun;
      ExamineOnce(json, buf, upstream.script, exhausted);
      examining := true;
    }

    /** Without a complete frame the next turn reads on. */
    ghost method EndTurn()
      requires Valid() && examining && !started && !exhausted && FrameLen(buf) == 0
      modifies this`examining
      ensures Valid() && !examining
      ensures old(Clean()) ==> Clean()
    {
      hide Run, Decide, Lead, IsFrame, Concat, Waits, Content, Upstream.Total, ReadAhead, ExamineNext, ErrorFree, CleanRun;
      ExamineOnce(json, buf, upstream.script, exhausted);
      examining := false;
    }

    /** Sets a frame aside that leaves the verdict open. */
    method Stage(n: nat)
      requires Valid() && !started && examining && n > 0 && n == FrameLen(buf)
      requires FrameVerdict(json, buf[..n]) == Open
      modifies this`buf, this`staged, this`skipped, this`examining
      ensures Valid() && !examining && buf == old(buf)[n..]
      ensures old(Clean()) ==> Clean()
    {
      hide Run, Decide, Lead, FrameVerdict, IsFrame, FrameLen, Waits, Content, Upstream.Total, Concat, ReadAhead, ExamineNext,
           ErrorFree, CleanRun;
      ExamineOnce(json, buf, upstream.script, exhausted);
      ghost var frame, rest := buf[..n], buf[n..];
      FirstFrameIsFrame(buf);
      LeadSnoc(json, skipped, frame);
      assert buf == frame + rest;
      ConcatSnoc(skipped, frame);
      Assoc(staged, frame, rest);
      staged := staged + buf[..n];
      buf := buf[n..];
      examining := false;
      skipped := skipped + [frame];
    }

    /** From here on everything this attempt yields goes to the caller. */
    method StartForwarding()
      requires Valid() && !started && goal == Whole(upstream.Total())
      modifies this`started, this`staged, this`buf, this`pending, this`examining
      ensures Valid() && !examining && started && buf == [] && pending == old(staged + buf)
      ensures old(Clean()) ==> Clean()
    {
      hide Run, Decide, Lead, IsFrame, Waits, Content, Upstream.Total, Concat, ReadAhead, ExamineNext;
      started := true;
      examining := false;
      pending := pending + staged + buf;
      staged := [];
      buf := [];
      assert pending == old(staged + buf);
      assert delivered + pending + buf == pending;
    }

    lemma VerdictReached(n: nat)
      requires Valid() && !started && n > 0 && n == FrameLen(buf)
      requires FrameVerdict(json, buf[..n]) != Open
      ensures Decide(json, upstream.yielded) == FrameVerdict(json, buf[..n])
      ensures Decide(json, upstream.Total()) == FrameVerdict(json, buf[..n])
    {
      hide Decide, Lead, FrameVerdict, IsFrame, FrameLen, Waits, Content, Concat, Run, ReadAhead, ExamineNext;
      DecideAtFrame(json, skipped, buf);
      DecideStable(json, upstream.yielded, Content(upstream.script));
    }

    lemma NothingToRetry()
      requires Valid() && !started && exhausted && FrameLen(buf) == 0
      ensures goal == Whole(upstream.Total())
    {
      hide Decide, Lead, FrameVerdict, IsFrame, FrameLen, Waits, Concat, ReadAhead, ExamineNext;
      DecideWithoutFrame(json, skipped, buf);
      assert upstream.Total() == upstream.yielded;
    }

    /** The retry was refused: forwards what the closed attempt had yielded. */
    method ForwardRefused(frame: bytes, rest: bytes)
      requires !started && !examining && delivered == [] && pending == [] && buf == [] && !exhausted && !refused
      requires upstream.closed && upstream.yielded == staged + frame + rest && |frame| > 0
      requires goal == Cut(Offer(upstream.Total(), upstream.yielded, upstream.afterClose))
      requires Decide(json, upstream.yielded) == Retryable
      requires 0 < retries <= MAX_RETRIES && retryCalls == retries && baseWaits == Waits(retryCalls)
      modifies this`started, this`refused, this`pending, this`staged
      ensures Valid() && !examining && started && refused && pending == upstream.yielded != []
    {
      hide Decide, Waits, Upstream.Total;
      started, refused := true, true;
      pending := pending + staged;
      staged := [];
      pending := pending + frame;
      pending := pending + rest;
      assert pending == upstream.yielded;
      assert delivered + pending + buf == pending;
    }

    /** At a verdict all that will have been read has been read. */
    lemma VerdictOffer()
      requires examining && FrameLen(buf) > 0 && FrameVerdict(json, buf[..FrameLen(buf)]) != Open
      ensures CurrentOffer() == Offer(upstream.Total(), upstream.yielded, upstream.afterClose)
    {
      hide FrameLen, FrameVerdict, ReadAhead, ExamineNext, Content;
      ExamineOnce(json, buf, upstream.script, exhausted);
      assert upstream.yielded + [] == upstream.yielded;
    }

    /** Closes the current attempt and forgets what was read of it. */
    method Abandon(n: nat) returns (frame: bytes, rest: bytes)
      requires Valid() && !started && examining && n > 0 && n == FrameLen(buf) && retries < MAX_RETRIES
      requires FrameVerdict(json, buf[..n]) == Retryable
      modifies this`retries, this`baseWaits, this`buf, this`exhausted, this`examining, upstream`closed
      ensures delivered == [] && pending == [] && buf == [] && !exhausted && !examining && !refused
      ensures upstream.closed && upstream.yielded == staged + frame + rest && |frame| > 0
      ensures Decide(json, upstream.yielded) == Retryable
      ensures retries == old(retries) + 1 == retryCalls + 1 <= MAX_RETRIES && baseWaits == Waits(retries)
      ensures goal == if attempts == [] || attempts[0].Refused?
                      then Cut(Offer(upstream.Total(), upstream.yielded, upstream.afterClose))
                      else Run(json, OfferOf(json, attempts[0].script, attempts[0].afterClose), attempts[1..],
                               MAX_RETRIES - retries)
      ensures old(Clean()) ==>
                && ErrorFree(upstream.script)
                && (attempts != [] && attempts[0].Body? ==>
                      && ErrorFree(attempts[0].script)
                      && CleanRun(json, Content(attempts[0].script), attempts[1..], MAX_RETRIES - retries))
    {
      hide Decide, Lead, FrameVerdict, IsFrame, FrameLen, Content, Concat, Run, Waits, Upstream.Total, ReadAhead, ExamineNext,
           ErrorFree, CleanRun, OfferOf;
      VerdictReached(n);
      VerdictOffer();
      RunStep(json, CurrentOffer(), attempts, MAX_RETRIES - retries);
      if Clean() && attempts != [] && attempts[0].Body? {
        CleanRunStep(json, upstream.Total(), attempts, MAX_RETRIES - retries);
      }
      NextWait(retries);
      frame, rest := buf[..n], buf[n..];
      assert staged + buf == staged + frame + rest;
      retries := retries + 1;
      baseWaits := baseWaits + retries;
      upstream.Close();
      buf := [];
      exhausted := false;
      examining := false;
    }

    /** Abandons the current attempt for the next one; if that is refused, forwards what there is. */
    method Retry(n: nat) returns (ok: bool)
      requires Valid() && !started && examining && n > 0 && n == FrameLen(buf) && retries < MAX_RETRIES
      requires FrameVerdict(json, buf[..n]) == Retryable
      modifies this, upstream
      ensures Valid() && !examining && goal == old(goal) && delivered == old(delivered)
      ensures retries == old(retries) + 1 && !exhausted && started == !ok
      ensures if ok then fresh(upstream) && pending == []
              else upstream == old(upstream) && pending == upstream.yielded == old(upstream.yielded) && pending != []
      ensures old(upstream).closed
      ensures old(Clean()) ==> Clean()
    {
      hide Decide, Lead, FrameVerdict, IsFrame, FrameLen, Content, Concat, Run, Waits, Upstream.Total, ReadAhead, ExamineNext,
           ErrorFree, CleanRun, OfferOf, Holding, Forwarding;
      var frame, rest := Abandon(n);
      var newBody := RetryFunc();
      if newBody == null {
        ForwardRefused(frame, rest);
        return false;
      }
      Restart(newBody);
      ok := true;
    }

    /** Starts over with a fresh body. */
    method Restart(newBody: Upstream)
      requires !started && !examining && delivered == [] && pending == [] && buf == [] && !exhausted && !refused
      requires !newBody.closed && newBody.yielded == []
      requires 0 < retries <= MAX_RETRIES
      requires goal == Run(json, OfferOf(json, newBody.script, newBody.afterClose), attempts, MAX_RETRIES - retries)
      requires retryCalls == retries && baseWaits == Waits(retryCalls)
      modifies this`staged, this`upstream, this`skipped
      ensures Valid() && upstream == newBody && upstream.Total() == Content(newBody.script)
    {
      hide Decide, Lead, IsFrame, Content, Concat, Run, Waits, Upstream.Total, ReadAhead, ExamineNext, OfferOf;
      staged := [];
      upstream := newBody;
      skipped := [];
      NothingSkipped(json);
      upstream.TotalAtStart();
      FreshOffer();
    }

    lemma LastAttempt()
      requires Valid() && !started && retries == MAX_RETRIES
      ensures goal == Whole(upstream.Total())
    {
      hide Decide, ReadAhead, ExamineNext;
    }

    lemma RealData(n: nat)
      requires Valid() && !started && n > 0 && n == FrameLen(buf)
      requires FrameVerdict(json, buf[..n]) == Substantive
      ensures goal == Whole(upstream.Total())
    {
      hide Decide, FrameLen, FrameVerdict, ReadAhead, ExamineNext;
      VerdictReached(n);
    }

    lemma AllDelivered()
      requires Valid() && started && (exhausted || refused) && pending == [] && buf == []
      ensures AtEnd() && FinalSignal(goal) == if refused then upstream.afterClose else EOF
    {
      hide Decide;
      assert delivered + pending + buf == delivered;
    }

    /** All that the run is to deliver has been delivered; of a cut attempt that includes the error frame. */
    ghost predicate AtEnd()
      reads this, upstream
    {
      delivered == upstream.yielded == Delivered(goal) && (goal.Cut? ==> Decide(json, delivered) == Retryable)
    }

    /** Acts on the first complete frame of `buf`; says whether forwarding has started. */
    method Examine(cut: nat) returns (forward: bool)
      requires Valid() && !started && examining && cut > 0 && cut == FrameLen(buf)
      modifies this, upstream
      ensures Valid() && !examining && goal == old(goal) && delivered == old(delivered)
      ensures upstream == old(upstream) || fresh(upstream)
      ensures forward == started && (if forward then pending != [] else pending == [])
      ensures !forward ==>
                || retries > old(retries)
                || (retries == old(retries) && upstream == old(upstream) && upstream.script == old(upstream.script)
                    && exhausted == old(exhausted) && |buf| < |old(buf)|)
      ensures old(Clean()) ==> Clean()
    {
      hide Decide, Lead, FrameVerdict, IsFrame, FrameLen, Content, Concat, Run, Waits, Upstream.Total, EventOf,
           IsRetryableErrorPayload, IsRetryPreludeFrame, ReadAhead, ExamineNext, ErrorFree, CleanRun;
      var frame := buf[..cut];
      var event := ParseSSEEvent(frame);
      VerdictOfEvent(json, frame);
      if |event.payload| == 0 && !event.done {
        Stage(cut);
        return false;
      }

      if IsRetryableErrorPayload(json, event.name, event.payload) {
        if retries + 1 > MAX_RETRIES {
          LastAttempt();
          StartForwarding();
          retries := retries + 1;
          return true;
        }
        var ok := Retry(cut);
        return !ok;
      }

      if IsRetryPreludeFrame(json, event.name, event.payload) {
        Stage(cut);
        return false;
      }

      RealData(cut);
      StartForwarding();
      return true;
    }

    /** At most three retries, and one, two and three base waits before them, over the whole life of the wrapper. */
    lemma Budget()
      requires Valid()
      ensures retryCalls <= 3 && baseWaits <= 1 + 2 + 3
      ensures baseWaits == if retryCalls == 0 then 0 else if retryCalls == 1 then 1 else if retryCalls == 2 then 1 + 2 else 1 + 2 + 3
    {
      hide Holding, Forwarding;
      assert Waits(1) == 1 && Waits(2) == 3 && Waits(3) == 6;
    }

    /** No byte is lost, duplicated or mixed: all the current attempt yielded is held, or all of it is in delivery order. */
    lemma NothingMixed()
      requires Valid()
      ensures !started ==> delivered == [] && staged + buf == upstream.yielded
      ensures started ==> delivered + pending + buf == upstream.yielded && delivered <= upstream.Total()
    {
      hide Decide, Run, Lead, Content, ReadAhead, ExamineNext;
    }

    /** Whatever fails, the caller has got nothing but a beginning of what the run is to deliver. */
    lemma DeliveredBounded()
      requires Valid()
      ensures delivered <= Delivered(goal)
    {
      hide Decide, Run, Lead, Content, ReadAhead, ExamineNext;
    }

    lemma StateBounds()
      requires Valid()
      ensures retries <= MAX_RETRIES + 1 && (pending != [] ==> started)
    {
    }

    /** Looks for a verdict in what has been read; without one, at the end of the stream, everything is forwarded. */
    method Look() returns (forward: bool)
      requires Valid() && !started && examining && pending == []
      modifies this, upstream
      ensures Valid() && !examining && goal == old(goal) && delivered == old(delivered)
      ensures upstream == old(upstream) || fresh(upstream)
      ensures forward == started && (pending == [] && forward ==> buf == [] && exhausted)
      ensures !forward ==>
                && pending == []
                && (|| retries > old(retries)
                    || (retries == old(retries) && upstream == old(upstream) && upstream.script == old(upstream.script)
                        && exhausted == old(exhausted) && (old(exhausted) ==> |buf| < |old(buf)|)))
      ensures old(Clean()) ==> Clean()
    {
      hide *;
      var delimiter := FindSSEDelimiter(buf);
      DelimiterGivesFrameLen(buf);
      if delimiter.Missing? {
        if exhausted {
          NothingToRetry();
          StartForwarding();
          return true;
        }
        EndTurn();
        return false;
      }
      forward := Examine(delimiter.idx + delimiter.len);
    }

    /** Serves what has just been released, or reports the end of a stream without any bytes. */
    method Finish(p: array<byte>) returns (n: nat, err: Signal)
      requires Valid() && !examining && started && (pending == [] ==> buf == [] && exhausted)
      modifies this`pending, this`delivered, p
      ensures Valid() && n <= p.Length && delivered == old(delivered) + p[..n]
      ensures forall i :: n <= i < p.Length ==> p[i] == old(p[i])
      ensures err == Nil && p.Length > 0 ==> n > 0
      ensures err != Nil ==> n == 0 && err == EOF && AtEnd() && err == FinalSignal(goal)
      ensures old(Clean()) ==> Clean()
    {
      hide *;
      if |pending| > 0 {
        n := ServePending(p);
        return n, Nil;
      }
      assert p[..0] == [];
      AllDelivered();
      EndSeen();
      return 0, EOF;
    }

    /** While forwarding: serves what has been read, or reports the end; otherwise more has to be read. */
    method PassThrough(p: array<byte>) returns (done: bool, n: nat, err: Signal)
      requires Valid() && !examining && started && pending == []
      modifies this`buf, this`delivered, p
      ensures Valid() && n <= p.Length && delivered == old(delivered) + p[..n]
      ensures forall i :: n <= i < p.Length ==> p[i] == old(p[i])
      ensures done && err == Nil && p.Length > 0 ==> n > 0
      ensures done && err != Nil ==> n == 0 && err == EOF && AtEnd() && err == FinalSignal(goal)
      ensures !done ==> n == 0 && delivered == old(delivered) && buf == old(buf) && buf == [] && !exhausted
      ensures old(Clean()) ==> Clean()
    {
      hide *;
      if |buf| > 0 {
        n := ServeBuf(p);
        return true, n, Nil;
      }
      assert p[..0] == [];
      if exhausted {
        AllDelivered();
        EndSeen();
        return true, 0, EOF;
      }
      return false, 0, Nil;
    }

    /** One call of `Read`. */
    method Read(p: array<byte>) returns (n: nat, err: Signal)
      requires Valid() && !examining
      modifies this, upstream, p
      ensures Valid() && !examining && (upstream == old(upstream) || fresh(upstream))
      ensures goal == old(goal) && n <= p.Length
      ensures delivered == old(delivered) + p[..n]
      ensures forall i :: n <= i < p.Length ==> p[i] == old(p[i])
      ensures old(started) ==> started && upstream == old(upstream) && retries == old(retries)
      ensures err == Nil && p.Length > 0 ==> n > 0
      ensures err == Nil ==> started
      ensures err != Nil ==> n == 0
      ensures err == EOF || (err == Failed && old(Clean())) ==> AtEnd() && err == FinalSignal(goal)
      ensures old(Clean()) ==> Clean()
    {
      hide *;
      StateBounds();
      if |pending| > 0 {
        n := ServePending(p);
        return n, Nil;
      }
      assert p[..0] == [];
      while true
        invariant Valid() && !examining && pending == []
        invariant upstream == old(upstream) || fresh(upstream)
        invariant goal == old(goal) && delivered == old(delivered)
        invariant forall i :: 0 <= i < p.Length ==> p[i] == old(p[i])
        invariant old(started) ==> started && upstream == old(upstream) && retries == old(retries)
        invariant started ==> old(started)
        invariant retries <= MAX_RETRIES + 1
        invariant old(Clean()) ==> Clean()
        decreases MAX_RETRIES + 1 - retries, Work(upstream.script) + (if exhausted then 0 else 1), |buf|
      {
        if !exhausted {
          var failure := Fill();
          if failure == Failed {
            ReadFailed();
            return 0, Failed;
          }
        } else if !started {
          BeginTurn();
        }

        if started {
          var done;
          done, n, err := PassThrough(p);
          if done {
            return;
          }
          continue;
        }

        var forward := Look();
        StateBounds();
        if forward {
          n, err := Finish(p);
          return;
        }
      }
    }

    /** A refused run has nothing left to read from its closed body. */
    lemma ReadFailed()
      requires Valid() && pending == []
      ensures refused ==> AtEnd() && FinalSignal(goal) == upstream.afterClose
    {
      hide Decide, Run, Lead, Content, ReadAhead, ExamineNext;
      if refused {
        AllDelivered();
      }
    }

    lemma EndSeen()
      requires Valid() && exhausted
      ensures refused ==> upstream.afterClose == EOF
    {
      hide Decide, Run, Lead, Content, ReadAhead, ExamineNext;
    }
  }

  /** A client reading to the end with buffers of any positive sizes. */
  method ReadAll(w: SSEConcurrencyRetryWrapper, sizes: nat -> nat) returns (out: bytes, err: Signal, pieces: Script)
    requires w.Valid() && !w.examining && w.delivered == []
    modifies w, w.upstream
    ensures w.Valid() && !w.examining && w.goal == old(w.goal)
    ensures out == w.delivered <= Delivered(w.goal) && err != Nil
    ensures err == EOF || old(w.Clean()) ==> w.AtEnd() && err == FinalSignal(w.goal)
    ensures RecordOf(pieces, out, err) && forall i :: 0 <= i < |pieces| ==> |pieces[i].data| <= 1 + sizes(i)
  {
    hide *;
    out, err, pieces := [], Nil, [];
    RecordBegins();
    w.DeliveredBounded();
    while err == Nil
      invariant w.Valid() && !w.examining && w.goal == old(w.goal) && w.delivered == out
      invariant w.upstream == old(w.upstream) || fresh(w.upstream)
      invariant err == EOF || (err == Failed && old(w.Clean())) ==> w.AtEnd() && err == FinalSignal(w.goal)
      invariant old(w.Clean()) ==> w.Clean()
      invariant out <= Delivered(w.goal)
      invariant RecordOf(pieces, out, err) && forall i :: 0 <= i < |pieces| ==> |pieces[i].data| <= 1 + sizes(i)
      decreases |Delivered(w.goal)| - |out|, err == Nil
    {
      var p := new byte[1 + sizes(|pieces|)];
      var n;
      n, err := w.Read(p);
      RecordMore(pieces, out, p[..n], err);
      out := out + p[..n];
      pieces := pieces + [Chunk(p[..n], err)];
      w.DeliveredBounded();
    }
  }

  /**
    * The whole run, whatever the pieces the streams come in and the buffers they are read with.  The caller gets nothing but a
    * beginning of what `Run` says; all of it at the end of file, and whenever no attempt that is used has a read error.
    */
  method ReadThrough(json: Json, script: Script, afterClose: Ending, attempts: seq<Attempt>, sizes: nat -> nat)
    returns (out: bytes, err: Signal, pieces: Script)
    ensures err != Nil
    ensures var goal := Run(json, OfferOf(json, script, afterClose), attempts, MAX_RETRIES);
            && out <= Delivered(goal)
            && (err == EOF || (ErrorFree(script) && CleanRun(json, Content(script), attempts, MAX_RETRIES)) ==>
                  && out == Delivered(goal) && err == FinalSignal(goal)
                  && (goal.Cut? ==> Decide(json, out) == Retryable))
    ensures RecordOf(pieces, out, err) && forall i :: 0 <= i < |pieces| ==> |pieces[i].data| <= 1 + sizes(i)
  {
    hide Run, Content, Decide, ErrorFree, CleanRun, OfferOf, Delivered, FinalSignal;
    var upstream := new Upstream(script, afterClose);
    upstream.TotalAtStart();
    var w := new SSEConcurrencyRetryWrapper(json, upstream, attempts);
    assert w.Clean() <==> ErrorFree(script) && CleanRun(json, Content(script), attempts, MAX_RETRIES);
    out, err, pieces := ReadAll(w, sizes);
  }
}

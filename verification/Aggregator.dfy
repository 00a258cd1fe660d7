/** Aggregating a Responses event stream into its final response object. */
module Aggregator {
  import opened Bytes
  import opened Framing
  import opened SSEEvent
  import opened UpstreamReader

  const MAX_BYTES: nat := 50 * 1024 * 1024

  datatype Failure = Cancelled | TooLarge | ReadError | MissingResponse

  datatype Result = Ok(response: bytes) | Err(failure: Failure)

  /** What the aggregator asks of a payload: its embedded response object, and its `object` field. */
  datatype View = View(embedded: bytes -> Embedded, objectField: bytes -> bytes)

  datatype Embedded = NoObject | Object(raw: bytes)

  const RESPONSE := Ascii("response")

  // ---- Specification over whole frames -----------------------------------------------------

  datatype Snapshot = NoSnapshot | Snapshot(raw: bytes)

  /** The response snapshot a frame carries, if any. */
  function SnapshotOf(view: View, frame: bytes): Snapshot
  {
    var e := EventOf(frame);
    if e.done || |e.payload| == 0 then NoSnapshot
    else if view.embedded(e.payload).Object? then Snapshot(view.embedded(e.payload).raw)
    else if view.objectField(e.payload) == RESPONSE then Snapshot(TrimSpace(e.payload))
    else NoSnapshot
  }

  /** The frames in front of the first `[DONE]`. */
  function BeforeDone(frames: seq<bytes>): seq<bytes>
  {
    if frames == [] || EventOf(frames[0]).done then [] else [frames[0]] + BeforeDone(frames[1..])
  }

  /** The last snapshot among some frames; empty if there is none. */
  function LastSnapshot(view: View, frames: seq<bytes>): bytes
  {
    if frames == [] then []
    else match SnapshotOf(view, frames[|frames| - 1])
      case Snapshot(raw) => raw
      case NoSnapshot => LastSnapshot(view, frames[..|frames| - 1])
  }

  function Conclude(raw: bytes): Result
  {
    if TrimSpace(raw) == [] then Err(MissingResponse) else Ok(raw)
  }

  /** The complete frames of a stream in front of its first `[DONE]`. */
  function Front(stream: bytes): seq<bytes>
  {
    BeforeDone(Frames(stream))
  }

  function Aggregate(view: View, stream: bytes): Result
  {
    Conclude(LastSnapshot(view, Front(stream)))
  }

  predicate NoneDone(frames: seq<bytes>)
  {
    forall i :: 0 <= i < |frames| ==> !EventOf(frames[i]).done
  }

  /** Cutting at the first `[DONE]`: what is in front, and whether anything follows. */
  lemma {:induction false} BeforeDoneIs(front: seq<bytes>, back: seq<bytes>)
    requires NoneDone(front) && (back == [] || EventOf(back[0]).done)
    ensures BeforeDone(front + back) == front
  {
    hide EventOf;
    if front == [] {
      assert front + back == back;
    } else {
      assert forall i :: 0 <= i < |front| - 1 ==> front[1..][i] == front[i + 1];
      BeforeDoneIs(front[1..], back);
      assert (front + back)[1..] == front[1..] + back;
    }
  }

  lemma {:induction false} BeforeDoneMeaning(frames: seq<bytes>)
    ensures var front := BeforeDone(frames);
            && front <= frames && NoneDone(front)
            && (|front| < |frames| ==> EventOf(frames[|front|]).done)
  {
    hide EventOf;
    if frames != [] && !EventOf(frames[0]).done {
      BeforeDoneMeaning(frames[1..]);
      var front := BeforeDone(frames[1..]);
      assert frames == [frames[0]] + frames[1..];
      assert forall i :: 0 < i <= |front| ==> ([frames[0]] + front)[i] == front[i - 1];
    }
  }

  lemma {:induction false} LastSnapshotMeaning(view: View, frames: seq<bytes>)
    ensures var raw := LastSnapshot(view, frames);
            || (raw == [] && forall i :: 0 <= i < |frames| ==> SnapshotOf(view, frames[i]) == NoSnapshot)
            || exists i :: IsLastSnapshot(view, frames, i, raw)
  {
    hide SnapshotOf;
    if frames != [] {
      var n := |frames| - 1;
      if SnapshotOf(view, frames[n]) == NoSnapshot {
        LastSnapshotMeaning(view, frames[..n]);
        assert forall i :: 0 <= i < n ==> frames[..n][i] == frames[i];
        if i :| IsLastSnapshot(view, frames[..n], i, LastSnapshot(view, frames)) {
          assert IsLastSnapshot(view, frames, i, LastSnapshot(view, frames));
        }
      } else {
        assert IsLastSnapshot(view, frames, n, LastSnapshot(view, frames));
      }
    }
  }

  /** Frame `i` carries `raw`, and no later frame carries a snapshot. */
  ghost predicate IsLastSnapshot(view: View, frames: seq<bytes>, i: int, raw: bytes)
  {
    && 0 <= i < |frames| && SnapshotOf(view, frames[i]) == Snapshot(raw)
    && forall j :: i < j < |frames| ==> SnapshotOf(view, frames[j]) == NoSnapshot
  }

  /** Embedded objects are never blank text. */
  ghost predicate ProperView(view: View)
  {
    forall payload :: view.embedded(payload).Object? ==> TrimSpace(view.embedded(payload).raw) != []
  }

  lemma SnapshotNotBlank(view: View, frame: bytes)
    requires ProperView(view) && SnapshotOf(view, frame).Snapshot?
    ensures TrimSpace(SnapshotOf(view, frame).raw) != []
  {
    PayloadNotBlank(frame);
    hide EventOf, TrimSpace;
    TrimSpaceIdempotent(EventOf(frame).payload);
  }

  /** The result is the last snapshot in front of the first `[DONE]` frame, and an error exactly if there is none. */
  lemma AggregateMeaning(view: View, stream: bytes)
    requires ProperView(view)
    ensures var front, frames := Front(stream), Frames(stream);
            && front <= frames && NoneDone(front)
            && (|front| < |frames| ==> EventOf(frames[|front|]).done)
            && match Aggregate(view, stream)
               case Err(e) => e == MissingResponse && forall i :: 0 <= i < |front| ==> SnapshotOf(view, front[i]) == NoSnapshot
               case Ok(raw) => exists i :: IsLastSnapshot(view, front, i, raw)
  {
    BeforeDoneMeaning(Frames(stream));
    hide SnapshotOf, TrimSpace, BeforeDone, Frames, EventOf;
    var front := Front(stream);
    var raw := LastSnapshot(view, front);
    LastSnapshotMeaning(view, front);
    TrimSpaceOfNothing();
    if forall i :: 0 <= i < |front| ==> SnapshotOf(view, front[i]) == NoSnapshot {
      assert raw == [];
    } else {
      var i :| IsLastSnapshot(view, front, i, raw);
      SnapshotNotBlank(view, front[i]);
    }
  }

  lemma TrimSpaceOfNothing()
    ensures TrimSpace([]) == []
  {
  }

  // ---- The aggregation loop ----------------------------------------------------------------

  /** The frames taken decide the result once the stream has ended. */
  lemma EndDecides(view: View, front: seq<bytes>, rest: bytes)
    requires forall i :: 0 <= i < |front| ==> IsFrame(front[i])
    requires NoneDone(front) && FrameLen(rest) == 0
    ensures Aggregate(view, Concat(front) + rest) == Conclude(LastSnapshot(view, front))
  {
    hide EventOf, FrameLen, IsFrame, LastSnapshot, Conclude, Concat, BeforeDone;
    FramesConcat(front, rest);
    BeforeDoneIs(front, []);
  }

  /** They also decide it once `[DONE]` is met, whatever follows. */
  lemma DoneDecides(view: View, front: seq<bytes>, last: bytes, rest: bytes)
    requires forall i :: 0 <= i < |front| ==> IsFrame(front[i])
    requires NoneDone(front) && IsFrame(last) && EventOf(last).done
    ensures Aggregate(view, Concat(front) + (last + rest)) == Conclude(LastSnapshot(view, front))
  {
    hide EventOf, FrameLen, IsFrame, LastSnapshot, Conclude, Concat, BeforeDone, Frames, Residual;
    FramesConcat(front, last + rest);
    FramesCons(last, rest);
    BeforeDoneIs(front, [last] + Frames(rest));
  }

  lemma NothingYet(view: View)
    ensures LastSnapshot(view, []) == [] && Concat([]) == []
  {
  }

  lemma LastSnapshotSnoc(view: View, frames: seq<bytes>, frame: bytes)
    ensures LastSnapshot(view, frames + [frame]) ==
            match SnapshotOf(view, frame) case Snapshot(raw) => raw case NoSnapshot => LastSnapshot(view, frames)
  {
    hide SnapshotOf;
    assert (frames + [frame])[..|frames|] == frames;
  }

  /** What follows the first `[DONE]` frame of a text that has one. */
  function BehindDone(s: bytes): bytes
    decreases |s|
  {
    var n := FrameLen(s);
    if n == 0 || EventOf(s[..n]).done then s[n..] else BehindDone(s[n..])
  }

  lemma NoFrameLeft(s: bytes)
    requires FrameLen(s) == 0
    ensures NoneDone(Frames(s)) && Residual(s) == s
  {
    hide FrameLen, EventOf;
  }

  lemma FirstFrameOf(s: bytes)
    requires FrameLen(s) > 0
    ensures var n := FrameLen(s);
            && (NoneDone(Frames(s)) <==> !EventOf(s[..n]).done && NoneDone(Frames(s[n..])))
            && Residual(s) == Residual(s[n..])
            && BehindDone(s) == if EventOf(s[..n]).done then s[n..] else BehindDone(s[n..])
  {
    hide FrameLen, EventOf;
    var n := FrameLen(s);
    NoneDoneCons(s[..n], Frames(s[n..]));
  }

  lemma NoneDoneCons(frame: bytes, frames: seq<bytes>)
    ensures NoneDone([frame] + frames) <==> !EventOf(frame).done && NoneDone(frames)
  {
    hide EventOf;
    assert forall i :: 0 <= i < |frames| ==> ([frame] + frames)[i + 1] == frames[i];
    if NoneDone([frame] + frames) {
      assert ([frame] + frames)[0] == frame;
    }
  }

  lemma NoneDoneSnoc(frames: seq<bytes>, frame: bytes)
    ensures NoneDone(frames + [frame]) <==> NoneDone(frames) && !EventOf(frame).done
  {
    hide EventOf;
    var all := frames + [frame];
    assert all[|frames|] == frame && forall i :: 0 <= i < |frames| ==> all[i] == frames[i];
  }

  /** Takes the complete frames out of `sseBuffer`, up to a `[DONE]`. */
  method TakeFrames(view: View, sseBuffer: bytes, finalResponse: bytes, ghost front: seq<bytes>)
    returns (rest: bytes, latest: bytes, done: bool, ghost front': seq<bytes>, ghost last: bytes)
    requires forall i :: 0 <= i < |front| ==> IsFrame(front[i])
    requires NoneDone(front) && finalResponse == LastSnapshot(view, front)
    ensures forall i :: 0 <= i < |front'| ==> IsFrame(front'[i])
    ensures NoneDone(front') && latest == LastSnapshot(view, front')
    ensures if done then IsFrame(last) && EventOf(last).done && Concat(front) + sseBuffer == Concat(front') + last + rest
            else FrameLen(rest) == 0 && Concat(front) + sseBuffer == Concat(front') + rest
    ensures done <==> !NoneDone(Frames(sseBuffer))
    ensures rest == if done then BehindDone(sseBuffer) else Residual(sseBuffer)
  {
    hide Frames, Residual, BehindDone, NoneDone, FrameLen, IsFrame, LastSnapshot, TrimSpace, Concat, EventOf, FindSSEDelimiter;
    rest, latest, done, front', last := sseBuffer, finalResponse, false, front, [];
    while true
      invariant forall i :: 0 <= i < |front'| ==> IsFrame(front'[i])
      invariant NoneDone(front') && latest == LastSnapshot(view, front')
      invariant Concat(front) + sseBuffer == Concat(front') + rest
      invariant (NoneDone(Frames(sseBuffer)) <==> NoneDone(Frames(rest)))
      invariant Residual(sseBuffer) == Residual(rest) && BehindDone(sseBuffer) == BehindDone(rest)
      decreases |rest|
    {
      DelimiterGivesFrameLen(rest);
      var delimiter := FindSSEDelimiter(rest);
      if delimiter.Missing? {
        NoFrameLeft(rest);
        return;
      }
      var cut := delimiter.idx + delimiter.len;
      FirstFrameIsFrame(rest);
      FirstFrameOf(rest);
      var frame := rest[..cut];
      CutFrame(Concat(front'), rest, cut);
      rest := rest[cut..];

      var event := ParseSSEEvent(frame);
      if event.done {
        done, last := true, frame;
        return;
      }
      LastSnapshotSnoc(view, front', frame);
      ConcatSnoc(front', frame);
      NoneDoneSnoc(front', frame);
      front' := front' + [frame];
      if |event.payload| == 0 {
        continue;
      }
      var embedded := view.embedded(event.payload);
      if embedded.Object? {
        latest := embedded.raw;
        continue;
      }
      if view.objectField(event.payload) == RESPONSE {
        latest := TrimSpace(event.payload);
        continue;
      }
    }
  }

  lemma CutFrame(front: bytes, rest: bytes, n: nat)
    requires n <= |rest|
    ensures front + rest == front + rest[..n] + rest[n..]
  {
  }

  method AggregateSSE(view: View, r: Upstream, cancelled: nat -> bool) returns (result: Result)
    requires !r.closed && r.yielded == []
    modifies r
    ensures result.Ok? || result.failure == MissingResponse ==> result == Aggregate(view, old(r.Total()))
    ensures result == Err(TooLarge) ==> |old(r.Total())| > 52_428_800
    ensures result.Ok? || result.failure == MissingResponse ==> |r.yielded| <= 52_428_800
    ensures result == Err(ReadError) ==> !old(ErrorFree(r.script))
    ensures result == Err(Cancelled) ==> exists i :: cancelled(i)
  {
    hide Aggregate, LastSnapshot, BeforeDone, EventOf, Frames, FrameLen, IsFrame, Concat, Content, Work, ErrorFree, TrimSpace;
    var sseBuffer: bytes, totalRead: nat, finalResponse: bytes, round: nat := [], 0, [], 0;
    ghost var front: seq<bytes> := [];
    NothingYet(view);
    while true
      invariant !r.closed && r.Total() == old(r.Total())
      invariant old(ErrorFree(r.script)) ==> ErrorFree(r.script)
      invariant forall i :: 0 <= i < |front| ==> IsFrame(front[i])
      invariant NoneDone(front) && finalResponse == LastSnapshot(view, front)
      invariant r.yielded == Concat(front) + sseBuffer && totalRead == |r.yielded| <= 52_428_800
      decreases Work(r.script)
    {
      if cancelled(round) {
        return Err(Cancelled);
      }
      round := round + 1;

      var data, err := r.ReadSome(4096);
      totalRead := totalRead + |data|;
      if totalRead > MAX_BYTES {
        return Err(TooLarge);
      }
      Assoc(Concat(front), sseBuffer, data);

      ghost var last;
      var done;
      sseBuffer, finalResponse, done, front, last := TakeFrames(view, sseBuffer + data, finalResponse, front);
      if done {
        Reassociate(Concat(front), last, sseBuffer, Content(r.script));
        DoneDecides(view, front, last, sseBuffer + Content(r.script));
        break;
      }
      if err == EOF {
        ContentOfNothing();
        assert r.Total() == r.yielded;
        EndDecides(view, front, sseBuffer);
        break;
      }
      if err == Failed {
        return Err(ReadError);
      }
    }
    result := Conclude(finalResponse);
  }

  lemma Reassociate(a: bytes, b: bytes, c: bytes, d: bytes)
    ensures a + b + c + d == a + (b + (c + d))
  {
  }
}

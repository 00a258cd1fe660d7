/** Token usage: what the parsers report and how the request trace accumulates it. */
module Usage {
  import opened Bytes
  import opened Options

  datatype TokenUsage = TokenUsage(input: Option<int>, output: Option<int>, cacheRead: Option<int>, cacheCreation: Option<int>)

  const NO_USAGE := TokenUsage(None, None, None, None)

  function Newer(old_: Option<int>, new_: Option<int>): Option<int>
  {
    if new_.Some? then new_ else old_
  }

  /** Counters that are given replace the earlier ones. */
  function Merge(u: TokenUsage, v: TokenUsage): TokenUsage
  {
    TokenUsage(Newer(u.input, v.input), Newer(u.output, v.output),
               Newer(u.cacheRead, v.cacheRead), Newer(u.cacheCreation, v.cacheCreation))
  }

  // ---- The parsers -------------------------------------------------------------------------

  /** A decoded Anthropic stream event. */
  datatype AnthropicEvent =
    | MessageStart(start: Option<TokenUsage>)
    | MessageDelta(delta: Option<TokenUsage>)
    | OtherEvent

  /** The result of ConsumeSSE. */
  datatype Consumed = Consumed(usage: Option<TokenUsage>, final: bool, ok: bool)

  const NOTHING := Consumed(None, false, false)

  /** The Anthropic parser keeps state; the others are functions of one event. */
  datatype Provider =
    | Anthropic(decode: bytes -> Option<AnthropicEvent>)
    | Stateless(consume: (bytes, bytes) -> Consumed)

  /** ConsumeSSE as a step on the parser's `cur`. */
  function Consume(provider: Provider, cur: TokenUsage, eventName: bytes, data: bytes): (TokenUsage, Consumed)
  {
    match provider
    case Stateless(consume) => (cur, consume(eventName, data))
    case Anthropic(decode) =>
      match decode(data)
      case Some(MessageStart(start)) =>
        (match start
         case None => NO_USAGE
         case Some(u) => TokenUsage(u.input, None, u.cacheRead, u.cacheCreation),
         NOTHING)
      case Some(MessageDelta(Some(u))) =>
        var merged := Merge(cur, u);
        (merged, Consumed(Some(merged), true, true))
      case _ => (cur, NOTHING)
  }

  class UsageParser {
    const provider: Provider
    var cur: TokenUsage

    constructor (provider: Provider)
      ensures this.provider == provider && cur == NO_USAGE
    {
      this.provider := provider;
      cur := NO_USAGE;
    }

    method ConsumeSSE(eventName: bytes, data: bytes) returns (r: Consumed)
      modifies this
      ensures (cur, r) == Consume(provider, old(cur), eventName, data)
    {
      match provider
      case Stateless(consume) =>
        r := consume(eventName, data);
      case Anthropic(decode) =>
        var event := decode(data);
        if event.None? {
          return NOTHING;
        }
        match event.value
        case MessageStart(start) =>
          cur := NO_USAGE;
          if start.Some? {
            cur := cur.(input := start.value.input, cacheRead := start.value.cacheRead,
                        cacheCreation := start.value.cacheCreation);
          }
          return NOTHING;
        case MessageDelta(delta) =>
          if delta.Some? {
            var u := delta.value;
            if u.input.Some? {
              cur := cur.(input := u.input);
            }
            if u.output.Some? {
              cur := cur.(output := u.output);
            }
            if u.cacheRead.Some? {
              cur := cur.(cacheRead := u.cacheRead);
            }
            if u.cacheCreation.Some? {
              cur := cur.(cacheCreation := u.cacheCreation);
            }
            return Consumed(Some(cur), true, true);
          }
          return NOTHING;
        case OtherEvent =>
          return NOTHING;
    }
  }

  class RequestTrace {
    var usage: TokenUsage

    constructor ()
      ensures usage == NO_USAGE
    {
      usage := NO_USAGE;
    }

    method SetUsage(input: Option<int>, output: Option<int>, cacheRead: Option<int>, cacheCreation: Option<int>)
      modifies this
      ensures usage == Merge(old(usage), TokenUsage(input, output, cacheRead, cacheCreation))
    {
      if input.Some? {
        usage := usage.(input := input);
      }
      if output.Some? {
        usage := usage.(output := output);
      }
      if cacheRead.Some? {
        usage := usage.(cacheRead := cacheRead);
      }
      if cacheCreation.Some? {
        usage := usage.(cacheCreation := cacheCreation);
      }
    }
  }

  // ---- Accounting over a whole list of events ----------------------------------------------

  /** An event as it reaches the parser: its name and its data. */
  type Handed = (bytes, bytes)

  datatype Account = Account(cur: TokenUsage, trace: TokenUsage, extracted: bool)

  function Book(provider: Provider, a: Account, e: Handed): Account
  {
    var (cur, r) := Consume(provider, a.cur, e.0, e.1);
    if !r.ok then a.(cur := cur)
    else Account(cur, if r.usage.Some? then Merge(a.trace, r.usage.value) else a.trace, a.extracted || r.final)
  }

  /** The account of a list of events, on top of what the trace held at the start. */
  function BookAll(provider: Provider, start: TokenUsage, events: seq<Handed>): Account
  {
    if events == [] then Account(NO_USAGE, start, false)
    else Book(provider, BookAll(provider, start, events[..|events| - 1]), events[|events| - 1])
  }

  lemma BookSnoc(provider: Provider, start: TokenUsage, events: seq<Handed>, e: Handed)
    ensures BookAll(provider, start, events + [e]) == Book(provider, BookAll(provider, start, events), e)
  {
    assert (events + [e])[..|events|] == events;
  }

  // ---- What the Anthropic counters mean ----------------------------------------------------

  /** The usage an event reports, if it is a message_delta that carries one. */
  function Reported(decode: bytes -> Option<AnthropicEvent>, e: Handed): Option<TokenUsage>
  {
    match decode(e.1)
    case Some(MessageDelta(Some(u))) => Some(u)
    case _ => None
  }

  /** The last output count any message_delta reported. */
  function LastOutput(decode: bytes -> Option<AnthropicEvent>, events: seq<Handed>): Option<int>
  {
    if events == [] then None
    else
      var last := Reported(decode, events[|events| - 1]);
      if last.Some? && last.value.output.Some? then last.value.output else LastOutput(decode, events[..|events| - 1])
  }

  /** Although message_start resets the parser, the trace ends with the last output count reported. */
  lemma {:induction false} OutputIsLastReported(decode: bytes -> Option<AnthropicEvent>, start: TokenUsage, events: seq<Handed>)
    ensures var a := BookAll(Anthropic(decode), start, events);
            && a.trace.output == Newer(start.output, LastOutput(decode, events))
            && (a.cur.output.Some? ==> a.cur.output == a.trace.output)
  {
    if events != [] {
      OutputIsLastReported(decode, start, events[..|events| - 1]);
    }
  }

  /** A stream counts as extracted exactly when some message_delta carried a usage. */
  lemma {:induction false} ExtractedIffReported(decode: bytes -> Option<AnthropicEvent>, start: TokenUsage, events: seq<Handed>)
    ensures BookAll(Anthropic(decode), start, events).extracted <==>
            exists i :: 0 <= i < |events| && Reported(decode, events[i]).Some?
  {
    if events != [] {
      var n := |events| - 1;
      ExtractedIffReported(decode, start, events[..n]);
      if Reported(decode, events[n]).None? {
        assert forall i :: 0 <= i < n ==> events[..n][i] == events[i];
      }
    }
  }

  // ---- The other three counters, field by field ----------------------------------------------

  function InputOf(u: TokenUsage): Option<int>
  {
    u.input
  }

  function CacheReadOf(u: TokenUsage): Option<int>
  {
    u.cacheRead
  }

  function CacheCreationOf(u: TokenUsage): Option<int>
  {
    u.cacheCreation
  }

  /** Index of the latest message_start, or -1. */
  function LatestStart(decode: bytes -> Option<AnthropicEvent>, events: seq<Handed>): (k: int)
    ensures -1 <= k < |events|
    ensures k >= 0 ==> decode(events[k].1).Some? && decode(events[k].1).value.MessageStart?
    ensures forall i :: k < i < |events| ==> !(decode(events[i].1).Some? && decode(events[i].1).value.MessageStart?)
  {
    if events == [] then -1
    else
      var n := |events| - 1;
      var last := decode(events[n].1);
      if last.Some? && last.value.MessageStart? then n
      else
        var k := LatestStart(decode, events[..n]);
        assert forall i :: 0 <= i < n ==> events[..n][i] == events[i];
        k
  }

  /** The last value of a field that a message_delta gave behind index k. */
  function LastGiven(decode: bytes -> Option<AnthropicEvent>, events: seq<Handed>, k: int, field: TokenUsage -> Option<int>): Option<int>
    decreases |events|
  {
    if |events| <= k + 1 || events == [] then None
    else
      var n := |events| - 1;
      var last := Reported(decode, events[n]);
      if last.Some? && field(last.value).Some? then field(last.value) else LastGiven(decode, events[..n], k, field)
  }

  /** What the current message has said about a field: the last delta that gave it, or else the message_start. */
  function Said(decode: bytes -> Option<AnthropicEvent>, events: seq<Handed>, field: TokenUsage -> Option<int>): Option<int>
  {
    var k := LatestStart(decode, events);
    var given := LastGiven(decode, events, k, field);
    if given.Some? then given
    else if k >= 0 && decode(events[k].1).value.start.Some? then field(decode(events[k].1).value.start.value)
    else None
  }

  /** Index of the last message_delta that carries a usage, or -1. */
  function LastReport(decode: bytes -> Option<AnthropicEvent>, events: seq<Handed>): (j: int)
    ensures -1 <= j < |events|
    ensures j >= 0 ==> Reported(decode, events[j]).Some?
    ensures forall i :: j < i < |events| ==> Reported(decode, events[i]).None?
  {
    if events == [] then -1
    else
      var n := |events| - 1;
      if Reported(decode, events[n]).Some? then n
      else
        var j := LastReport(decode, events[..n]);
        assert forall i :: 0 <= i < n ==> events[..n][i] == events[i];
        j
  }

  /** The parser's state: of each of the three fields, what the current message has said. */
  lemma {:induction false} CurrentIsSaid(decode: bytes -> Option<AnthropicEvent>, start: TokenUsage, events: seq<Handed>)
    ensures var cur := BookAll(Anthropic(decode), start, events).cur;
            && cur.input == Said(decode, events, InputOf)
            && cur.cacheRead == Said(decode, events, CacheReadOf)
            && cur.cacheCreation == Said(decode, events, CacheCreationOf)
  {
    if events != [] {
      var n := |events| - 1;
      CurrentIsSaid(decode, start, events[..n]);
      SaidStep(decode, events, InputOf);
      SaidStep(decode, events, CacheReadOf);
      SaidStep(decode, events, CacheCreationOf);
      hide Said;
    }
  }

  /** How one more event changes what has been said. */
  lemma SaidStep(decode: bytes -> Option<AnthropicEvent>, events: seq<Handed>, field: TokenUsage -> Option<int>)
    requires events != []
    ensures var n := |events| - 1;
            var before := Said(decode, events[..n], field);
            Said(decode, events, field) ==
            match decode(events[n].1)
            case Some(MessageStart(u)) => if u.Some? then field(u.value) else None
            case Some(MessageDelta(Some(u))) => if field(u).Some? then field(u) else before
            case _ => before
  {
    var n := |events| - 1;
    var k := LatestStart(decode, events[..n]);
    assert k >= 0 ==> events[..n][k] == events[k];
  }

  /**
    * The trace behind the last message_delta that carries a usage: each of the three fields has what the message of that delta
    * had said about it by then; what it had not mentioned is as the trace held it before.
    */
  lemma {:induction false} CountersAreSaid(decode: bytes -> Option<AnthropicEvent>, start: TokenUsage, events: seq<Handed>)
    ensures var j, trace := LastReport(decode, events), BookAll(Anthropic(decode), start, events).trace;
            if j < 0 then trace == start
            else
              var before := BookAll(Anthropic(decode), start, events[..j]).trace;
              var said := events[..j + 1];
              && trace.input == Or(Said(decode, said, InputOf), before.input)
              && trace.cacheRead == Or(Said(decode, said, CacheReadOf), before.cacheRead)
              && trace.cacheCreation == Or(Said(decode, said, CacheCreationOf), before.cacheCreation)
  {
    if events != [] {
      var n := |events| - 1;
      if Reported(decode, events[n]).Some? {
        CurrentIsSaid(decode, start, events);
        assert events[..n + 1] == events;
        hide Said;
      } else {
        CountersAreSaid(decode, start, events[..n]);
        var j := LastReport(decode, events);
        assert j >= 0 ==> events[..n][..j] == events[..j] && events[..n][..j + 1] == events[..j + 1];
        hide Said;
      }
    }
  }

  function Or(a: Option<int>, b: Option<int>): Option<int>
  {
    if a.Some? then a else b
  }

  /** A message whose prompt was read from the cache: the start gives the prompt's counts, the delta the output. */
  lemma CachedMessage(decode: bytes -> Option<AnthropicEvent>, start: TokenUsage, first: Handed, second: Handed,
                      input: int, cacheRead: int, cacheCreation: int, output: int)
    requires decode(first.1) == Some(MessageStart(Some(TokenUsage(Some(input), Some(1), Some(cacheRead), Some(cacheCreation)))))
    requires decode(second.1) == Some(MessageDelta(Some(TokenUsage(None, Some(output), None, None))))
    ensures BookAll(Anthropic(decode), start, [first, second]).trace
            == TokenUsage(Some(input), Some(output), Some(cacheRead), Some(cacheCreation))
  {
    assert [first, second][..1] == [first] && [first][..0] == [];
    assert BookAll(Anthropic(decode), start, [first]).cur == TokenUsage(Some(input), None, Some(cacheRead), Some(cacheCreation));
  }
}

/** Channel selection: group access, priority, and round robin among the best. */
module Channels {
  import opened Arithmetic
  import opened Options

  type Id = string

  datatype Channel = Channel(id: Id, priority: int, enabled: bool, config: string)

  /** The channel and channel-group tables; `matches` is the model matcher. */
  datatype Catalog = Catalog(channels: seq<Channel>, groups: map<Id, seq<string>>, matches: (Channel, string) -> bool)

  /** Ids are primary keys. */
  predicate DistinctIds(channels: seq<Channel>)
  {
    forall i, j :: 0 <= i < j < |channels| ==> channels[i].id != channels[j].id
  }

  // ---- Access ------------------------------------------------------------------------------

  function GroupsOf(c: Catalog, id: Id): seq<string>
  {
    if id in c.groups then c.groups[id] else []
  }

  function ToSet(values: seq<string>): set<string>
  {
    set i | 0 <= i < |values| :: values[i]
  }

  /** A channel without groups is open to all; any other to users that share a group with it. */
  predicate Accessible(channelGroups: seq<string>, userGroups: set<string>)
  {
    channelGroups == [] || exists i :: 0 <= i < |channelGroups| && channelGroups[i] in userGroups
  }

  /** How the group lookups go: in one batch, or channel by channel with some failing. */
  datatype Lookup = Batch | Singly(failing: set<Id>)

  /** Whether an enabled channel may serve a model for a user. */
  predicate Usable(c: Catalog, ch: Channel, model: string, userGroups: set<string>, lookup: Lookup)
  {
    && c.matches(ch, model)
    && (lookup.Singly? ==> ch.id !in lookup.failing)
    && Accessible(GroupsOf(c, ch.id), userGroups)
  }

  // ---- Specification of a choice -----------------------------------------------------------

  function Enabled(channels: seq<Channel>): (r: seq<Channel>)
    ensures forall ch :: ch in r <==> ch in channels && ch.enabled
  {
    if channels == [] then []
    else
      var last := channels[|channels| - 1];
      Enabled(channels[..|channels| - 1]) + if last.enabled then [last] else []
  }

  function Candidates(c: Catalog, channels: seq<Channel>, model: string, userGroups: set<string>, lookup: Lookup): (r: seq<Channel>)
    ensures forall ch :: ch in r <==> ch in channels && Usable(c, ch, model, userGroups, lookup)
  {
    if channels == [] then []
    else
      var last := channels[|channels| - 1];
      Candidates(c, channels[..|channels| - 1], model, userGroups, lookup)
      + if Usable(c, last, model, userGroups, lookup) then [last] else []
  }

  function MinPriority(cs: seq<Channel>): (p: int)
    requires cs != []
    ensures forall ch :: ch in cs ==> p <= ch.priority
    ensures exists ch :: ch in cs && ch.priority == p
  {
    if |cs| == 1 then cs[0].priority
    else
      var front, last := MinPriority(cs[..|cs| - 1]), cs[|cs| - 1].priority;
      assert cs == cs[..|cs| - 1] + [cs[|cs| - 1]];
      if last < front then last else front
  }

  function WithPriority(cs: seq<Channel>, p: int): (r: seq<Channel>)
    ensures forall ch :: ch in r <==> ch in cs && ch.priority == p
  {
    if cs == [] then []
    else
      var last := cs[|cs| - 1];
      WithPriority(cs[..|cs| - 1], p) + if last.priority == p then [last] else []
  }

  // ---- Order of ids ------------------------------------------------------------------------

  /** Go's `<` on strings. */
  predicate Before(a: Id, b: Id)
  {
    b != [] && (a == [] || a[0] < b[0] || (a[0] == b[0] && Before(a[1..], b[1..])))
  }

  lemma {:induction false} BeforeTotal(a: Id, b: Id)
    ensures Before(a, b) || a == b || Before(b, a)
    ensures !(Before(a, b) && Before(b, a)) && !Before(a, a)
  {
    if a != [] && b != [] {
      BeforeTotal(a[1..], b[1..]);
      BeforeTotal(a[1..], a[1..]);
      assert a == [a[0]] + a[1..] && b == [b[0]] + b[1..];
    } else if a != [] {
      BeforeTotal(a[1..], a[1..]);
    }
  }

  lemma {:induction false} BeforeTransitive(a: Id, b: Id, c: Id)
    requires Before(a, b) && Before(b, c)
    ensures Before(a, c)
  {
    if a != [] && a[0] == b[0] && b[0] == c[0] {
      BeforeTransitive(a[1..], b[1..], c[1..]);
    }
  }

  predicate SortedById(cs: seq<Channel>)
  {
    forall i, j :: 0 <= i < j < |cs| ==> Before(cs[i].id, cs[j].id)
  }

  function Insert(ch: Channel, cs: seq<Channel>): (r: seq<Channel>)
    ensures forall x :: x in r <==> x == ch || x in cs
  {
    if cs == [] then [ch]
    else if Before(ch.id, cs[0].id) then [ch] + cs
    else [cs[0]] + Insert(ch, cs[1..])
  }

  function SortById(cs: seq<Channel>): (r: seq<Channel>)
    ensures forall x :: x in r <==> x in cs
  {
    if cs == [] then [] else Insert(cs[|cs| - 1], SortById(cs[..|cs| - 1]))
  }

  lemma {:induction false} InsertSorted(ch: Channel, cs: seq<Channel>)
    requires SortedById(cs) && forall x :: x in cs ==> x.id != ch.id
    ensures SortedById(Insert(ch, cs)) && |Insert(ch, cs)| == |cs| + 1
  {
    if cs != [] {
      var head, tail := cs[0], cs[1..];
      BeforeTotal(ch.id, head.id);
      if Before(ch.id, head.id) {
        forall x | x in tail
          ensures Before(ch.id, x.id)
        {
          var j :| 0 < j < |cs| && cs[j] == x;
          BeforeTransitive(ch.id, head.id, x.id);
        }
      } else {
        InsertSorted(ch, tail);
        assert forall x :: x in Insert(ch, tail) ==> Before(head.id, x.id);
      }
    }
  }

  lemma {:induction false} SortSorts(cs: seq<Channel>)
    requires DistinctIds(cs)
    ensures SortedById(SortById(cs)) && |SortById(cs)| == |cs|
  {
    if cs != [] {
      var n := |cs| - 1;
      SortSorts(cs[..n]);
      InsertSorted(cs[n], SortById(cs[..n]));
    }
  }

  lemma HasMember(b: seq<Channel>)
    ensures b != [] ==> exists x :: x in b
  {
    if b != [] {
      assert b[0] in b;
    }
  }

  /** A list sorted by distinct ids is determined by its elements. */
  lemma {:induction false} SortedUnique(a: seq<Channel>, b: seq<Channel>)
    requires SortedById(a) && SortedById(b) && forall x :: x in a <==> x in b
    ensures a == b
  {
    if a == [] {
      HasMember(b);
    } else {
      assert a[0] in b && b != [];
      var x, y := a[0], b[0];
      BeforeTotal(x.id, y.id);
      assert x == y by {
        assert x in b && y in a;
      }
      BeforeTotal(x.id, x.id);
      assert x !in a[1..] && x !in b[1..];
      assert a == [x] + a[1..] && b == [x] + b[1..];
      assert forall z :: z in a[1..] <==> z in a && z != x;
      assert forall z :: z in b[1..] <==> z in b && z != x;
      SortedUnique(a[1..], b[1..]);
    }
  }

  // ---- The choice --------------------------------------------------------------------------

  /** The usable channels of least priority number, in the order of their ids. */
  function Best(cs: seq<Channel>): (r: seq<Channel>)
    requires cs != []
    ensures r != [] && forall ch :: ch in r <==> ch in cs && ch.priority == MinPriority(cs)
  {
    SomeBest(cs);
    SortById(WithPriority(cs, MinPriority(cs)))
  }

  lemma SomeBest(cs: seq<Channel>)
    requires cs != []
    ensures SortById(WithPriority(cs, MinPriority(cs))) != []
  {
    var p := MinPriority(cs);
    var ch :| ch in cs && ch.priority == p;
    assert ch in WithPriority(cs, p);
    assert ch in SortById(WithPriority(cs, p));
  }

  const TWO_63: nat := 0x8000_0000_0000_0000
  const TWO_64: nat := 0x1_0000_0000_0000_0000

  /** Go's conversion of a uint64 to int. */
  function ToInt(u: nat): int
    requires u < TWO_64
  {
    if u < TWO_63 then u else u - TWO_64
  }

  /** Indexing with a negative remainder panics. */
  datatype Selection = NoChannel | Selected(channel: Channel) | Panic

  /** `best[idx % len]` with Go's truncated remainder. */
  function RoundRobin(best: seq<Channel>, counter: nat): Selection
    requires best != [] && counter < TWO_64
  {
    var idx := ToInt(counter);
    if idx >= 0 then Selected(best[idx % |best|])
    else if (-idx) % |best| == 0 then Selected(best[0])
    else Panic
  }

  /** What a selection gives at a counter value; a single candidate is taken without the counter. */
  function Choose(cs: seq<Channel>, counter: nat): Selection
    requires counter < TWO_64
  {
    if cs == [] then NoChannel
    else if |cs| == 1 then Selected(cs[0])
    else RoundRobin(Best(cs), counter)
  }

  lemma BestIsSorted(cs: seq<Channel>)
    requires cs != [] && DistinctIds(cs)
    ensures SortedById(Best(cs))
  {
    DistinctKept(cs, MinPriority(cs));
    SortSorts(WithPriority(cs, MinPriority(cs)));
  }

  lemma {:induction false} DistinctKept(cs: seq<Channel>, p: int)
    requires DistinctIds(cs)
    ensures DistinctIds(WithPriority(cs, p))
  {
    if cs != [] {
      DistinctKept(cs[..|cs| - 1], p);
    }
  }

  lemma AppendDistinct(cs: seq<Channel>, ch: Channel)
    ensures DistinctIds(cs) && (forall x :: x in cs ==> x.id != ch.id) ==> DistinctIds(cs + [ch])
  {
  }

  lemma {:induction false} CandidatesDistinct(c: Catalog, channels: seq<Channel>, model: string,
                                              userGroups: set<string>, lookup: Lookup)
    requires DistinctIds(channels)
    ensures DistinctIds(Candidates(c, channels, model, userGroups, lookup))
  {
    hide Usable;
    if channels != [] {
      var front := channels[..|channels| - 1];
      CandidatesDistinct(c, front, model, userGroups, lookup);
      assert forall i :: 0 <= i < |front| ==> front[i] == channels[i];
      AppendDistinct(Candidates(c, front, model, userGroups, lookup), channels[|front|]);
    }
  }

  lemma {:induction false} EnabledDistinct(channels: seq<Channel>)
    requires DistinctIds(channels)
    ensures DistinctIds(Enabled(channels))
  {
    if channels != [] {
      EnabledDistinct(channels[..|channels| - 1]);
    }
  }

  lemma ChooseIgnoresOrder(a: seq<Channel>, b: seq<Channel>, counter: nat)
    requires counter < TWO_64 && DistinctIds(a) && DistinctIds(b) && forall ch :: ch in a <==> ch in b
    ensures Choose(a, counter) == Choose(b, counter)
  {
    hide RoundRobin;
    SameLength(a, b);
    if |a| == 1 {
      assert a[0] in b;
    } else if |a| > 1 {
      BestIsSorted(a);
      BestIsSorted(b);
      SortedUnique(Best(a), Best(b));
    }
  }

  /** The choice does not depend on the order the repository lists the channels in. */
  lemma OrderDoesNotMatter(c: Catalog, a: seq<Channel>, b: seq<Channel>, model: string,
                                              userGroups: set<string>, lookup: Lookup, counter: nat)
    requires counter < TWO_64 && DistinctIds(a) && DistinctIds(b) && forall ch :: ch in a <==> ch in b
    ensures Choose(Candidates(c, Enabled(a), model, userGroups, lookup), counter)
            == Choose(Candidates(c, Enabled(b), model, userGroups, lookup), counter)
  {
    hide Choose, Usable;
    EnabledDistinct(a);
    EnabledDistinct(b);
    CandidatesDistinct(c, Enabled(a), model, userGroups, lookup);
    CandidatesDistinct(c, Enabled(b), model, userGroups, lookup);
    ChooseIgnoresOrder(Candidates(c, Enabled(a), model, userGroups, lookup),
                       Candidates(c, Enabled(b), model, userGroups, lookup), counter);
  }

  lemma SameLength(a: seq<Channel>, b: seq<Channel>)
    requires DistinctIds(a) && DistinctIds(b) && forall ch :: ch in a <==> ch in b
    ensures |a| == |b|
  {
    SetSize(a);
    SetSize(b);
    assert forall x :: x in Elements(a) <==> x in a;
    assert forall x :: x in Elements(b) <==> x in b;
    assert Elements(a) == Elements(b);
  }

  function Elements(a: seq<Channel>): set<Channel>
  {
    set i | 0 <= i < |a| :: a[i]
  }

  lemma {:induction false} SetSize(a: seq<Channel>)
    requires DistinctIds(a)
    ensures |Elements(a)| == |a|
  {
    if a != [] {
      var n := |a| - 1;
      SetSize(a[..n]);
      assert a[n] !in Elements(a[..n]);
      assert Elements(a) == Elements(a[..n]) + {a[n]};
    }
  }

  // ---- Fairness ----------------------------------------------------------------------------

  /** How many of the counters `c, ..., c + k - 1` have remainder `r` modulo `n`. */
  function Hits(c: nat, k: nat, n: nat, r: nat): nat
    requires n > 0
  {
    if k == 0 then 0 else Hits(c, k - 1, n, r) + if (c + k - 1) % n == r then 1 else 0
  }

  lemma {:induction false} HitsSplit(c: nat, k: nat, l: nat, n: nat, r: nat)
    requires n > 0
    ensures Hits(c, k + l, n, r) == Hits(c, k, n, r) + Hits(c + k, l, n, r)
  {
    if l > 0 {
      HitsSplit(c, k, l - 1, n, r);
    }
  }

  lemma {:induction false} HitsBelow(k: nat, n: nat, r: nat)
    requires k <= n && r < n
    ensures Hits(0, k, n, r) == if r < k then 1 else 0
  {
    if k > 0 {
      HitsBelow(k - 1, n, r);
      RemainderUnique(k - 1, n, 0, k - 1);
    }
  }

  /** Any n consecutive counters hit every remainder once. */
  lemma {:induction false} HitsRound(c: nat, n: nat, r: nat)
    requires r < n
    ensures Hits(c, n, n, r) == 1
  {
    if c == 0 {
      HitsBelow(n, n, r);
    } else {
      HitsRound(c - 1, n, r);
      HitsSplit(c - 1, 1, n, n, r);
      HitsSplit(c - 1, n, 1, n, r);
      assert Hits(c - 1, 1, n, r) == if (c - 1) % n == r then 1 else 0;
      assert Hits(c - 1 + n, 1, n, r) == if (c - 1 + n) % n == r then 1 else 0;
      SameRemainder(c - 1, n);
    }
  }

  lemma {:induction false} HitsRounds(c: nat, m: nat, n: nat, r: nat)
    requires r < n
    ensures Hits(c, m * n, n, r) == m
  {
    if m > 0 {
      hide Hits;
      HitsRounds(c, m - 1, n, r);
      MulStep(m, n);
      var k := (m - 1) * n;
      HitsSplit(c, k, n, n, r);
      HitsRound(c + k, n, r);
    }
  }

  /** How often a channel is selected. */
  function Times(selections: seq<Selection>, ch: Channel): nat
  {
    if selections == [] then 0
    else Times(selections[..|selections| - 1], ch) + if selections[|selections| - 1] == Selected(ch) then 1 else 0
  }

  /** Selections by consecutive counters, each channel counted by its place. */
  lemma {:induction false} TimesAreHits(best: seq<Channel>, c: nat, selections: seq<Selection>, j: nat)
    requires best != [] && SortedById(best) && j < |best| && c + |selections| <= TWO_63
    requires forall i :: 0 <= i < |selections| ==> selections[i] == RoundRobin(best, c + i)
    ensures Times(selections, best[j]) == Hits(c, |selections|, |best|, j)
  {
    if selections != [] {
      var k := |selections| - 1;
      TimesAreHits(best, c, selections[..k], j);
      var at := (c + k) % |best|;
      assert selections[k] == Selected(best[at]);
      BeforeTotal(best[j].id, best[j].id);
      assert best[at] == best[j] <==> at == j;
    }
  }

  /** The i-th of consecutive selections from counter value `c` on; a single candidate leaves the counter alone. */
  function Turn(cs: seq<Channel>, c: nat, i: nat): Selection
    requires c < TWO_64 && (|cs| > 1 ==> c + i < TWO_64)
  {
    Choose(cs, if |cs| > 1 then c + i else c)
  }

  /** Over m rounds of consecutive selections each of the n best channels is chosen exactly m times. */
  lemma Fairness(cs: seq<Channel>, c: nat, m: nat, selections: seq<Selection>)
    requires cs != [] && DistinctIds(cs) && c < TWO_64
    requires |selections| == m * |Best(cs)| && (|cs| > 1 ==> c + |selections| <= TWO_63)
    requires forall i :: 0 <= i < |selections| ==> selections[i] == Turn(cs, c, i)
    ensures forall ch :: ch in Best(cs) ==> Times(selections, ch) == m
  {
    hide Best, RoundRobin, Hits, Times;
    var best := Best(cs);
    BestIsSorted(cs);
    if |cs| == 1 {
      OneCandidate(cs);
      AlwaysChosen(cs[0], selections);
    } else {
      forall ch | ch in best
        ensures Times(selections, ch) == m
      {
        var j :| 0 <= j < |best| && best[j] == ch;
        TimesAreHits(best, c, selections, j);
        HitsRounds(c, m, |best|, j);
      }
    }
  }

  lemma OneCandidate(cs: seq<Channel>)
    requires |cs| == 1
    ensures Best(cs) == cs
  {
    assert cs[..0] == [];
  }

  lemma {:induction false} AlwaysChosen(ch: Channel, selections: seq<Selection>)
    requires forall i :: 0 <= i < |selections| ==> selections[i] == Selected(ch)
    ensures Times(selections, ch) == |selections|
  {
    if selections != [] {
      AlwaysChosen(ch, selections[..|selections| - 1]);
    }
  }

  /**
    * A selection fails exactly when there is a choice to make, the counter has passed 2^63, where it converts to a negative
    * number, and the remainder is then not zero.
    */
  lemma PanicIff(cs: seq<Channel>, counter: nat)
    requires counter < TWO_64
    ensures Choose(cs, counter) == Panic <==>
            |cs| > 1 && counter >= 0x8000_0000_0000_0000 && (0x1_0000_0000_0000_0000 - counter) % |Best(cs)| != 0
    ensures cs != [] && Choose(cs, counter) != Panic ==> Choose(cs, counter).Selected?
  {
    hide Best;
  }

  /** With any three equally good channels the selection at counter 2^63 fails. */
  lemma PanicsAt(config: string)
    ensures var cs := [Channel("a", 0, true, config), Channel("b", 0, true, config), Channel("c", 0, true, config)];
            |Best(cs)| == 3 && Choose(cs, TWO_63) == Panic
  {
    var cs := [Channel("a", 0, true, config), Channel("b", 0, true, config), Channel("c", 0, true, config)];
    assert cs[0] in cs && MinPriority(cs) == 0;
    AllOfOnePriority(cs, 0);
    SortSorts(cs);
    hide Best;
    PanicIff(cs, TWO_63);
  }

  lemma {:induction false} AllOfOnePriority(cs: seq<Channel>, p: int)
    requires forall i :: 0 <= i < |cs| ==> cs[i].priority == p
    ensures WithPriority(cs, p) == cs
  {
    if cs != [] {
      var front, last := cs[..|cs| - 1], cs[|cs| - 1];
      AllOfOnePriority(front, p);
      assert cs == front + [last];
    }
  }

  // ---- The service -------------------------------------------------------------------------

  class ChannelService {
    const catalog: Catalog
    var rrCounter: map<string, nat>  // atomic uint64 counters, one per model

    constructor (catalog: Catalog)
      ensures this.catalog == catalog && rrCounter == map[]
    {
      this.catalog := catalog;
      rrCounter := map[];
    }

    ghost predicate Valid()
      reads this
    {
      forall key :: key in rrCounter ==> rrCounter[key] < TWO_64
    }

    function CounterOf(model: string): nat
      reads this
    {
      if model in rrCounter then rrCounter[model] else 0
    }

    /** counter.Add(1) - 1, with uint64 wrap-around. */
    method NextCounter(model: string) returns (counter: nat)
      requires Valid()
      modifies this
      ensures Valid() && counter == old(CounterOf(model)) && counter < TWO_64
      ensures rrCounter == old(rrCounter)[model := (counter + 1) % TWO_64]
    {
      counter := CounterOf(model);
      rrCounter := rrCounter[model := (counter + 1) % TWO_64];
    }

    /** The two passes over the repository's list: matching channels, then those the user may use. */
    method CollectCandidates(model: string, userGroups: set<string>, lookup: Lookup) returns (candidates: seq<Channel>)
      ensures candidates == Candidates(catalog, Enabled(catalog.channels), model, userGroups, lookup)
    {
      var channels := Enabled(catalog.channels);
      var matching: seq<Channel> := [];
      for i := 0 to |channels|
        invariant matching == Matching(catalog, channels[..i], model)
      {
        assert channels[..i + 1][..i] == channels[..i];
        if catalog.matches(channels[i], model) {
          matching := matching + [channels[i]];
        }
      }
      assert channels[..|channels|] == channels;
      candidates := [];
      for i := 0 to |matching|
        invariant candidates == Reachable(catalog, matching[..i], userGroups, lookup)
      {
        assert matching[..i + 1][..i] == matching[..i];
        var ch := matching[i];
        if lookup.Singly? && ch.id in lookup.failing {
          continue;
        }
        if Accessible(GroupsOf(catalog, ch.id), userGroups) {
          candidates := candidates + [ch];
        }
      }
      assert matching[..|matching|] == matching;
      TwoPasses(catalog, channels, model, userGroups, lookup);
    }

    /** SelectChannelForModelWithGroups. */
    method SelectChannelForModelWithGroups(model: string, groupIDs: seq<string>, lookup: Lookup) returns (r: Selection)
      requires Valid()
      modifies this
      ensures Valid()
      ensures var cs := Candidates(catalog, Enabled(catalog.channels), model, ToSet(groupIDs), lookup);
              && r == Choose(cs, old(CounterOf(model)))
              && rrCounter == if |cs| > 1 then old(rrCounter)[model := (old(CounterOf(model)) + 1) % TWO_64] else old(rrCounter)
    {
      hide Enabled, Candidates, Usable, MinPriority, WithPriority, SortById;
      var candidates := CollectCandidates(model, ToSet(groupIDs), lookup);
      CounterBound(model);
      if |candidates| == 0 {
        return NoChannel;
      }
      if |candidates| == 1 {
        return Selected(candidates[0]);
      }
      var minPriority := LeastPriority(candidates);
      var priorityCandidates := SortById(WithPriority(candidates, minPriority));
      var counter := NextCounter(model);
      var idx := ToInt(counter);
      if idx >= 0 {
        return Selected(priorityCandidates[idx % |priorityCandidates|]);
      }
      if (-idx) % |priorityCandidates| == 0 {
        return Selected(priorityCandidates[0]);
      }
      return Panic;
    }

    lemma CounterBound(model: string)
      requires Valid()
      ensures CounterOf(model) < TWO_64
    {
    }

    /** SelectSpecificChannelForModelWithGroups, for lookups that succeed. */
    method SelectSpecificChannel(id: Id, model: string, groupIDs: seq<string>) returns (r: Option<Channel>)
      requires DistinctIds(catalog.channels)
      ensures r.Some? <==> exists ch :: ch in catalog.channels && Acceptable(catalog, ch, id, model, ToSet(groupIDs))
      ensures r.Some? ==> r.value in catalog.channels && Acceptable(catalog, r.value, id, model, ToSet(groupIDs))
    {
      if id == [] {
        return None;
      }
      var i := 0;
      while i < |catalog.channels| && catalog.channels[i].id != id
        invariant i <= |catalog.channels| && forall k :: 0 <= k < i ==> catalog.channels[k].id != id
      {
        i := i + 1;
      }
      if i == |catalog.channels| {
        return None;
      }
      var channel := catalog.channels[i];
      assert forall ch :: ch in catalog.channels && ch.id == id ==> ch == channel;
      if !channel.enabled {
        return None;
      }
      if !catalog.matches(channel, model) {
        return None;
      }
      if !Accessible(GroupsOf(catalog, id), ToSet(groupIDs)) {
        return None;
      }
      assert Acceptable(catalog, channel, id, model, ToSet(groupIDs));
      return Some(channel);
    }
  }

  /** The loop over the candidates for the least priority number. */
  method LeastPriority(cs: seq<Channel>) returns (p: int)
    requires cs != []
    ensures p == MinPriority(cs)
  {
    p := cs[0].priority;
    for i := 0 to |cs|
      invariant i > 0 ==> p == MinPriority(cs[..i])
      invariant i == 0 ==> p == cs[0].priority
    {
      assert cs[..i + 1][..i] == cs[..i];
      if cs[i].priority < p {
        p := cs[i].priority;
      }
    }
    assert cs[..|cs|] == cs;
  }

  function Matching(c: Catalog, channels: seq<Channel>, model: string): seq<Channel>
  {
    if channels == [] then []
    else
      var last := channels[|channels| - 1];
      Matching(c, channels[..|channels| - 1], model) + if c.matches(last, model) then [last] else []
  }

  function Reachable(c: Catalog, channels: seq<Channel>, userGroups: set<string>, lookup: Lookup): seq<Channel>
  {
    if channels == [] then []
    else
      var last := channels[|channels| - 1];
      Reachable(c, channels[..|channels| - 1], userGroups, lookup)
      + if !(lookup.Singly? && last.id in lookup.failing) && Accessible(GroupsOf(c, last.id), userGroups) then [last] else []
  }

  lemma ReachableSnoc(c: Catalog, channels: seq<Channel>, last: Channel, userGroups: set<string>, lookup: Lookup)
    ensures Reachable(c, channels + [last], userGroups, lookup) ==
            Reachable(c, channels, userGroups, lookup)
            + if !(lookup.Singly? && last.id in lookup.failing) && Accessible(GroupsOf(c, last.id), userGroups) then [last] else []
  {
    hide Accessible, GroupsOf;
    assert (channels + [last])[..|channels|] == channels;
  }

  lemma {:induction false} TwoPasses(c: Catalog, channels: seq<Channel>, model: string, userGroups: set<string>, lookup: Lookup)
    ensures Reachable(c, Matching(c, channels, model), userGroups, lookup) == Candidates(c, channels, model, userGroups, lookup)
  {
    hide Accessible, GroupsOf, Reachable;
    if channels == [] {
      NothingReachable(c, userGroups, lookup);
    } else {
      var n := |channels| - 1;
      TwoPasses(c, channels[..n], model, userGroups, lookup);
      var front, last := Matching(c, channels[..n], model), channels[n];
      ReachableSnoc(c, front, last, userGroups, lookup);
      assert Matching(c, channels, model) == if c.matches(last, model) then front + [last] else front;
      var all := Candidates(c, channels[..n], model, userGroups, lookup);
      assert all + [] == all;
    }
  }

  lemma NothingReachable(c: Catalog, userGroups: set<string>, lookup: Lookup)
    ensures Reachable(c, [], userGroups, lookup) == []
  {
  }

  /** What a user may ask for by name. */
  predicate Acceptable(c: Catalog, ch: Channel, id: Id, model: string, userGroups: set<string>)
  {
    ch.id == id && id != [] && ch.enabled && c.matches(ch, model) && Accessible(GroupsOf(c, id), userGroups)
  }

  /** Every channel a selection gives could also have been asked for by its id. */
  lemma ChosenIsAcceptable(c: Catalog, model: string, userGroups: set<string>, lookup: Lookup, counter: nat)
    requires counter < TWO_64 && forall ch :: ch in c.channels ==> ch.id != []
    ensures var r := Choose(Candidates(c, Enabled(c.channels), model, userGroups, lookup), counter);
            r.Selected? ==> r.channel in c.channels && Acceptable(c, r.channel, r.channel.id, model, userGroups)
  {
    var cs := Candidates(c, Enabled(c.channels), model, userGroups, lookup);
    hide Candidates, Enabled, Accessible;
    if |cs| > 1 {
      assert forall ch :: ch in Best(cs) ==> ch in cs;
    }
  }

  /** m rounds of selections for one model on an unchanged catalog: each best channel is chosen exactly m times. */
  method SelectRounds(s: ChannelService, model: string, groupIDs: seq<string>, lookup: Lookup, m: nat)
    returns (selections: seq<Selection>)
    requires s.Valid() && DistinctIds(s.catalog.channels)
    requires var cs := Candidates(s.catalog, Enabled(s.catalog.channels), model, ToSet(groupIDs), lookup);
             cs != [] && (|cs| > 1 ==> s.CounterOf(model) + m * |Best(cs)| <= TWO_63)
    modifies s
    ensures var best := Best(Candidates(s.catalog, Enabled(s.catalog.channels), model, ToSet(groupIDs), lookup));
            |selections| == m * |best| && forall ch :: ch in best ==> Times(selections, ch) == m
  {
    hide Enabled, Candidates, Best, Choose, Usable;
    ghost var cs := Candidates(s.catalog, Enabled(s.catalog.channels), model, ToSet(groupIDs), lookup);
    ghost var c := s.CounterOf(model);
    s.CounterBound(model);
    var n := |Best(Candidates(s.catalog, Enabled(s.catalog.channels), model, ToSet(groupIDs), lookup))|;
    selections := [];
    for i := 0 to m * n
      invariant s.Valid() && |selections| == i && s.CounterOf(model) == if |cs| > 1 then c + i else c
      invariant forall k :: 0 <= k < i ==> selections[k] == Turn(cs, c, k)
    {
      var r := s.SelectChannelForModelWithGroups(model, groupIDs, lookup);
      selections := selections + [r];
    }
    EnabledDistinct(s.catalog.channels);
    CandidatesDistinct(s.catalog, Enabled(s.catalog.channels), model, ToSet(groupIDs), lookup);
    Fairness(cs, c, m, selections);
  }
}

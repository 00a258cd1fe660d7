/** What a channel selection promises, on the tables themselves. */
module SelectionRules {
  import opened Channels

  /** Ids differ first at `i`, where `a` has the smaller character. */
  predicate SmallerAt(a: Id, b: Id, i: nat)
  {
    i < |a| && i < |b| && a[..i] == b[..i] && a[i] < b[i]
  }

  /** The order of ids: a proper beginning comes first, and otherwise the first difference decides. */
  lemma {:induction false} BeforeIs(a: Id, b: Id)
    ensures Before(a, b) <==> (|a| < |b| && a <= b) || exists i: nat :: SmallerAt(a, b, i)
  {
    if a != [] && b != [] {
      if a[0] < b[0] {
        assert SmallerAt(a, b, 0);
      } else if a[0] == b[0] {
        BeforeIs(a[1..], b[1..]);
        assert a == [a[0]] + a[1..] && b == [b[0]] + b[1..];
        forall i: nat | SmallerAt(a[1..], b[1..], i)
          ensures SmallerAt(a, b, i + 1)
        {
          assert a[..i + 1] == [a[0]] + a[1..][..i] && b[..i + 1] == [b[0]] + b[1..][..i];
        }
        forall i: nat | SmallerAt(a, b, i)
          ensures i > 0 && SmallerAt(a[1..], b[1..], i - 1)
        {
          assert a[1..][..i - 1] == a[..i][1..] && b[1..][..i - 1] == b[..i][1..];
        }
      } else {
        forall i: nat
          ensures !SmallerAt(a, b, i)
        {
          if 0 < i <= |a| && i <= |b| {
            assert a[..i][0] == a[0] && b[..i][0] == b[0];
          }
        }
      }
    }
  }

  /** A channel without groups is open to everybody, any other to the users that have one of its groups. */
  ghost predicate OpenTo(c: Catalog, ch: Channel, userGroups: set<string>)
  {
    ch.id !in c.groups || c.groups[ch.id] == [] || exists g :: g in c.groups[ch.id] && g in userGroups
  }

  lemma OpenIsAccessible(c: Catalog, ch: Channel, userGroups: set<string>)
    ensures Accessible(GroupsOf(c, ch.id), userGroups) <==> OpenTo(c, ch, userGroups)
  {
    var groups := GroupsOf(c, ch.id);
    if i :| 0 <= i < |groups| && groups[i] in userGroups {
      assert groups[i] in c.groups[ch.id];
    }
    if g :| g in groups && g in userGroups {
      var i :| 0 <= i < |groups| && groups[i] == g;
    }
  }

  /** Whether a channel may serve a model for a user. */
  ghost predicate MayServe(c: Catalog, ch: Channel, model: string, userGroups: set<string>)
  {
    ch in c.channels && ch.enabled && c.matches(ch, model) && OpenTo(c, ch, userGroups)
  }

  lemma CandidateRule(c: Catalog, ch: Channel, model: string, userGroups: set<string>, lookup: Lookup)
    ensures ch in Candidates(c, Enabled(c.channels), model, userGroups, lookup) <==>
            MayServe(c, ch, model, userGroups) && !(lookup.Singly? && ch.id in lookup.failing)
  {
    OpenIsAccessible(c, ch, userGroups);
    hide Accessible, GroupsOf, OpenTo;
  }

  /** A selection gives one of the candidates, if there is any. */
  lemma ChosenFrom(cs: seq<Channel>, counter: nat)
    requires counter < TWO_63
    ensures var r := Choose(cs, counter); (r.Selected? <==> cs != []) && (r.Selected? ==> r.channel in cs)
  {
    if |cs| > 1 {
      var best := Best(cs);
      assert forall ch :: ch in best ==> ch in cs;
      hide Best, MinPriority;
      assert best[counter % |best|] in best;
    }
  }

  /** A channel is found exactly if one may serve the model for the user, and what is found is such a channel. */
  lemma SelectionRule(c: Catalog, model: string, userGroups: set<string>, counter: nat)
    requires counter < TWO_63
    ensures var r := Choose(Candidates(c, Enabled(c.channels), model, userGroups, Batch), counter);
            && (r.Selected? <==> exists ch :: MayServe(c, ch, model, userGroups))
            && (r.Selected? ==> MayServe(c, r.channel, model, userGroups))
  {
    hide *;
    var cs := Candidates(c, Enabled(c.channels), model, userGroups, Batch);
    ChosenFrom(cs, counter);
    forall ch
      ensures ch in cs <==> MayServe(c, ch, model, userGroups)
    {
      CandidateRule(c, ch, model, userGroups, Batch);
    }
    if cs != [] {
      assert cs[0] in cs;
    }
  }

  /** A lookup that fails for a channel, when groups are looked up singly, leaves that channel out. */
  lemma FailedLookupLeavesOut(c: Catalog, model: string, userGroups: set<string>, failing: set<Id>, counter: nat)
    requires counter < TWO_63
    ensures var r := Choose(Candidates(c, Enabled(c.channels), model, userGroups, Singly(failing)), counter);
            r.Selected? ==> r.channel.id !in failing
  {
    hide Candidates, Enabled, Choose, MayServe;
    var cs := Candidates(c, Enabled(c.channels), model, userGroups, Singly(failing));
    ChosenFrom(cs, counter);
    var r := Choose(cs, counter);
    if r.Selected? {
      CandidateRule(c, r.channel, model, userGroups, Singly(failing));
    }
  }

  function Peers(cs: seq<Channel>, p: int): set<Channel>
  {
    set ch | ch in cs && ch.priority == p
  }

  /** Of the n channels with the least priority number, the one with counter mod n smaller ids is chosen. */
  lemma ChosenByRank(cs: seq<Channel>, counter: nat)
    requires |cs| > 1 && DistinctIds(cs) && counter < TWO_63
    ensures var r := Choose(cs, counter);
            && r.Selected? && r.channel in cs && (forall ch :: ch in cs ==> r.channel.priority <= ch.priority)
            && var peers := Peers(cs, r.channel.priority);
               |peers| > 0 && |set ch | ch in peers && Before(ch.id, r.channel.id)| == counter % |peers|
  {
    hide MinPriority;
    var best, p := Best(cs), MinPriority(cs);
    BestIsSorted(cs);
    hide Best;
    var at := counter % |best|;
    var chosen := best[at];
    assert Choose(cs, counter) == Selected(chosen);
    assert chosen in best;
    SortedSize(best, |best|);
    SortedSize(best, at);
    assert best[..|best|] == best;
    assert Peers(cs, p) == Elements(best);
    RankIs(best, at);
    assert (set ch | ch in Peers(cs, p) && Before(ch.id, chosen.id)) == Elements(best[..at]);
  }

  lemma SortedSize(best: seq<Channel>, k: nat)
    requires SortedById(best) && k <= |best|
    ensures |Elements(best[..k])| == k
  {
    forall i, j | 0 <= i < j < k
      ensures best[i].id != best[j].id
    {
      BeforeTotal(best[i].id, best[j].id);
    }
    SetSize(best[..k]);
  }

  lemma RankIs(best: seq<Channel>, at: nat)
    requires SortedById(best) && at < |best|
    ensures forall ch :: ch in best && Before(ch.id, best[at].id) <==> ch in Elements(best[..at])
  {
    forall i | 0 <= i < |best|
      ensures Before(best[i].id, best[at].id) <==> i < at
    {
      BeforeTotal(best[i].id, best[at].id);
    }
  }
}

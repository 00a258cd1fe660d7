/** What settlements do to the tables, stated on the tables themselves. */
module SettlementRules {
  import opened Arithmetic
  import opened Clock
  import opened Windows
  import opened Ledger
  import opened Runs
  import opened Options

  // ---- Usage in a window ---------------------------------------------------------------------

  /** Subscription charges of one subscription from one moment up to, but not including, another. */
  function ChargesBetween(events: seq<BillingEvent>, sub: string, from: Time, to: Time): nat
  {
    if events == [] then 0
    else
      var e := events[0];
      (if e.kind == Charge && e.source == Subscription && e.sub == Some(sub) && from <= e.at < to then e.amount else 0)
      + ChargesBetween(events[1..], sub, from, to)
  }

  lemma {:induction false} ChargesBetweenSnoc(events: seq<BillingEvent>, e: BillingEvent, sub: string, from: Time, to: Time)
    ensures ChargesBetween(events + [e], sub, from, to) ==
            ChargesBetween(events, sub, from, to)
            + if e.kind == Charge && e.source == Subscription && e.sub == Some(sub) && from <= e.at < to then e.amount else 0
  {
    if events == [] {
      assert [e][1..] == [];
    } else {
      assert (events + [e])[1..] == events[1..] + [e];
      ChargesBetweenSnoc(events[1..], e, sub, from, to);
    }
  }

  /** The usage of a window, where nothing was refunded, is what was charged in it. */
  lemma {:induction false} UsageIsCharges(events: seq<BillingEvent>, sub: string, w: Window)
    requires OnlyCharges(events)
    ensures Usage(events, sub, w) == ChargesBetween(events, sub, w.start, w.end)
  {
    if events != [] {
      var n := |events| - 1;
      UsageIsCharges(events[..n], sub, w);
      ChargesBetweenSnoc(events[..n], events[n], sub, w.start, w.end);
      assert events[..n] + [events[n]] == events;
    }
  }

  /** One more event: charges of the subscription in the window add to its usage, refunds take away, all else does not count. */
  lemma OneMoreEvent(events: seq<BillingEvent>, e: BillingEvent, sub: string, w: Window)
    ensures Usage(events + [e], sub, w) - Usage(events, sub, w) ==
            if e.source != Subscription || e.sub != Some(sub) || e.at < w.start || e.at >= w.end then 0
            else if e.kind == Charge then e.amount else if e.kind == Refund then 0 - e.amount else 0
  {
    UsageSnoc(events, e, sub, w);
    hide Usage;
  }

  /** A charge lowers what is left under a sliding limit from the moment after it, for as long as the limit reaches back. */
  lemma ChargeCountsForSpan(events: seq<BillingEvent>, e: BillingEvent, sub: ActiveSub, limit: Limit, now: nat)
    requires Calendar(limit.limitType) && limit.limitType != Monthly && limit.mode == Sliding
    requires e.kind == Charge && e.source == Subscription && e.sub == Some(sub.id)
    requires 0 < e.amount <= Left(events, sub, limit, now)
    ensures Left(events + [e], sub, limit, now) ==
            Left(events, sub, limit, now) - if e.at < now <= e.at + Span(limit.limitType) then e.amount else 0
  {
    var w := WindowAt(limit.limitType, limit.mode, now, sub.startsAt);
    OneMoreEvent(events, e, sub.id, w);
    SlidingContains(limit.limitType, now, e.at, sub.startsAt);
    hide Usage, GetWindowBounds;
  }

  /** On every run of serialised settlements no stretch of time of a limit's span ever holds more charges than the limit. */
  lemma SpanNeverExceeded(c: Config, b: Books, actions: seq<Action>, user: string, limit: Limit, t: nat)
    requires ValidConfig(c) && user in c.subs && limit in LimitsOf(c, c.subs[user].plan)
    requires Calendar(limit.limitType) && limit.limitType != Monthly && limit.mode == Sliding
    requires b.events == [] && Serialised(c, b, actions, false)
    ensures ChargesBetween(Run(c, b, actions).events, c.subs[user].id, t - Span(limit.limitType), t) <= limit.micros
  {
    hide GetWindowBounds, Usage, Run, Serialised;
    var sub := c.subs[user];
    forall u: nat
      ensures Usage(b.events, sub.id, LimitWindow(limit, sub, u)) <= limit.micros
    {
      UsageEmpty(b.events, sub.id, LimitWindow(limit, sub, u));
    }
    LimitsKept(c, b, actions, user, limit);
    var w := LimitWindow(limit, sub, t);
    UsageIsCharges(Run(c, b, actions).events, sub.id, w);
    SlidingIs(limit.limitType, t, sub.startsAt);
  }

  lemma SlidingIs(limitType: LimitType, now: nat, startsAt: Time)
    requires Calendar(limitType) && limitType != Monthly
    ensures WindowAt(limitType, Sliding, now, startsAt) == Window(now - Span(limitType), now)
  {
  }

  // ---- Which source pays ---------------------------------------------------------------------

  /** A user whose row puts the balance first pays from it, as long as it lasts, and the subscription is left alone. */
  lemma BalanceFirst(c: Config, b: Books, r: Request)
    requires r.user in c.settings && c.settings[r.user].primary == Balance
    requires r.user in b.balances && b.balances[r.user] >= r.cost > 0 && Settle(c, b, r).Done?
    ensures var after := Settle(c, b, r).books;
            && after.balances == b.balances[r.user := b.balances[r.user] - r.cost]
            && after.events == b.events + [BillingEvent(r.id, r.user, None, Balance, Charge, r.cost, r.clocks.stamp)]
  {
    hide RemainingFor, Charged;
    assert SplitFor(c, b, r) == Split(0, r.cost);
  }

  /** A user whose row puts the subscription first, or who has none, pays from it while every limit has enough left. */
  lemma SubscriptionFirst(c: Config, b: Books, r: Request)
    requires r.user in c.settings ==> c.settings[r.user].primary == Subscription
    requires r.user in c.subs && (c.subs[r.user].expiresAt.None? || c.subs[r.user].expiresAt.value > r.clocks.query)
    requires c.subs[r.user].plan in c.plans && Known(c.plans[c.subs[r.user].plan])
    requires var sub, limits := c.subs[r.user], c.plans[c.subs[r.user].plan];
             && (forall i :: 0 <= i < |limits| ==> Left(b.events, sub, limits[i], r.clocks.check) >= r.cost)
             && (exists i :: 0 <= i < |limits| && Left(b.events, sub, limits[i], r.clocks.check) < MAX_INT64)
    requires r.cost > 0 && Settle(c, b, r).Done?
    ensures var after := Settle(c, b, r).books;
            && after.balances == b.balances
            && after.events ==
               b.events + [BillingEvent(r.id, r.user, Some(c.subs[r.user].id), Subscription, Charge, r.cost, r.clocks.stamp)]
  {
    var sub, limits := c.subs[r.user], c.plans[c.subs[r.user].plan];
    RemainingMeaning(b.events, sub, limits, r.clocks.check);
    hide Remaining, Left, Charged;
    assert RemainingFor(c, b, r) >= r.cost;
    assert SplitFor(c, b, r) == Split(r.cost, 0);
  }

  /** A subscription that has expired when it is looked up, or that does not exist, pays nothing. */
  lemma ExpiredPaysNothing(c: Config, b: Books, r: Request)
    requires r.user !in c.subs || (c.subs[r.user].expiresAt.Some? && c.subs[r.user].expiresAt.value <= r.clocks.query)
    requires r.cost > 0 && Settle(c, b, r).Done?
    ensures var after := Settle(c, b, r).books.events;
            && b.events <= after
            && forall i :: |b.events| <= i < |after| ==> after[i].source == Balance
  {
    hide Charged;
    assert SplitFor(c, b, r).subscription == 0;
  }

  /** Nothing is charged for a request without cost, and nothing is done about a negative one. */
  lemma NoCostNoCharge(c: Config, b: Books, r: Request)
    requires r.cost <= 0
    ensures r.cost < 0 ==> Settle(c, b, r) == Failed
    ensures Settle(c, b, r).Done? ==>
              var after := Settle(c, b, r).books;
              && after.balances == b.balances && after.events == b.events
              && (r.id in b.logs ==> after.logs[r.id] == LogRow(0, 0, Free))
  {
  }

  /** A settlement stamps, names and records what it charges: every new event is a charge of this request and user. */
  lemma NewEventsAreTheRequests(c: Config, b: Books, r: Request)
    requires r.cost > 0 && Settle(c, b, r).Done?
    ensures var after := Settle(c, b, r).books.events;
            && b.events <= after && |after| <= |b.events| + 2
            && forall i :: |b.events| <= i < |after| ==>
                 var e := after[i];
                 && e.request == r.id && e.user == r.user && e.kind == Charge && e.at == r.clocks.stamp && e.amount > 0
                 && (if e.source == Subscription then r.user in c.subs && e.sub == Some(c.subs[r.user].id) else e.sub == None)
  {
    hide SplitFor, Charged;
    var split := SplitFor(c, b, r);
    var x, y := SubscriptionEvents(c, r, split.subscription), BalanceEvents(r, split.balance);
    var after := Settle(c, b, r).books.events;
    assert after == b.events + x + y;
    assert forall i :: |b.events| <= i < |after| ==> after[i] in x + y;
  }
}

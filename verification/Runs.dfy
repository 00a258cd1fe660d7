/** What every run of top-ups and settlements keeps. */
module Runs {
  import opened Arithmetic
  import opened Clock
  import opened Windows
  import opened Ledger
  import opened BillingServices
  import opened Options

  /** Settlements are serialised; a deposit is positive (the handler rejects any other). */
  datatype Action = Settlement(request: Request) | Deposit(user: string, amount: nat)

  function Step(c: Config, b: Books, a: Action): Books
  {
    match a
    case Settlement(r) => (match Settle(c, b, r) case Done(b') => b' case Failed => b)
    case Deposit(user, amount) => TopUp(b, user, amount)
  }

  function Run(c: Config, b: Books, actions: seq<Action>): Books
  {
    if actions == [] then b else Step(c, Run(c, b, actions[..|actions| - 1]), actions[|actions| - 1])
  }

  // ---- Conservation ------------------------------------------------------------------------

  /** Balance charges on record for a user. */
  function BalanceCharges(events: seq<BillingEvent>, user: string): nat
  {
    if events == [] then 0
    else
      var e := events[|events| - 1];
      BalanceCharges(events[..|events| - 1], user)
      + if e.user == user && e.source == Balance && e.kind == Charge then e.amount else 0
  }

  function Deposits(b: Books, user: string, actions: seq<Action>): nat
  {
    if actions == [] then 0
    else
      var a := actions[|actions| - 1];
      Deposits(b, user, actions[..|actions| - 1])
      + if a.Deposit? && a.user == user && user in b.balances then a.amount else 0
  }

  lemma BalanceChargesSnoc(events: seq<BillingEvent>, e: BillingEvent, user: string)
    ensures BalanceCharges(events + [e], user) ==
            BalanceCharges(events, user) + if e.user == user && e.source == Balance && e.kind == Charge then e.amount else 0
  {
    assert (events + [e])[..|events|] == events;
  }

  lemma BalanceChargesBooked(c: Config, b: Books, r: Request, split: Split, user: string)
    ensures BalanceCharges(Booked(c, b, r, split).events, user) ==
            BalanceCharges(b.events, user) + if user == r.user then split.balance else 0
  {
    hide BalanceCharges;
    var subEvents, balEvents := SubscriptionEvents(c, r, split.subscription), BalanceEvents(r, split.balance);
    var middle := b.events + subEvents;
    if subEvents == [] {
      assert middle == b.events;
    } else {
      BalanceChargesSnoc(b.events, subEvents[0], user);
      assert middle == b.events + [subEvents[0]];
    }
    if balEvents == [] {
      assert middle + balEvents == middle;
    } else {
      BalanceChargesSnoc(middle, balEvents[0], user);
      assert balEvents == [balEvents[0]];
    }
  }

  /** One step: what a user's balance loses is on record, what it gains was deposited, and it stays non-negative. */
  lemma StepConserves(c: Config, b: Books, a: Action, user: string)
    requires BalanceOf(b, user) >= 0
    ensures var b' := Step(c, b, a);
            && b'.balances.Keys == b.balances.Keys
            && BalanceOf(b', user) >= 0
            && BalanceOf(b', user) + BalanceCharges(b'.events, user) ==
               BalanceOf(b, user) + BalanceCharges(b.events, user)
               + if a.Deposit? && a.user == user && user in b.balances then a.amount else 0
  {
    hide BalanceCharges;
    if a.Settlement? && a.request.cost > 0 && Settle(c, b, a.request).Done? {
      var r := a.request;
      var split := SplitFor(c, b, r);
      BalanceChargesBooked(c, b, r, split, user);
      SplitWithinFunds(SettingOf(c, r.user), r.cost, RemainingFor(c, b, r), BalanceOf(b, r.user));
      hide SplitFor;
    }
  }

  /** Over any run: the final balance is the initial one, plus deposits, minus the balance charges on record; never negative. */
  lemma {:induction false} Conservation(c: Config, b: Books, actions: seq<Action>, user: string)
    requires BalanceOf(b, user) >= 0
    ensures var b' := Run(c, b, actions);
            && b'.balances.Keys == b.balances.Keys
            && BalanceOf(b', user) >= 0
            && BalanceOf(b', user) + BalanceCharges(b'.events, user) ==
               BalanceOf(b, user) + BalanceCharges(b.events, user) + Deposits(b, user, actions)
  {
    hide BalanceCharges, Step;
    if actions != [] {
      var n := |actions| - 1;
      Conservation(c, b, actions[..n], user);
      StepConserves(c, Run(c, b, actions[..n]), actions[n], user);
    }
  }

  // ---- At most one charge per request and source --------------------------------------------

  ghost predicate ChargedOnce(events: seq<BillingEvent>)
  {
    forall i, j :: 0 <= i < j < |events| && events[i].kind == Charge && events[j].kind == Charge ==>
      events[i].request != events[j].request || events[i].source != events[j].source
  }

  lemma {:induction false} ChargedOnceKept(c: Config, b: Books, actions: seq<Action>)
    requires ChargedOnce(b.events)
    ensures ChargedOnce(Run(c, b, actions).events)
  {
    if actions != [] {
      var n := |actions| - 1;
      ChargedOnceKept(c, b, actions[..n]);
      ChargedOnceStep(c, Run(c, b, actions[..n]), actions[n]);
    }
  }

  lemma ChargedOnceStep(c: Config, b: Books, a: Action)
    requires ChargedOnce(b.events)
    ensures ChargedOnce(Step(c, b, a).events)
  {
    hide SplitFor;
    if a.Settlement? && a.request.cost > 0 && Settle(c, b, a.request).Done? {
      var r := a.request;
      var split := SplitFor(c, b, r);
      var subEvents, balEvents := SubscriptionEvents(c, r, split.subscription), BalanceEvents(r, split.balance);
      var after := Step(c, b, a).events;
      assert after == b.events + subEvents + balEvents;
      assert |subEvents| <= 1 && |balEvents| <= 1;
      assert forall i :: 0 <= i < |b.events| ==> after[i] == b.events[i];
      assert forall i :: |b.events| <= i < |after| ==> after[i] in subEvents + balEvents;
    }
  }

  // ---- How one settlement divides its cost --------------------------------------------------

  /** What a request has been charged in all. */
  function RequestTotal(events: seq<BillingEvent>, request: string): nat
  {
    if events == [] then 0
    else
      var e := events[|events| - 1];
      RequestTotal(events[..|events| - 1], request) + if e.request == request && e.kind == Charge then e.amount else 0
  }

  lemma RequestTotalSnoc(events: seq<BillingEvent>, e: BillingEvent, request: string)
    ensures RequestTotal(events + [e], request) ==
            RequestTotal(events, request) + if e.request == request && e.kind == Charge then e.amount else 0
  {
    assert (events + [e])[..|events|] == events;
  }

  lemma RequestTotalBooked(c: Config, b: Books, r: Request, split: Split)
    requires split.subscription > 0 ==> SubOf(c, r.user, r.clocks.query).Some?
    ensures RequestTotal(Booked(c, b, r, split).events, r.id) == RequestTotal(b.events, r.id) + split.subscription + split.balance
  {
    hide RequestTotal, SubOf;
    var subEvents, balEvents := SubscriptionEvents(c, r, split.subscription), BalanceEvents(r, split.balance);
    var middle := b.events + subEvents;
    if subEvents == [] {
      assert middle == b.events;
    } else {
      RequestTotalSnoc(b.events, subEvents[0], r.id);
      assert middle == b.events + [subEvents[0]];
    }
    if balEvents == [] {
      assert middle + balEvents == middle;
    } else {
      RequestTotalSnoc(middle, balEvents[0], r.id);
      assert balEvents == [balEvents[0]];
    }
  }

  /** A committed settlement charges the cost up to what is available: an uncovered remainder means both sources are empty. */
  lemma SettlementCoversCost(c: Config, b: Books, r: Request)
    requires r.cost > 0 && Settle(c, b, r).Done?
    requires SettingOf(c, r.user).primary != SettingOf(c, r.user).secondary
    ensures var b' := Settle(c, b, r).books;
            var split, available, funds := SplitFor(c, b, r), RemainingFor(c, b, r), Positive(BalanceOf(b, r.user));
            var uncovered := r.cost - split.subscription - split.balance;
            && uncovered >= 0
            && RequestTotal(b'.events, r.id) + uncovered == RequestTotal(b.events, r.id) + r.cost
            && (uncovered > 0 ==> split == Split(available, funds))
            && (r.id in b.logs ==>
                  b'.logs[r.id] == LogRow(split.subscription, split.balance, if uncovered > 0 then Overuse else Settled))
  {
    hide RequestTotal, RemainingFor;
    SubBehindRemaining(c, b, r);
    RequestTotalBooked(c, b, r, SplitFor(c, b, r));
  }

  lemma SubBehindRemaining(c: Config, b: Books, r: Request)
    requires LimitsReadable(c, r)
    ensures RemainingFor(c, b, r) > 0 ==> SubOf(c, r.user, r.clocks.query).Some?
  {
  }

  /** The secondary source is touched only when the primary one, by the user's row or by default the subscription, is exhausted. */
  lemma SecondaryAfterPrimary(c: Config, b: Books, r: Request)
    requires r.cost > 0 && LimitsReadable(c, r)
    requires r.user in c.settings ==> c.settings[r.user].primary != c.settings[r.user].secondary
    ensures var split, available := SplitFor(c, b, r), RemainingFor(c, b, r);
            var funds := if r.user in b.balances && b.balances[r.user] > 0 then b.balances[r.user] else 0;
            if r.user in c.settings && c.settings[r.user].primary == Balance
            then
              && split.balance == Min(r.cost, funds) && split.subscription == Min(r.cost - split.balance, available)
              && (split.subscription > 0 ==> split.balance == funds < r.cost)
            else
              && split.subscription == Min(r.cost, available) && split.balance == Min(r.cost - split.subscription, funds)
              && (split.balance > 0 ==> split.subscription == available < r.cost)
  {
    hide RemainingFor;
  }

  /** A settlement repeated for a request charges it again exactly if every source it would take from has not charged it yet. */
  lemma RepeatChargesIff(c: Config, b: Books, r: Request)
    requires r.cost > 0 && r.faults == {} && LimitsReadable(c, r)
    ensures var split := SplitFor(c, b, r);
            RequestTotal(Step(c, b, Settlement(r)).events, r.id) > RequestTotal(b.events, r.id) <==>
            && (split.subscription > 0 || split.balance > 0)
            && (split.subscription > 0 ==> !Charged(b.events, r.id, Subscription))
            && (split.balance > 0 ==> !Charged(b.events, r.id, Balance))
  {
    hide RequestTotal, RemainingFor, Charged;
    SubBehindRemaining(c, b, r);
    RequestTotalBooked(c, b, r, SplitFor(c, b, r));
  }

  function TwiceConfig(n: Micros): Config
  {
    Config(map[], map["u" := ActiveSub("s", "p", 0, None)], map["p" := [Limit(Total, Fixed, n)]])
  }

  function TwiceRequest(n: Micros, at: nat): Request
  {
    Request("r", "u", n, Clocks(at, at, at), {})
  }

  function TwiceBooks(n: nat, events: seq<BillingEvent>): Books
  {
    Books(map["u" := n], events, map[])
  }

  function TwiceEvent(n: nat): BillingEvent
  {
    BillingEvent("r", "u", Some("s"), Subscription, Charge, n, 0)
  }

  lemma TwiceRemaining(n: Micros)
    requires 0 < n < MAX_INT64
    ensures var c := TwiceConfig(n);
            && RemainingFor(c, TwiceBooks(n, []), TwiceRequest(n, 0)) == n
            && RemainingFor(c, TwiceBooks(n, [TwiceEvent(n)]), TwiceRequest(n, 1)) == 0
  {
    var sub, e := TwiceConfig(n).subs["u"], TwiceEvent(n);
    var limits := LimitsOf(TwiceConfig(n), "p");
    var w := Window(0, FAR_FUTURE);
    UsageEmpty([], "s", w);
    UsageSnoc([], e, "s", w);
    assert [] + [e] == [e];
    hide Usage;
    assert limits == [Limit(Total, Fixed, n)] && limits[..0] == [];
    assert Left([], sub, limits[0], 0) == n && Left([e], sub, limits[0], 1) == 0;
    MinLeftOfNothing([], sub, 0);
    MinLeftOfNothing([e], sub, 1);
    assert MinLeft([], sub, limits, 0) == n && MinLeft([e], sub, limits, 1) == 0;
  }

  lemma SettledOnce(n: Micros)
    requires 0 < n < MAX_INT64
    ensures Step(TwiceConfig(n), TwiceBooks(n, []), Settlement(TwiceRequest(n, 0))) == TwiceBooks(n, [TwiceEvent(n)])
    ensures RequestTotal([TwiceEvent(n)], "r") == n
  {
    TwiceRemaining(n);
    hide RequestTotal, RemainingFor;
    var c, r, b := TwiceConfig(n), TwiceRequest(n, 0), TwiceBooks(n, []);
    assert SplitFor(c, b, r) == Split(n, 0);
    assert Booked(c, b, r, Split(n, 0)) == TwiceBooks(n, [TwiceEvent(n)]);
    RequestTotalSnoc([], TwiceEvent(n), "r");
    NoEventsNoTotal("r");
    assert [] + [TwiceEvent(n)] == [TwiceEvent(n)];
  }

  /** A concrete repeat: the first settlement empties the subscription, the second takes the same cost from the balance. */
  lemma SettledTwice(n: Micros)
    requires 0 < n < MAX_INT64
    ensures var c, b := TwiceConfig(n), TwiceBooks(n, []);
            var b1 := Step(c, b, Settlement(TwiceRequest(n, 0)));
            var b2 := Step(c, b1, Settlement(TwiceRequest(n, 1)));
            RequestTotal(b1.events, "r") == n && RequestTotal(b2.events, "r") == 2 * n
  {
    SettledOnce(n);
    TwiceRemaining(n);
    hide RequestTotal, RemainingFor;
    var c, r, b := TwiceConfig(n), TwiceRequest(n, 1), TwiceBooks(n, [TwiceEvent(n)]);
    assert SplitFor(c, b, r) == Split(0, n);
    assert !Charged(b.events, "r", Balance);
    RequestTotalBooked(c, b, r, Split(0, n));
  }

  lemma NoEventsNoTotal(request: string)
    ensures RequestTotal([], request) == 0
  {
  }

  // ---- Window limits -----------------------------------------------------------------------

  /** The database constraints on the rows that are only read. */
  ghost predicate ValidConfig(c: Config)
  {
    && (forall u, v :: u in c.subs && v in c.subs && c.subs[u].id == c.subs[v].id ==> u == v)
    && (forall p :: p in c.plans ==> Known(c.plans[p]))
    && (forall u :: u in c.settings ==> c.settings[u].primary != c.settings[u].secondary)
  }

  function LimitWindow(limit: Limit, sub: ActiveSub, t: nat): Window
    requires limit.limitType != UnknownType
  {
    WindowAt(limit.limitType, limit.mode, t, sub.startsAt)
  }

  /** At no moment does the limit's window hold more charges than the limit. */
  ghost predicate Respected(events: seq<BillingEvent>, sub: ActiveSub, limit: Limit)
    requires limit.limitType != UnknownType
  {
    forall t: nat :: Usage(events, sub.id, LimitWindow(limit, sub, t)) <= limit.micros
  }

  ghost predicate OnlyCharges(events: seq<BillingEvent>)
  {
    forall i :: 0 <= i < |events| ==> events[i].kind == Charge
  }

  /** All events are older than a clock reading, or, if ties are allowed, not younger. */
  ghost predicate StampedBefore(events: seq<BillingEvent>, t: Time, ties: bool)
  {
    forall i :: 0 <= i < |events| ==> events[i].at < t || (ties && events[i].at == t)
  }

  /** A sliding window ends just before the reading it is computed from, so it misses an event of that very moment. */
  predicate BearsTies(limit: Limit)
  {
    limit.mode == Fixed || limit.limitType == Total
  }

  lemma UsageSnoc(events: seq<BillingEvent>, e: BillingEvent, sub: string, w: Window)
    ensures Usage(events + [e], sub, w) == Usage(events, sub, w) + if Counts(e, sub, w) then Weight(e) else 0
  {
    assert (events + [e])[..|events|] == events;
  }

  /** Of events that are all charges, a window that counts more holds more. */
  lemma {:induction false} UsageMonotone(events: seq<BillingEvent>, sub: string, w: Window, v: Window)
    requires OnlyCharges(events)
    requires forall i :: 0 <= i < |events| && Counts(events[i], sub, w) ==> Counts(events[i], sub, v)
    ensures 0 <= Usage(events, sub, w) <= Usage(events, sub, v)
  {
    if events != [] {
      var n := |events| - 1;
      assert forall i :: 0 <= i < n ==> events[..n][i] == events[i];
      UsageMonotone(events[..n], sub, w, v);
    }
  }

  lemma {:induction false} UsageEmpty(events: seq<BillingEvent>, sub: string, w: Window)
    requires forall i :: 0 <= i < |events| ==> !Counts(events[i], sub, w)
    ensures Usage(events, sub, w) == 0
  {
    if events != [] {
      var n := |events| - 1;
      assert forall i :: 0 <= i < n ==> events[..n][i] == events[i];
      UsageEmpty(events[..n], sub, w);
    }
  }

  /** Every kind of window but the sliding month. */
  predicate Safe(limit: Limit)
  {
    limit.limitType != UnknownType && !(limit.limitType == Monthly && limit.mode == Sliding)
  }

  /** The charges a later window holds from before the check fit, with the new charge, under the limit. */
  lemma EarlierCharges(events: seq<BillingEvent>, sub: ActiveSub, limit: Limit, check: nat, stamp: nat, t: nat)
    requires Safe(limit) && OnlyCharges(events) && StampedBefore(events, check, BearsTies(limit)) && check <= stamp
    requires In(LimitWindow(limit, sub, t), stamp)
    ensures 0 <= Usage(events, sub.id, LimitWindow(limit, sub, t)) <= Usage(events, sub.id, LimitWindow(limit, sub, check))
  {
    hide Usage, GetWindowBounds;
    var w, v := LimitWindow(limit, sub, t), LimitWindow(limit, sub, check);
    if limit.limitType == Total {
      TotalWindow(limit.mode, t, check, sub.startsAt);
    } else if limit.mode == Fixed {
      FixedWindowPartition(limit.limitType, t, stamp, sub.startsAt);
      if In(w, check) {
        FixedWindowPartition(limit.limitType, t, check, sub.startsAt);
      }
    } else {
      SlidingEnds(limit.limitType, t, sub.startsAt);
      SlidingEnds(limit.limitType, check, sub.startsAt);
      SlidingStartMonotone(limit.limitType, check, t, sub.startsAt);
    }
    UsageMonotone(events, sub.id, w, v);
  }

  lemma TotalWindow(mode: WindowMode, a: nat, b: nat, startsAt: Time)
    ensures WindowAt(Total, mode, a, startsAt) == WindowAt(Total, mode, b, startsAt)
  {
  }

  lemma SlidingEnds(limitType: LimitType, t: nat, startsAt: Time)
    requires Calendar(limitType)
    ensures WindowAt(limitType, Sliding, t, startsAt).end == t
  {
  }

  /** Booking one more charge, within what was left when it was checked, keeps the limit. */
  lemma ChargeKeepsLimit(events: seq<BillingEvent>, sub: ActiveSub, limit: Limit, e: BillingEvent, check: nat)
    requires Safe(limit) && OnlyCharges(events) && StampedBefore(events, check, BearsTies(limit)) && check <= e.at
    requires Respected(events, sub, limit)
    requires e.kind == Charge && e.amount <= Left(events, sub, limit, check)
    ensures Respected(events + [e], sub, limit)
  {
    hide GetWindowBounds, Usage;
    forall t: nat
      ensures Usage(events + [e], sub.id, LimitWindow(limit, sub, t)) <= limit.micros
    {
      var w := LimitWindow(limit, sub, t);
      UsageSnoc(events, e, sub.id, w);
      if Counts(e, sub.id, w) {
        EarlierCharges(events, sub, limit, check, e.at, t);
      }
    }
  }

  /** An event that does not count for the subscription changes nothing. */
  lemma OtherEventKeepsLimit(events: seq<BillingEvent>, sub: ActiveSub, limit: Limit, e: BillingEvent)
    requires limit.limitType != UnknownType && Respected(events, sub, limit)
    requires e.sub != Some(sub.id)
    ensures Respected(events + [e], sub, limit)
  {
    hide GetWindowBounds, Usage;
    forall t: nat
      ensures Usage(events + [e], sub.id, LimitWindow(limit, sub, t)) <= limit.micros
    {
      UsageSnoc(events, e, sub.id, LimitWindow(limit, sub, t));
    }
  }

  /** Serialised settlements: each checks its windows after the stamp of every earlier event, and stamps its own later. */
  ghost predicate Serialised(c: Config, b: Books, actions: seq<Action>, ties: bool)
  {
    forall i :: 0 <= i < |actions| ==> InTurn(Run(c, b, actions[..i]), actions[i], ties)
  }

  ghost predicate InTurn(b: Books, a: Action, ties: bool)
  {
    a.Settlement? ==>
      && StampedBefore(b.events, a.request.clocks.check, ties)
      && a.request.clocks.check <= a.request.clocks.stamp
  }

  lemma StepKeepsLimit(c: Config, b: Books, a: Action, user: string, limit: Limit)
    requires ValidConfig(c) && user in c.subs && limit in LimitsOf(c, c.subs[user].plan) && Safe(limit)
    requires OnlyCharges(b.events) && Respected(b.events, c.subs[user], limit) && InTurn(b, a, BearsTies(limit))
    ensures var b' := Step(c, b, a); OnlyCharges(b'.events) && Respected(b'.events, c.subs[user], limit)
  {
    hide Usage, Remaining, GetWindowBounds, Left, Respected;
    if a.Settlement? && a.request.cost > 0 && Settle(c, b, a.request).Done? {
      var r, sub := a.request, c.subs[user];
      var split := SplitFor(c, b, r);
      var subEvents, balEvents := SubscriptionEvents(c, r, split.subscription), BalanceEvents(r, split.balance);
      var middle := b.events + subEvents;
      assert Step(c, b, a).events == middle + balEvents;
      if subEvents == [] {
        assert middle == b.events;
      } else {
        var e := subEvents[0];
        assert middle == b.events + [e];
        if e.sub == Some(sub.id) {
          ChargeWithinLeft(c, b, r, user, limit);
          ChargeKeepsLimit(b.events, sub, limit, e, r.clocks.check);
        } else {
          OtherEventKeepsLimit(b.events, sub, limit, e);
        }
      }
      if balEvents == [] {
        assert middle + balEvents == middle;
      } else {
        OtherEventKeepsLimit(middle, sub, limit, balEvents[0]);
        assert middle + balEvents == middle + [balEvents[0]];
      }
    }
  }

  /** What a settlement takes from a subscription was left under each of its limits. */
  lemma ChargeWithinLeft(c: Config, b: Books, r: Request, user: string, limit: Limit)
    requires ValidConfig(c) && user in c.subs && limit in LimitsOf(c, c.subs[user].plan)
    requires r.cost > 0 && LimitsReadable(c, r) && limit.limitType != UnknownType
    requires SubOf(c, r.user, r.clocks.query).Some? && SubOf(c, r.user, r.clocks.query).value.id == c.subs[user].id
    ensures SplitFor(c, b, r).subscription <= Left(b.events, c.subs[user], limit, r.clocks.check)
  {
    hide Remaining, Left;
    assert r.user == user;
    var limits := LimitsOf(c, c.subs[user].plan);
    RemainingMeaning(b.events, c.subs[user], limits, r.clocks.check);
    var i :| 0 <= i < |limits| && limits[i] == limit;
    assert SplitFor(c, b, r).subscription <= RemainingFor(c, b, r);
  }

  lemma SerialisedFront(c: Config, b: Books, actions: seq<Action>, ties: bool)
    requires actions != [] && Serialised(c, b, actions, ties)
    ensures var n := |actions| - 1;
            Serialised(c, b, actions[..n], ties) && InTurn(Run(c, b, actions[..n]), actions[n], ties)
  {
    hide Run, InTurn;
    var n := |actions| - 1;
    assert forall i :: 0 <= i < n ==> actions[..n][..i] == actions[..i] && actions[..n][i] == actions[i];
  }

  /** Every run keeps every limit but the sliding month: no window, at any moment, ever holds more charges than its limit. */
  lemma {:induction false} LimitsKept(c: Config, b: Books, actions: seq<Action>, user: string, limit: Limit)
    requires ValidConfig(c) && user in c.subs && limit in LimitsOf(c, c.subs[user].plan) && Safe(limit)
    requires OnlyCharges(b.events) && Respected(b.events, c.subs[user], limit)
    requires Serialised(c, b, actions, BearsTies(limit))
    ensures var b' := Run(c, b, actions); OnlyCharges(b'.events) && Respected(b'.events, c.subs[user], limit)
  {
    hide Step, Respected, OnlyCharges, InTurn, Serialised, LimitsOf, ValidConfig, Safe, BearsTies;
    if actions != [] {
      var n := |actions| - 1;
      SerialisedFront(c, b, actions, BearsTies(limit));
      LimitsKept(c, b, actions[..n], user, limit);
      StepKeepsLimit(c, Run(c, b, actions[..n]), actions[n], user, limit);
    }
  }

  // ---- Sliding months and ties -------------------------------------------------------------

  /** A run that starts without charges on a user's subscription, under a plan that has the limit. */
  ghost predicate Admissible(c: Config, b: Books, actions: seq<Action>, user: string, limit: Limit, ties: bool)
  {
    && ValidConfig(c) && user in c.subs && limit in LimitsOf(c, c.subs[user].plan)
    && b.events == [] && Serialised(c, b, actions, ties)
  }

  ghost predicate AlwaysRespected(limit: Limit, ties: bool)
    requires limit.limitType != UnknownType
  {
    forall c, b, actions, user :: Admissible(c, b, actions, user, limit, ties) ==>
      Respected(Run(c, b, actions).events, c.subs[user], limit)
  }

  /** The amount the counterexample charges twice. */
  function Dose(limit: Limit): nat
  {
    if limit.micros < MAX_INT64 then limit.micros else MAX_INT64 - 1
  }

  function TwoLimits(limit: Limit): Config
  {
    Config(map[], map["u" := ActiveSub("s", "p", 0, None)], map["p" := [limit, Limit(Daily, Sliding, Dose(limit))]])
  }

  function DoseRequest(id: string, limit: Limit, day: nat): Request
  {
    Request(id, "u", Dose(limit), Clocks(day * DAY, day * DAY, day * DAY), {})
  }

  const NO_BOOKS := Books(map[], [], map[])

  function DoseEvent(id: string, limit: Limit, day: nat): BillingEvent
  {
    BillingEvent(id, "u", Some("s"), Subscription, Charge, Dose(limit), day * DAY)
  }

  lemma DoseStep(limit: Limit, b: Books, id: string, day: nat)
    requires Calendar(limit.limitType) && 0 < limit.micros
    requires b.logs == map[] && b.balances == map[] && !Charged(b.events, id, Subscription)
    requires Usage(b.events, "s", LimitWindow(limit, TwoLimits(limit).subs["u"], day * DAY)) == 0
    requires Usage(b.events, "s", LimitWindow(Limit(Daily, Sliding, Dose(limit)), TwoLimits(limit).subs["u"], day * DAY)) == 0
    ensures Step(TwoLimits(limit), b, Settlement(DoseRequest(id, limit, day)))
            == b.(events := b.events + [DoseEvent(id, limit, day)])
  {
    hide Usage, MonthEarlier, Charged;
    var c, r := TwoLimits(limit), DoseRequest(id, limit, day);
    var sub := c.subs["u"];
    var limits := LimitsOf(c, "p");
    assert limits[..1] == [limit] && limits[..1][..0] == [];
    assert Left(b.events, sub, limits[0], day * DAY) == limit.micros;
    assert Left(b.events, sub, limits[1], day * DAY) == Dose(limit);
    assert MinLeft(b.events, sub, limits[..1], day * DAY) == Min(MAX_INT64, limit.micros);
    assert RemainingFor(c, b, r) == Dose(limit);
    assert SplitFor(c, b, r) == Split(Dose(limit), 0);
    assert Booked(c, b, r, Split(Dose(limit), 0)).events == b.events + [DoseEvent(id, limit, day)];
  }

  lemma RunSnoc(c: Config, b: Books, actions: seq<Action>, a: Action)
    ensures Run(c, b, actions + [a]) == Step(c, Run(c, b, actions), a)
  {
    hide Step;
    assert (actions + [a])[..|actions|] == actions;
  }

  function BooksOf(events: seq<BillingEvent>): Books
  {
    Books(map[], events, map[])
  }

  /** On 31 March neither window reaches back to the charge of 2 March. */
  lemma FirstChargeOutOfSight(limit: Limit)
    requires limit.limitType == Monthly && limit.mode == Sliding
    ensures var sub, e1 := TwoLimits(limit).subs["u"], DoseEvent("r1", limit, 60);
            && Usage([e1], "s", LimitWindow(limit, sub, 89 * DAY)) == 0
            && Usage([e1], "s", LimitWindow(Limit(Daily, Sliding, Dose(limit)), sub, 89 * DAY)) == 0
  {
    var sub, e1 := TwoLimits(limit).subs["u"], DoseEvent("r1", limit, 60);
    FirstSpring(0);
    DailyStart(89);
    hide GetWindowBounds;
    UsageEmpty([e1], "s", LimitWindow(limit, sub, 89 * DAY));
    UsageEmpty([e1], "s", LimitWindow(Limit(Daily, Sliding, Dose(limit)), sub, 89 * DAY));
  }

  /** On 1 April the window holds both charges. */
  lemma BothChargesInSight(limit: Limit)
    requires limit.limitType == Monthly && limit.mode == Sliding
    ensures Usage([DoseEvent("r1", limit, 60), DoseEvent("r2", limit, 89)], "s",
                  LimitWindow(limit, TwoLimits(limit).subs["u"], 90 * DAY)) == 2 * Dose(limit)
  {
    var e1, e2 := DoseEvent("r1", limit, 60), DoseEvent("r2", limit, 89);
    var w := LimitWindow(limit, TwoLimits(limit).subs["u"], 90 * DAY);
    FirstSpring(0);
    hide GetWindowBounds, Usage, MonthEarlier;
    assert Counts(e1, "s", w) && Counts(e2, "s", w);
    UsageOfPair(e1, e2, "s", w);
  }

  lemma MonthRun(limit: Limit)
    requires limit.limitType == Monthly && limit.mode == Sliding && 0 < limit.micros
    ensures var c, a1, a2 := TwoLimits(limit), Settlement(DoseRequest("r1", limit, 60)), Settlement(DoseRequest("r2", limit, 89));
            var e1, e2 := DoseEvent("r1", limit, 60), DoseEvent("r2", limit, 89);
            && Run(c, NO_BOOKS, []) == NO_BOOKS
            && Run(c, NO_BOOKS, [a1]) == BooksOf([e1])
            && Run(c, NO_BOOKS, [a1, a2]) == BooksOf([e1, e2])
  {
    var c, sub := TwoLimits(limit), TwoLimits(limit).subs["u"];
    var e1, e2 := DoseEvent("r1", limit, 60), DoseEvent("r2", limit, 89);
    FirstChargeOutOfSight(limit);
    hide GetWindowBounds, Usage, Step, Run;
    UsageEmpty([], "s", LimitWindow(limit, sub, 60 * DAY));
    UsageEmpty([], "s", LimitWindow(Limit(Daily, Sliding, Dose(limit)), sub, 60 * DAY));
    DoseStep(limit, NO_BOOKS, "r1", 60);
    DoseStep(limit, BooksOf([e1]), "r2", 89);
    assert [] + [e1] == [e1] && [e1] + [e2] == [e1, e2];
    TwoSteps(c, NO_BOOKS, Settlement(DoseRequest("r1", limit, 60)), Settlement(DoseRequest("r2", limit, 89)));
  }

  /** Charging on 2 and 31 March: on 1 April the window holds both charges, more than the limit. */
  lemma SlidingMonthBroken(limit: Limit)
    requires limit.limitType == Monthly && limit.mode == Sliding && 0 < limit.micros
    ensures !AlwaysRespected(limit, false)
  {
    var c, sub := TwoLimits(limit), TwoLimits(limit).subs["u"];
    var a1, a2 := Settlement(DoseRequest("r1", limit, 60)), Settlement(DoseRequest("r2", limit, 89));
    var actions := [a1, a2];
    MonthRun(limit);
    BothChargesInSight(limit);
    RequestClocks("r1", limit, 60);
    RequestClocks("r2", limit, 89);
    hide GetWindowBounds, Usage, Run, DoseRequest;
    assert actions[..0] == [] && actions[..1] == [a1];
    assert Serialised(c, NO_BOOKS, actions, false);
    assert Admissible(c, NO_BOOKS, actions, "u", limit, false);
    var w := LimitWindow(limit, sub, 90 * DAY);
    assert Usage(Run(c, NO_BOOKS, actions).events, sub.id, w) > limit.micros;
    assert !Respected(Run(c, NO_BOOKS, actions).events, sub, limit);
  }

  lemma RequestClocks(id: string, limit: Limit, day: nat)
    ensures DoseRequest(id, limit, day).clocks == Clocks(day * DAY, day * DAY, day * DAY)
  {
  }

  lemma DailyStart(day: nat)
    ensures WindowAt(Daily, Sliding, day * DAY, 0).start == (day - 1) * DAY
  {
  }

  lemma TwoSteps(c: Config, b: Books, a1: Action, a2: Action)
    ensures Run(c, b, [a1]) == Step(c, b, a1) && Run(c, b, [a1, a2]) == Step(c, Step(c, b, a1), a2)
    ensures Run(c, b, []) == b
  {
    hide Step;
    RunSnoc(c, b, [], a1);
    RunSnoc(c, b, [a1], a2);
    assert [] + [a1] == [a1] && [a1] + [a2] == [a1, a2];
  }

  /** Under a zero limit a subscription is never charged. */
  lemma {:induction false} ZeroLimitKept(c: Config, b: Books, actions: seq<Action>, user: string, limit: Limit)
    requires ValidConfig(c) && user in c.subs && limit in LimitsOf(c, c.subs[user].plan)
    requires limit.limitType != UnknownType && limit.micros == 0 && b.events == []
    ensures forall i :: 0 <= i < |Run(c, b, actions).events| ==>
              Run(c, b, actions).events[i].sub != Some(c.subs[user].id) && Run(c, b, actions).events[i].kind == Charge
  {
    hide Usage, Remaining, GetWindowBounds, Left;
    if actions != [] {
      var n := |actions| - 1;
      var before, a := Run(c, b, actions[..n]), actions[n];
      ZeroLimitKept(c, b, actions[..n], user, limit);
      if a.Settlement? && a.request.cost > 0 && Settle(c, before, a.request).Done? {
        var r := a.request;
        var found := SubOf(c, r.user, r.clocks.query);
        if found.Some? && found.value.id == c.subs[user].id {
          ChargeWithinLeft(c, before, r, user, limit);
          NothingLeft(before.events, c.subs[user], limit, r.clocks.check);
        }
      }
    }
  }

  lemma NothingLeft(events: seq<BillingEvent>, sub: ActiveSub, limit: Limit, now: nat)
    requires limit.limitType != UnknownType && limit.micros == 0
    requires forall i :: 0 <= i < |events| ==> events[i].sub != Some(sub.id)
    ensures Left(events, sub, limit, now) == 0
  {
    UsageEmpty(events, sub.id, WindowAt(limit.limitType, limit.mode, now, sub.startsAt));
  }

  lemma TieRun(limit: Limit)
    requires Calendar(limit.limitType) && limit.mode == Sliding && 0 < limit.micros
    ensures var c, a1, a2 := TwoLimits(limit), Settlement(DoseRequest("r1", limit, 60)), Settlement(DoseRequest("r2", limit, 60));
            && Run(c, NO_BOOKS, []) == NO_BOOKS
            && Run(c, NO_BOOKS, [a1]) == BooksOf([DoseEvent("r1", limit, 60)])
            && Run(c, NO_BOOKS, [a1, a2]) == BooksOf([DoseEvent("r1", limit, 60), DoseEvent("r2", limit, 60)])
  {
    var c, sub, daily := TwoLimits(limit), TwoLimits(limit).subs["u"], Limit(Daily, Sliding, Dose(limit));
    var e1, e2 := DoseEvent("r1", limit, 60), DoseEvent("r2", limit, 60);
    hide GetWindowBounds, Usage, Step, Run;
    SlidingEnds(limit.limitType, 60 * DAY, 0);
    SlidingEnds(Daily, 60 * DAY, 0);
    UsageEmpty([], "s", LimitWindow(limit, sub, 60 * DAY));
    UsageEmpty([], "s", LimitWindow(daily, sub, 60 * DAY));
    UsageEmpty([e1], "s", LimitWindow(limit, sub, 60 * DAY));
    UsageEmpty([e1], "s", LimitWindow(daily, sub, 60 * DAY));
    DoseStep(limit, NO_BOOKS, "r1", 60);
    DoseStep(limit, BooksOf([e1]), "r2", 60);
    assert [] + [e1] == [e1] && [e1] + [e2] == [e1, e2];
    TwoSteps(c, NO_BOOKS, Settlement(DoseRequest("r1", limit, 60)), Settlement(DoseRequest("r2", limit, 60)));
  }

  lemma MomentInSight(limitType: LimitType, t: nat, startsAt: Time)
    requires Calendar(limitType)
    ensures In(WindowAt(limitType, Sliding, t + 1, startsAt), t)
  {
    hide MonthEarlier, MonthOf, MonthStart;
    MonthEarlierIs(t + 1);
  }

  /** One moment later the window holds both charges. */
  lemma TieInSight(limit: Limit)
    requires Calendar(limit.limitType) && limit.mode == Sliding
    ensures Usage([DoseEvent("r1", limit, 60), DoseEvent("r2", limit, 60)], "s",
                  LimitWindow(limit, TwoLimits(limit).subs["u"], 60 * DAY + 1)) == 2 * Dose(limit)
  {
    var e1, e2 := DoseEvent("r1", limit, 60), DoseEvent("r2", limit, 60);
    var w := LimitWindow(limit, TwoLimits(limit).subs["u"], 60 * DAY + 1);
    hide GetWindowBounds, Usage, MonthEarlier;
    MomentInSight(limit.limitType, 60 * DAY, 0);
    assert Counts(e1, "s", w) && Counts(e2, "s", w);
    UsageOfPair(e1, e2, "s", w);
  }

  lemma UsageOfPair(e1: BillingEvent, e2: BillingEvent, sub: string, w: Window)
    requires Counts(e1, sub, w) && Counts(e2, sub, w)
    ensures Usage([e1, e2], sub, w) == Weight(e1) + Weight(e2)
  {
    hide Usage, Counts, Weight;
    UsageEmpty([], sub, w);
    UsageSnoc([], e1, sub, w);
    UsageSnoc([e1], e2, sub, w);
    assert [] + [e1] == [e1] && [e1] + [e2] == [e1, e2];
  }

  /** Two settlements at one reading of the clock do not see each other in a sliding window. */
  lemma TieBreaksSliding(limit: Limit)
    requires Calendar(limit.limitType) && limit.mode == Sliding && 0 < limit.micros
    ensures !AlwaysRespected(limit, true)
  {
    var c, sub := TwoLimits(limit), TwoLimits(limit).subs["u"];
    var a1, a2 := Settlement(DoseRequest("r1", limit, 60)), Settlement(DoseRequest("r2", limit, 60));
    var e1, e2 := DoseEvent("r1", limit, 60), DoseEvent("r2", limit, 60);
    var actions := [a1, a2];
    TieRun(limit);
    RequestClocks("r1", limit, 60);
    RequestClocks("r2", limit, 60);
    hide GetWindowBounds, Usage, Run, DoseRequest;
    assert actions[..0] == [] && actions[..1] == [a1];
    TieInSight(limit);
    assert Serialised(c, NO_BOOKS, actions, true);
    assert Admissible(c, NO_BOOKS, actions, "u", limit, true);
    var w := LimitWindow(limit, sub, 60 * DAY + 1);
    assert Usage(Run(c, NO_BOOKS, actions).events, sub.id, w) > limit.micros;
    assert !Respected(Run(c, NO_BOOKS, actions).events, sub, limit);
  }

  /** The exact condition where every check reads a later time than the last stamp: a limit is kept on all runs if and only if
      it is not a positive limit on a sliding month. */
  lemma LimitAlwaysKeptIff(limit: Limit)
    requires limit.limitType != UnknownType
    ensures AlwaysRespected(limit, false) <==> !(limit.limitType == Monthly && limit.mode == Sliding && limit.micros > 0)
  {
    if limit.limitType == Monthly && limit.mode == Sliding && limit.micros > 0 {
      SlidingMonthBroken(limit);
    } else {
      forall c, b, actions, user | Admissible(c, b, actions, user, limit, false)
        ensures Respected(Run(c, b, actions).events, c.subs[user], limit)
      {
        AdmissibleRun(c, b, actions, user, limit, false);
      }
    }
  }

  /** And where a check may read the very time of the last stamp: exactly the fixed, total and zero limits are kept on all runs. */
  lemma KeptDespiteTiesIff(limit: Limit)
    requires limit.limitType != UnknownType
    ensures AlwaysRespected(limit, true) <==> BearsTies(limit) || limit.micros == 0
  {
    if BearsTies(limit) || limit.micros == 0 {
      forall c, b, actions, user | Admissible(c, b, actions, user, limit, true)
        ensures Respected(Run(c, b, actions).events, c.subs[user], limit)
      {
        AdmissibleRun(c, b, actions, user, limit, true);
      }
    } else {
      TieBreaksSliding(limit);
    }
  }

  lemma AdmissibleRun(c: Config, b: Books, actions: seq<Action>, user: string, limit: Limit, ties: bool)
    requires limit.limitType != UnknownType && Admissible(c, b, actions, user, limit, ties)
    requires (Safe(limit) && (ties ==> BearsTies(limit))) || limit.micros == 0
    ensures Respected(Run(c, b, actions).events, c.subs[user], limit)
  {
    var sub := c.subs[user];
    hide GetWindowBounds, Run;
    if limit.micros == 0 {
      ZeroLimitKept(c, b, actions, user, limit);
      forall t: nat
        ensures Usage(Run(c, b, actions).events, sub.id, LimitWindow(limit, sub, t)) <= limit.micros
      {
        UsageEmpty(Run(c, b, actions).events, sub.id, LimitWindow(limit, sub, t));
      }
    } else {
      forall t: nat
        ensures Usage(b.events, sub.id, LimitWindow(limit, sub, t)) <= limit.micros
      {
        UsageEmpty(b.events, sub.id, LimitWindow(limit, sub, t));
      }
      forall i | 0 <= i < |actions|
        ensures InTurn(Run(c, b, actions[..i]), actions[i], BearsTies(limit))
      {
        assert InTurn(Run(c, b, actions[..i]), actions[i], ties);
      }
      LimitsKept(c, b, actions, user, limit);
    }
  }

  // ---- Pre-check and settlement ------------------------------------------------------------

  /**
    * On the same rows and clock readings, a request may start exactly when settling any positive cost charges something: the
    * split takes from a source, and, unless the request has been charged before, its total grows.
    */
  lemma PreCheckAgrees(c: Config, b: Books, r: Request)
    requires r.cost > 0 && r.faults == {}
    requires SettingOf(c, r.user).primary != SettingOf(c, r.user).secondary
    requires LimitsReadable(c, r)
    ensures var can, split := CanStart(c, b, r.user, r.clocks.query, r.clocks.check, {}), SplitFor(c, b, r);
            && (can <==> split.subscription > 0 || split.balance > 0)
            && (!Charged(b.events, r.id, Subscription) && !Charged(b.events, r.id, Balance) ==>
                  (can <==> RequestTotal(Step(c, b, Settlement(r)).events, r.id) > RequestTotal(b.events, r.id)))
  {
    RepeatChargesIff(c, b, r);
    hide RequestTotal, Charged, Step;
    var found := SubOf(c, r.user, r.clocks.query);
    if found.Some? {
      AllConsulted(LimitsOf(c, found.value.plan));
    }
    hide Remaining, Consulted;
  }
}

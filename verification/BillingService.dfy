/** The billing service: settlements, pre-checks and top-ups over the database rows. */
module BillingServices {
  import opened Arithmetic
  import opened Clock
  import opened Windows
  import opened Ledger
  import opened Options

  /** One line of the quota overview. */
  datatype WindowRemaining = WindowRemaining(limit: Limit, used: int, left: nat, window: Window)

  /** The limits the pre-check takes into account: of a known type, and their usage query did not fail. */
  function Consulted(limits: seq<Limit>, failing: set<nat>): (r: seq<Limit>)
    ensures Known(r)
  {
    if limits == [] then []
    else
      var n := |limits| - 1;
      Consulted(limits[..n], failing) + if limits[n].limitType == UnknownType || n in failing then [] else [limits[n]]
  }

  lemma {:induction false} AllConsulted(limits: seq<Limit>)
    requires Known(limits)
    ensures Consulted(limits, {}) == limits
  {
    if limits != [] {
      AllConsulted(limits[..|limits| - 1]);
    }
  }

  /** Passing a limit over can only raise the minimum. */
  lemma {:induction false} ConsultedIsOptimistic(events: seq<BillingEvent>, sub: ActiveSub, limits: seq<Limit>,
                                                   failing: set<nat>, now: nat)
    requires Known(limits)
    ensures MinLeft(events, sub, Consulted(limits, failing), now) >= MinLeft(events, sub, limits, now)
  {
    hide Left;
    if limits != [] {
      var n := |limits| - 1;
      ConsultedIsOptimistic(events, sub, limits[..n], failing, now);
      var front, all := Consulted(limits[..n], failing), Consulted(limits, failing);
      assert all != front ==> all[..|all| - 1] == front;
    }
  }

  lemma MinLeftStep(events: seq<BillingEvent>, sub: ActiveSub, limits: seq<Limit>, i: nat, now: nat)
    requires i < |limits| && Known(limits[..i + 1])
    ensures Known(limits[..i])
    ensures var front, left := MinLeft(events, sub, limits[..i], now), Left(events, sub, limits[i], now);
            MinLeft(events, sub, limits[..i + 1], now) == if left < front then left else front
  {
    assert limits[..i + 1][..i] == limits[..i];
    assert forall k :: 0 <= k < i ==> limits[..i][k] == limits[..i + 1][k];
    assert limits[..i + 1][i] == limits[i];
  }

  lemma MinLeftOfNothing(events: seq<BillingEvent>, sub: ActiveSub, now: nat)
    ensures MinLeft(events, sub, [], now) == MAX_INT64
  {
  }

  class BillingService {
    const config: Config
    var balances: map<string, int>
    var events: seq<BillingEvent>
    var logs: map<string, LogRow>

    constructor (config: Config, books: Books)
      ensures this.config == config && Rows() == books
    {
      this.config := config;
      balances, events, logs := books.balances, books.events, books.logs;
    }

    function Rows(): Books
      reads this
    {
      Books(balances, events, logs)
    }

    /** calcSubscriptionRemainingTx: an unknown limit type is an error. */
    method CalcSubscriptionRemainingTx(sub: ActiveSub, now: nat) returns (ok: bool, remaining: nat)
      ensures ok == Known(LimitsOf(config, sub.plan))
      ensures ok ==> remaining == Remaining(events, sub, LimitsOf(config, sub.plan), now)
    {
      hide Usage, MinLeft;
      var limits := LimitsOf(config, sub.plan);
      if |limits| == 0 {
        return true, 0;
      }
      var minRemaining := MAX_INT64;
      assert limits[..0] == [];
      MinLeftOfNothing(events, sub, now);
      for i := 0 to |limits|
        invariant Known(limits[..i]) && minRemaining == MinLeft(events, sub, limits[..i], now)
      {
        var limit := limits[i];
        var bounds := GetWindowBounds(limit.limitType, limit.mode, now, sub.startsAt);
        if bounds.UnknownLimitType? {
          return false, 0;
        }
        assert forall k :: 0 <= k < i ==> limits[..i + 1][k] == limits[..i][k];
        MinLeftStep(events, sub, limits, i, now);
        var used := Usage(events, sub.id, bounds.window);
        var left := limit.micros - used;
        if left < 0 {
          left := 0;
        }
        if left < minRemaining {
          minRemaining := left;
        }
      }
      assert limits[..|limits|] == limits;
      if minRemaining == MAX_INT64 {
        return true, 0;
      }
      return true, minRemaining;
    }

    /** calcSubscriptionRemaining: a limit is passed over if its type is unknown or its usage query fails. */
    method CalcSubscriptionRemaining(sub: ActiveSub, limits: seq<Limit>, now: nat, failing: set<nat>) returns (remaining: nat)
      ensures remaining == Remaining(events, sub, Consulted(limits, failing), now)
    {
      hide Usage, MinLeft;
      var minRemaining := MAX_INT64;
      MinLeftOfNothing(events, sub, now);
      for i := 0 to |limits|
        invariant minRemaining == MinLeft(events, sub, Consulted(limits[..i], failing), now)
      {
        assert limits[..i + 1][..i] == limits[..i];
        var limit := limits[i];
        var bounds := GetWindowBounds(limit.limitType, limit.mode, now, sub.startsAt);
        if bounds.UnknownLimitType? {
          assert Consulted(limits[..i + 1], failing) == Consulted(limits[..i], failing);
          continue;
        }
        if i in failing {
          assert Consulted(limits[..i + 1], failing) == Consulted(limits[..i], failing);
          continue;
        }
        var known := Consulted(limits[..i + 1], failing);
        assert known == Consulted(limits[..i], failing) + [limit];
        assert known[..|known| - 1] == Consulted(limits[..i], failing) && known[..|known|] == known;
        MinLeftStep(events, sub, known, |known| - 1, now);
        var used := Usage(events, sub.id, bounds.window);
        var left := limit.micros - used;
        if left < 0 {
          left := 0;
        }
        if left < minRemaining {
          minRemaining := left;
        }
      }
      assert limits[..|limits|] == limits;
      if minRemaining == MAX_INT64 {
        return 0;
      }
      return minRemaining;
    }

    /** GetSubscriptionRemaining: the overview, one line per limit. */
    method GetSubscriptionRemaining(user: string, queryNow: nat, now: nat)
      returns (ok: bool, remaining: nat, windows: seq<WindowRemaining>)
      ensures match SubOf(config, user, queryNow)
              case None => ok && remaining == 0 && windows == []
              case Some(sub) =>
                var limits := LimitsOf(config, sub.plan);
                && ok == Known(limits)
                && (ok ==> remaining == Remaining(events, sub, limits, now) && |windows| == |limits|)
                && (ok ==> forall i :: 0 <= i < |limits| ==>
                      && windows[i].limit == limits[i]
                      && windows[i].window == WindowAt(limits[i].limitType, limits[i].mode, now, sub.startsAt)
                      && windows[i].used == Usage(events, sub.id, windows[i].window)
                      && windows[i].left == Left(events, sub, limits[i], now))
    {
      hide Usage, MinLeft;
      var found := SubOf(config, user, queryNow);
      if found.None? {
        return true, 0, [];
      }
      var sub := found.value;
      var limits := LimitsOf(config, sub.plan);
      if |limits| == 0 {
        return true, 0, [];
      }
      windows := [];
      var minRemaining := MAX_INT64;
      assert limits[..0] == [];
      MinLeftOfNothing(events, sub, now);
      for i := 0 to |limits|
        invariant Known(limits[..i]) && minRemaining == MinLeft(events, sub, limits[..i], now)
        invariant |windows| == i
        invariant forall k :: 0 <= k < i ==>
                    && limits[k].limitType != UnknownType
                    && windows[k].limit == limits[k]
                    && windows[k].window == WindowAt(limits[k].limitType, limits[k].mode, now, sub.startsAt)
                    && windows[k].used == Usage(events, sub.id, windows[k].window)
                    && windows[k].left == Left(events, sub, limits[k], now)
      {
        var limit := limits[i];
        var bounds := GetWindowBounds(limit.limitType, limit.mode, now, sub.startsAt);
        if bounds.UnknownLimitType? {
          return false, 0, [];
        }
        assert forall k :: 0 <= k < i ==> limits[..i + 1][k] == limits[..i][k];
        MinLeftStep(events, sub, limits, i, now);
        var used := Usage(events, sub.id, bounds.window);
        var left := limit.micros - used;
        if left < 0 {
          left := 0;
        }
        windows := windows + [WindowRemaining(limit, used, left, bounds.window)];
        if left < minRemaining {
          minRemaining := left;
        }
      }
      assert limits[..|limits|] == limits;
      if minRemaining == MAX_INT64 {
        minRemaining := 0;
      }
      return true, minRemaining, windows;
    }

    /** CanStartRequest; `faults` are the lookups that fail, `failing` the limits whose usage query does. */
    method CanStartRequest(user: string, queryNow: nat, checkNow: nat, faults: Faults, failing: set<nat>)
      returns (ok: bool, can: bool)
      ensures !ok <==> QuerySetting in faults || QuerySub in faults || QueryBalance in faults
                       || (SubOf(config, user, queryNow).Some? && QueryLimits in faults)
      ensures ok ==> can == CanStart(config, Rows(), user, queryNow, checkNow, failing)
    {
      hide Remaining, Consulted;
      if QuerySetting in faults {
        return false, false;
      }
      var setting := SettingOf(config, user);
      if QuerySub in faults {
        return false, false;
      }
      var sub := SubOf(config, user, queryNow);
      var subscriptionRemaining := 0;
      if sub.Some? {
        if QueryLimits in faults {
          return false, false;
        }
        var limits := LimitsOf(config, sub.value.plan);
        if |limits| > 0 {
          subscriptionRemaining := CalcSubscriptionRemaining(sub.value, limits, checkNow, failing);
        } else {
          NoLimits(events, sub.value, limits, checkNow, failing);
        }
      }
      if QueryBalance in faults {
        return false, false;
      }
      var balance := BalanceOf(Rows(), user);
      var sources := [setting.primary, setting.secondary];
      for i := 0 to |sources|
        invariant forall k :: 0 <= k < i ==>
                    if sources[k] == Subscription then subscriptionRemaining == 0 else balance <= 0
      {
        match sources[i]
        case Subscription =>
          if subscriptionRemaining > 0 {
            return true, true;
          }
        case Balance =>
          if balance > 0 {
            return true, true;
          }
      }
      assert sources[0] == setting.primary && sources[1] == setting.secondary;
      return true, false;
    }

    /** SettleRequestCost: one transaction, committed as a whole or not at all. */
    method SettleRequestCost(r: Request) returns (ok: bool)
      modifies this
      ensures match Settle(config, old(Rows()), r)
              case Done(books) => ok && Rows() == books
              case Failed => !ok && Rows() == old(Rows())
    {
      hide Usage, Remaining;
      if r.cost < 0 {
        return false;
      }
      if r.cost == 0 {
        if MarkFree in r.faults {
          return false;
        }
        logs := UpdatedLog(logs, r.id, LogRow(0, 0, Free));
        return true;
      }
      if Begin in r.faults || QuerySetting in r.faults {
        return false;
      }
      var setting := SettingOf(config, r.user);
      if QuerySub in r.faults {
        return false;
      }
      var sub := SubOf(config, r.user, r.clocks.query);
      var subscriptionRemaining := 0;
      if sub.Some? {
        if QueryLimits in r.faults {
          return false;
        }
        var readable;
        readable, subscriptionRemaining := CalcSubscriptionRemainingTx(sub.value, r.clocks.check);
        if !readable {
          return false;
        }
      }
      if QueryBalance in r.faults {
        return false;
      }
      var balance := BalanceOf(Rows(), r.user);

      var chargedSubscription, chargedBalance, remaining := SplitLoop(setting, r.cost, sub.Some?, subscriptionRemaining, balance);
      SplitWithinFunds(setting, r.cost, subscriptionRemaining, balance);
      ok := WriteCharges(r, sub, chargedSubscription, chargedBalance, remaining);
    }

    /** The writing half of a settlement: works on copies of the rows until the commit. */
    method WriteCharges(r: Request, sub: Option<ActiveSub>, chargedSubscription: nat, chargedBalance: nat, remaining: nat)
      returns (ok: bool)
      requires sub == SubOf(config, r.user, r.clocks.query) && (chargedSubscription > 0 ==> sub.Some?)
      requires chargedBalance > 0 ==> chargedBalance <= BalanceOf(Rows(), r.user)
      requires chargedSubscription + chargedBalance + remaining == r.cost
      modifies this
      ensures ok == Writable(old(events), r, Split(chargedSubscription, chargedBalance))
      ensures Rows() == if ok then Booked(config, old(Rows()), r, Split(chargedSubscription, chargedBalance)) else old(Rows())
    {
      hide SubOf;
      var txEvents, txBalances, txLogs := events, balances, logs;
      if chargedSubscription > 0 && sub.Some? {
        if InsertSubscription in r.faults || Charged(txEvents, r.id, Subscription) {
          return false;
        }
        txEvents := txEvents + [BillingEvent(r.id, r.user, Some(sub.value.id), Subscription, Charge,
                                             chargedSubscription, r.clocks.stamp)];
      }
      assert txEvents == events + SubscriptionEvents(config, r, chargedSubscription);
      if chargedBalance > 0 {
        ChargedAfter(events, txEvents, r.id);
        if InsertBalance in r.faults || Charged(txEvents, r.id, Balance) {
          return false;
        }
        txEvents := txEvents + [BillingEvent(r.id, r.user, None, Balance, Charge, chargedBalance, r.clocks.stamp)];
        if Deduct in r.faults {
          return false;
        }
        if r.user in txBalances {
          var b := txBalances[r.user];
          txBalances := txBalances[r.user := if b >= chargedBalance then b - chargedBalance else 0];
        }
      }
      hide Charged;
      var status := Settled;
      if remaining > 0 {
        status := Overuse;
      }
      if UpdateLog in r.faults {
        return false;
      }
      txLogs := UpdatedLog(txLogs, r.id, LogRow(chargedSubscription, chargedBalance, status));
      if Commit in r.faults {
        return false;
      }
      events, balances, logs := txEvents, txBalances, txLogs;
      return true;
    }

    /** TopUpBalance. */
    method TopUpBalance(user: string, amount: int) returns (found: bool)
      modifies this`balances
      ensures Rows() == TopUp(old(Rows()), user, amount) && found == (user in old(balances))
    {
      if user !in balances {
        return false;
      }
      balances := balances[user := balances[user] + amount];
      return true;
    }
  }

  /** The loop over the primary and the secondary source. */
  method SplitLoop(setting: Setting, cost: nat, hasSub: bool, available: nat, funds: int)
    returns (chargedSubscription: nat, chargedBalance: nat, remaining: nat)
    requires hasSub || available == 0
    ensures Split(chargedSubscription, chargedBalance) == SplitCost(setting, cost, available, funds)
    ensures chargedSubscription + chargedBalance + remaining == cost
  {
    chargedSubscription, chargedBalance, remaining := 0, 0, cost;
    var subscriptionRemaining, balance := available, funds;
    var sources := [setting.primary, setting.secondary];
    for i := 0 to |sources|
      invariant i == 0 ==> chargedSubscription == 0 && chargedBalance == 0 && remaining == cost
                           && subscriptionRemaining == available && balance == funds
      invariant i == 1 && setting.primary == Subscription ==>
                  && chargedBalance == 0 && chargedSubscription == Min(cost, available)
                  && remaining == cost - chargedSubscription
                  && subscriptionRemaining == available - chargedSubscription && balance == funds
      invariant i == 1 && setting.primary == Balance ==>
                  && chargedSubscription == 0 && chargedBalance == Min(cost, Positive(funds))
                  && remaining == cost - chargedBalance
                  && subscriptionRemaining == available && balance == funds - chargedBalance
      invariant i == 2 ==> Split(chargedSubscription, chargedBalance) == SplitCost(setting, cost, available, funds)
                           && chargedSubscription + chargedBalance + remaining == cost
    {
      if remaining <= 0 {
        continue;
      }
      match sources[i]
      case Subscription =>
        if hasSub && subscriptionRemaining > 0 {
          var charge := remaining;
          if charge > subscriptionRemaining {
            charge := subscriptionRemaining;
          }
          chargedSubscription := charge;
          remaining := remaining - charge;
          subscriptionRemaining := subscriptionRemaining - charge;
        }
      case Balance =>
        if balance > 0 {
          var charge := remaining;
          if charge > balance {
            charge := balance;
          }
          chargedBalance := charge;
          remaining := remaining - charge;
          balance := balance - charge;
        }
    }
  }

  lemma SplitWithinFunds(setting: Setting, cost: nat, remaining: nat, balance: int)
    ensures var split := SplitCost(setting, cost, remaining, balance);
            && split.subscription <= remaining && split.balance <= Positive(balance)
            && split.subscription + split.balance <= cost
  {
  }

  /** A subscription charge does not take the place of a balance charge in the unique index. */
  lemma ChargedAfter(events: seq<BillingEvent>, after: seq<BillingEvent>, request: string)
    requires events <= after && |after| <= |events| + 1
    requires |after| == |events| + 1 ==> after[|events|].source == Subscription
    ensures Charged(after, request, Balance) == Charged(events, request, Balance)
  {
  }

  lemma NoLimits(events: seq<BillingEvent>, sub: ActiveSub, limits: seq<Limit>, now: nat, failing: set<nat>)
    requires limits == []
    ensures Remaining(events, sub, Consulted(limits, failing), now) == 0
  {
  }

  /** What CanStartRequest decides. */
  predicate CanStart(c: Config, b: Books, user: string, queryNow: nat, checkNow: nat, failing: set<nat>)
  {
    var setting := SettingOf(c, user);
    var remaining := match SubOf(c, user, queryNow)
      case None => 0
      case Some(sub) => Remaining(b.events, sub, Consulted(LimitsOf(c, sub.plan), failing), checkNow);
    || ((setting.primary == Subscription || setting.secondary == Subscription) && remaining > 0)
    || ((setting.primary == Balance || setting.secondary == Balance) && BalanceOf(b, user) > 0)
  }
}

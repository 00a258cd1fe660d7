/** The billing ledger as values: what one settlement does to the books. */
module Ledger {
  import opened Arithmetic
  import opened Clock
  import opened Windows
  import opened Options

  /** The int64 maximum, used as "no limit seen yet". */
  const MAX_INT64: nat := 0x7FFF_FFFF_FFFF_FFFF

  /** Limits are non-negative 64-bit integers (CHECK constraint). */
  type Micros = x: int | 0 <= x <= MAX_INT64

  datatype Source = Subscription | Balance

  datatype EventType = Charge | Refund | Adjustment

  datatype BillingEvent = BillingEvent(request: string, user: string, sub: Option<string>, source: Source,
                                       kind: EventType, amount: nat, at: Time)

  datatype Limit = Limit(limitType: LimitType, mode: WindowMode, micros: Micros)

  /** A subscription row with status 'active'. */
  datatype ActiveSub = ActiveSub(id: string, plan: string, startsAt: Time, expiresAt: Option<Time>)

  datatype Setting = Setting(primary: Source, secondary: Source)

  /** The rows settlements only read.  A user has at most one subscription with status 'active' (unique index). */
  datatype Config = Config(settings: map<string, Setting>, subs: map<string, ActiveSub>, plans: map<string, seq<Limit>>)

  datatype Status = Pending | Free | Settled | Overuse

  datatype LogRow = LogRow(chargedSubscription: int, chargedBalance: int, status: Status)

  /** The rows settlements and top-ups write. */
  datatype Books = Books(balances: map<string, int>, events: seq<BillingEvent>, logs: map<string, LogRow>)

  // ---- Queries -----------------------------------------------------------------------------

  function SettingOf(c: Config, user: string): Setting
  {
    if user in c.settings then c.settings[user] else Setting(Subscription, Balance)
  }

  function SubOf(c: Config, user: string, now: Time): Option<ActiveSub>
  {
    if user in c.subs && (c.subs[user].expiresAt.None? || c.subs[user].expiresAt.value > now)
    then Some(c.subs[user]) else None
  }

  function LimitsOf(c: Config, plan: string): seq<Limit>
  {
    if plan in c.plans then c.plans[plan] else []
  }

  function BalanceOf(b: Books, user: string): int
  {
    if user in b.balances then b.balances[user] else 0
  }

  /** Whether an event counts towards the use of a subscription in a window. */
  predicate Counts(e: BillingEvent, sub: string, w: Window)
  {
    e.sub == Some(sub) && e.source == Subscription && In(w, e.at)
  }

  function Weight(e: BillingEvent): int
  {
    match e.kind
    case Charge => e.amount
    case Refund => -(e.amount as int)
    case Adjustment => 0
  }

  /** GetUsageInWindow: charges less refunds. */
  function Usage(events: seq<BillingEvent>, sub: string, w: Window): int
  {
    if events == [] then 0
    else
      var e := events[|events| - 1];
      Usage(events[..|events| - 1], sub, w) + if Counts(e, sub, w) then Weight(e) else 0
  }

  function Left(events: seq<BillingEvent>, sub: ActiveSub, limit: Limit, now: nat): nat
    requires limit.limitType != UnknownType
  {
    var left := limit.micros - Usage(events, sub.id, WindowAt(limit.limitType, limit.mode, now, sub.startsAt));
    if left < 0 then 0 else left
  }

  predicate Known(limits: seq<Limit>)
  {
    forall i :: 0 <= i < |limits| ==> limits[i].limitType != UnknownType
  }

  /** The least amount left under any limit, starting from the int64 maximum. */
  function MinLeft(events: seq<BillingEvent>, sub: ActiveSub, limits: seq<Limit>, now: nat): (r: nat)
    requires Known(limits)
    ensures r <= MAX_INT64
  {
    if limits == [] then MAX_INT64
    else
      var front := MinLeft(events, sub, limits[..|limits| - 1], now);
      var left := Left(events, sub, limits[|limits| - 1], now);
      if left < front then left else front
  }

  /** What the subscription may still be charged; the sentinel reads as nothing. */
  function Remaining(events: seq<BillingEvent>, sub: ActiveSub, limits: seq<Limit>, now: nat): nat
    requires Known(limits)
  {
    var least := MinLeft(events, sub, limits, now);
    if limits == [] || least == MAX_INT64 then 0 else least
  }

  lemma {:induction false} MinLeftIsLeast(events: seq<BillingEvent>, sub: ActiveSub, limits: seq<Limit>, now: nat)
    requires Known(limits)
    ensures forall i :: 0 <= i < |limits| ==> MinLeft(events, sub, limits, now) <= Left(events, sub, limits[i], now)
    ensures MinLeft(events, sub, limits, now) == MAX_INT64
            || exists i :: 0 <= i < |limits| && MinLeft(events, sub, limits, now) == Left(events, sub, limits[i], now)
  {
    hide Left;
    if limits != [] {
      var n := |limits| - 1;
      MinLeftIsLeast(events, sub, limits[..n], now);
      assert forall i :: 0 <= i < n ==> limits[..n][i] == limits[i];
    }
  }

  /** The remaining quota is the least amount left, unless every limit has the sentinel's value left. */
  lemma RemainingMeaning(events: seq<BillingEvent>, sub: ActiveSub, limits: seq<Limit>, now: nat)
    requires Known(limits)
    ensures var r := Remaining(events, sub, limits, now);
            && (forall i :: 0 <= i < |limits| ==> r <= Left(events, sub, limits[i], now))
            && (r > 0 <==> |limits| > 0
                           && (forall i :: 0 <= i < |limits| ==> Left(events, sub, limits[i], now) > 0)
                           && (exists i :: 0 <= i < |limits| && Left(events, sub, limits[i], now) < MAX_INT64))
            && (r > 0 ==> exists i :: 0 <= i < |limits| && r == Left(events, sub, limits[i], now))
  {
    hide Left, MinLeft;
    MinLeftIsLeast(events, sub, limits, now);
  }

  /** A plan of maximal limits, unused: everything is left under each of them, and yet nothing remains. */
  lemma MaximalPlanHasNothing(sub: ActiveSub, limits: seq<Limit>, now: nat)
    requires |limits| > 0 && Known(limits) && forall i :: 0 <= i < |limits| ==> limits[i].micros == MAX_INT64
    ensures forall i :: 0 <= i < |limits| ==> Left([], sub, limits[i], now) == MAX_INT64
    ensures Remaining([], sub, limits, now) == 0
  {
    hide WindowAt;
    forall i | 0 <= i < |limits|
      ensures Left([], sub, limits[i], now) == MAX_INT64
    {
    }
    RemainingMeaning([], sub, limits, now);
    hide Left;
  }

  // ---- One settlement ----------------------------------------------------------------------

  /** The database calls of a settlement, any of which may fail. */
  datatype Call =
    | MarkFree | Begin | QuerySetting | QuerySub | QueryLimits | QueryBalance
    | InsertSubscription | InsertBalance | Deduct | UpdateLog | Commit

  type Faults = set<Call>

  /** The clock readings: looking up the subscription, checking its windows, stamping the events. */
  datatype Clocks = Clocks(query: nat, check: nat, stamp: nat)

  datatype Request = Request(id: string, user: string, cost: int, clocks: Clocks, faults: Faults)

  datatype Outcome = Done(books: Books) | Failed

  function Positive(a: int): nat
  {
    if a < 0 then 0 else a
  }

  /** How a cost is split: the primary source first, the secondary for the remainder, never more than is there. */
  datatype Split = Split(subscription: nat, balance: nat)

  function SplitCost(setting: Setting, cost: nat, remaining: nat, balance: int): Split
  {
    var fromSub, fromBalance := Min(cost, remaining), Min(cost, Positive(balance));
    match (setting.primary, setting.secondary)
    case (Subscription, Balance) => Split(fromSub, Min(cost - fromSub, Positive(balance)))
    case (Balance, Subscription) => Split(Min(cost - fromBalance, remaining), fromBalance)
    case (Subscription, Subscription) => Split(fromSub, 0)
    case (Balance, Balance) => Split(0, fromBalance)
  }

  /** The unique index on (request, source, event type). */
  predicate Charged(events: seq<BillingEvent>, request: string, source: Source)
  {
    exists i :: 0 <= i < |events| && events[i].request == request && events[i].source == source && events[i].kind == Charge
  }

  function UpdatedLog(logs: map<string, LogRow>, request: string, row: LogRow): map<string, LogRow>
  {
    if request in logs then logs[request := row] else logs
  }

  function RemainingFor(c: Config, b: Books, r: Request): nat
    requires var sub := SubOf(c, r.user, r.clocks.query); sub.Some? ==> Known(LimitsOf(c, sub.value.plan))
  {
    match SubOf(c, r.user, r.clocks.query)
    case None => 0
    case Some(sub) => Remaining(b.events, sub, LimitsOf(c, sub.plan), r.clocks.check)
  }

  /** The subscription lookup and its limits are readable. */
  predicate LimitsReadable(c: Config, r: Request)
  {
    match SubOf(c, r.user, r.clocks.query)
    case None => true
    case Some(sub) => QueryLimits !in r.faults && Known(LimitsOf(c, sub.plan))
  }

  function SplitFor(c: Config, b: Books, r: Request): Split
    requires LimitsReadable(c, r) && r.cost >= 0
  {
    SplitCost(SettingOf(c, r.user), r.cost, RemainingFor(c, b, r), BalanceOf(b, r.user))
  }

  predicate Readable(c: Config, r: Request)
  {
    && Begin !in r.faults && QuerySetting !in r.faults && QuerySub !in r.faults && QueryBalance !in r.faults
    && LimitsReadable(c, r)
  }

  /** No write of the settlement fails; an insert that repeats (request, source) does. */
  predicate Writable(events: seq<BillingEvent>, r: Request, split: Split)
  {
    && UpdateLog !in r.faults && Commit !in r.faults
    && (split.subscription > 0 ==> InsertSubscription !in r.faults && !Charged(events, r.id, Subscription))
    && (split.balance > 0 ==> InsertBalance !in r.faults && Deduct !in r.faults && !Charged(events, r.id, Balance))
  }

  function SubscriptionEvents(c: Config, r: Request, amount: nat): seq<BillingEvent>
  {
    match SubOf(c, r.user, r.clocks.query)
    case Some(sub) =>
      if amount > 0 then [BillingEvent(r.id, r.user, Some(sub.id), Subscription, Charge, amount, r.clocks.stamp)] else []
    case None => []
  }

  function BalanceEvents(r: Request, amount: nat): seq<BillingEvent>
  {
    if amount > 0 then [BillingEvent(r.id, r.user, None, Balance, Charge, amount, r.clocks.stamp)] else []
  }

  function Booked(c: Config, b: Books, r: Request, split: Split): Books
  {
    Books(if split.balance > 0 && r.user in b.balances then b.balances[r.user := b.balances[r.user] - split.balance]
          else b.balances,
          b.events + SubscriptionEvents(c, r, split.subscription) + BalanceEvents(r, split.balance),
          UpdatedLog(b.logs, r.id, LogRow(split.subscription, split.balance,
                                          if split.subscription + split.balance < r.cost then Overuse else Settled)))
  }

  /** SettleRequestCost. */
  function Settle(c: Config, b: Books, r: Request): Outcome
  {
    if r.cost < 0 then Failed
    else if r.cost == 0 then
      if MarkFree in r.faults then Failed else Done(b.(logs := UpdatedLog(b.logs, r.id, LogRow(0, 0, Free))))
    else if !Readable(c, r) || !Writable(b.events, r, SplitFor(c, b, r)) then Failed
    else Done(Booked(c, b, r, SplitFor(c, b, r)))
  }

  /** TopUpBalance: an update of the user's row, if there is one. */
  function TopUp(b: Books, user: string, amount: int): Books
  {
    if user in b.balances then b.(balances := b.balances[user := b.balances[user] + amount]) else b
  }
}

/** The balance side of the order service: place, cancel and modify move `lockedBalance`, fills do not
    (src/orders/orders.service.ts, src/orders/services/order-book.service.ts). */
module OrderLedger {
  import opened Common
  import opened OrderBook
  import opened Sums

  datatype Account = Account(user: int, asset: int)

  datatype Balance = Balance(balance: real, locked: real) {
    function Available(): real { balance - locked }
  }

  datatype Ledger = Ledger(orders: Orders, balances: map<Account, Balance>)

  datatype Error =
    | MissingPrice | MissingStopPrice | MissingTrailingDelta | InsufficientBalance
    | NotFound | Forbidden | BadStatus | BelowFilled | NoBalance
    | PriceNotLimit | StopPriceNotStop | TrailingDeltaNotTrailing

  datatype Result<+T> = Success(value: T) | Failure(error: Error)

  datatype CreateOrder = CreateOrder(
    asset: int, side: Side, kind: OrderType, amount: real,
    price: Option<real>, stopPrice: Option<real>, trailingDelta: Option<real>)

  datatype ModifyOrder = ModifyOrder(
    id: OrderId, price: Option<real>, amount: Option<real>,
    stopPrice: Option<real>, trailingDelta: Option<real>)

  function AccountOf(o: Order): Account { Account(o.user, o.asset) }

  predicate IsStop(kind: OrderType) { kind.StopLoss? || kind.TakeProfit? }

  predicate TakesNow(kind: OrderType) { kind.Market? || kind.Limit? }

  // ---------- The operations up to the point where matching starts ----------

  function ShapeError(dto: CreateOrder): Option<Error> {
    if dto.kind.Limit? && dto.price.None? then Some(MissingPrice)
    else if IsStop(dto.kind) && dto.stopPrice.None? then Some(MissingStopPrice)
    else if dto.kind.TrailingStop? && dto.trailingDelta.None? then Some(MissingTrailingDelta)
    else None
  }

  function NewOrder(user: int, dto: CreateOrder, now: nat): Order {
    Order(user, dto.asset, dto.side, dto.kind, Pending, dto.amount, 0.0,
          if dto.kind.Limit? then dto.price else None,
          if IsStop(dto.kind) then dto.stopPrice else None,
          if dto.kind.TrailingStop? then dto.trailingDelta else None,
          now)
  }

  function Enter(s: Ledger, id: OrderId, user: int, dto: CreateOrder, now: nat): Result<Ledger> {
    var account := Account(user, dto.asset);
    if ShapeError(dto).Some? then Failure(ShapeError(dto).value)
    else if dto.side.Sell? && (account !in s.balances || s.balances[account].Available() < dto.amount) then
      Failure(InsufficientBalance)
    else
      var balances := if dto.side.Sell? then Lock(s.balances, account, dto.amount) else s.balances;
      Success(Ledger(s.orders[id := NewOrder(user, dto, now)], balances))
  }

  function Lock(balances: map<Account, Balance>, account: Account, delta: real): map<Account, Balance>
    requires account in balances
  {
    balances[account := balances[account].(locked := balances[account].locked + delta)]
  }

  function Max(a: real, b: real): real { if a >= b then a else b }

  function Cancel(s: Ledger, user: int, id: OrderId): Result<Ledger> {
    if id !in s.orders then Failure(NotFound)
    else
      var o := s.orders[id];
      if o.user != user then Failure(Forbidden)
      else if !o.Open() then Failure(BadStatus)
      else
        var account := Account(user, o.asset);
        var balances :=
          if o.side.Sell? && account in s.balances then
            var b := s.balances[account];
            s.balances[account := b.(locked := Max(0.0, b.locked - o.Remaining()))]
          else s.balances;
        Success(Ledger(s.orders[id := o.(status := Cancelled)], balances))
  }

  function Modify(s: Ledger, user: int, dto: ModifyOrder): Result<Ledger> {
    if dto.id !in s.orders then Failure(NotFound)
    else
      var o := s.orders[dto.id];
      var account := Account(user, o.asset);
      if o.user != user then Failure(Forbidden)
      else if !o.status.Pending? && !o.status.Partial? then Failure(BadStatus)
      else if dto.amount.Some? && dto.amount.value < o.filled then Failure(BelowFilled)
      else if dto.amount.Some? && o.side.Sell? && account !in s.balances then Failure(NoBalance)
      else if (dto.amount.Some? && o.side.Sell? && dto.amount.value > o.amount
               && s.balances[account].Available() < dto.amount.value - o.amount) then Failure(InsufficientBalance)
      else if dto.price.Some? && !o.kind.Limit? then Failure(PriceNotLimit)
      else if dto.stopPrice.Some? && !IsStop(o.kind) then Failure(StopPriceNotStop)
      else if dto.trailingDelta.Some? && !o.kind.TrailingStop? then Failure(TrailingDeltaNotTrailing)
      else
        var balances :=
          if dto.amount.Some? && o.side.Sell? then Lock(s.balances, account, dto.amount.value - o.amount)
          else s.balances;
        Success(Ledger(s.orders[dto.id := Modified(o, dto)], balances))
  }

  function Modified(o: Order, dto: ModifyOrder): Order {
    o.(amount := if dto.amount.Some? then dto.amount.value else o.amount,
       price := if dto.price.Some? then dto.price else o.price,
       stopPrice := if dto.stopPrice.Some? then dto.stopPrice else o.stopPrice,
       trailingDelta := if dto.trailingDelta.Some? then dto.trailingDelta else o.trailingDelta)
  }

  // ---------- Committed transactions as steps ----------

  datatype Event =
    | PlaceEvent(id: OrderId, user: int, create: CreateOrder, now: nat, fills: seq<Fill>)
    | CancelEvent(user: int, id: OrderId)
    | ModifyEvent(user: int, change: ModifyOrder, fills: seq<Fill>)
    | TriggerEvent(id: OrderId, fills: seq<Fill>)

  /** Matching leaves the balances alone. */
  ghost predicate MatchStep(s: Ledger, tid: OrderId, fills: seq<Fill>, s': Ledger)
    requires tid in s.orders
  {
    s'.balances == s.balances && Matches(s.orders, tid, fills, s'.orders)
  }

  /** One call, run on its own. A call that throws rolls its transaction back, so it is a step that changes nothing.
      Order ids are fresh, and the request validators admit positive amounts only. */
  ghost predicate Step(s: Ledger, e: Event, s': Ledger) {
    match e
    case PlaceEvent(id, user, dto, now, fills) =>
      id !in s.orders && dto.amount > 0.0 &&
      var r := Enter(s, id, user, dto, now);
      if r.Failure? then s' == s
      else if TakesNow(dto.kind) then MatchStep(r.value, id, fills, s')
      else s' == r.value
    case CancelEvent(user, id) =>
      var r := Cancel(s, user, id);
      s' == if r.Failure? then s else r.value
    case ModifyEvent(user, dto, fills) =>
      (dto.amount.Some? ==> dto.amount.value > 0.0) &&
      var r := Modify(s, user, dto);
      if r.Failure? then s' == s
      else if r.value.orders[dto.id].kind.Limit? then MatchStep(r.value, dto.id, fills, s')
      else s' == r.value
    case TriggerEvent(id, fills) =>
      if id in s.orders && s.orders[id].status.Pending? && !TakesNow(s.orders[id].kind)
      then MatchStep(s, id, fills, s')
      else s' == s
  }

  ghost predicate Init(s: Ledger) {
    s.orders == map[] && forall a :: a in s.balances ==> s.balances[a].locked == 0.0 <= s.balances[a].balance
  }

  ghost predicate Run(states: seq<Ledger>, events: seq<Event>) {
    && |states| == |events| + 1
    && Init(states[0])
    && forall i {:trigger events[i]} :: 0 <= i < |events| ==> Step(states[i], events[i], states[i + 1])
  }

  // ---------- The laws ----------

  /** What a sell order keeps locked: the whole amount while open, and what was sold once it is closed. */
  function Committed(o: Order): real { if o.Open() then o.amount else o.filled }

  predicate SellsFrom(o: Order, a: Account) { o.side.Sell? && AccountOf(o) == a }

  ghost function CommittedBy(orders: Orders, a: Account): map<OrderId, real> {
    map k | k in orders && SellsFrom(orders[k], a) :: Committed(orders[k])
  }

  ghost function OpenRemaining(orders: Orders, a: Account): map<OrderId, real> {
    map k | k in orders && SellsFrom(orders[k], a) :: if orders[k].Open() then orders[k].Remaining() else 0.0
  }

  ghost function Sold(orders: Orders, a: Account): map<OrderId, real> {
    map k | k in orders && SellsFrom(orders[k], a) :: orders[k].filled
  }

  ghost function FilledOn(orders: Orders, asset: int, side: Side): map<OrderId, real> {
    map k | k in orders && orders[k].asset == asset && orders[k].side == side :: orders[k].filled
  }

  /** Locked funds are exactly what the account's sell orders commit, and they are covered. */
  ghost predicate LocksExact(s: Ledger) {
    && (forall k :: k in s.orders && s.orders[k].side.Sell? ==> AccountOf(s.orders[k]) in s.balances)
    && (forall a :: a in s.balances ==>
          && s.balances[a].locked == Total(CommittedBy(s.orders, a))
          && 0.0 <= s.balances[a].locked <= s.balances[a].balance)
  }

  /** Every unit bought was sold. */
  ghost predicate FillsBalanced(orders: Orders) {
    forall asset :: Total(FilledOn(orders, asset, Buy)) == Total(FilledOn(orders, asset, Sell))
  }

  ghost predicate Inv(s: Ledger) {
    WellFormed(s.orders) && LocksExact(s) && FillsBalanced(s.orders) && Uncrossed(s.orders)
  }

  // ---------- Matching and the laws ----------

  /** Fills change no commitment: an open order commits its whole amount, filled or not. */
  lemma MatchKeepsCommitments(before: Orders, after: Orders, a: Account)
    requires WellFormed(before) && WellFormed(after) && AllGrown(before, after)
    ensures CommittedBy(after, a) == CommittedBy(before, a)
  {
    forall k | k in before ensures SellsFrom(before[k], a) == SellsFrom(after[k], a) {
      assert Grown(before[k], after[k]);
    }
    forall k | k in before ensures Committed(before[k]) == Committed(after[k]) {
      assert Grown(before[k], after[k]) && WellFormedOrder(before[k]) && WellFormedOrder(after[k]);
    }
  }

  lemma FilledOnPut(orders: Orders, k: OrderId, f: real, asset: int, side: Side)
    requires k in orders
    ensures Total(FilledOn(orders[k := ApplyFill(orders[k], f)], asset, side)) ==
      Total(FilledOn(orders, asset, side)) + (if orders[k].asset == asset && orders[k].side == side then f else 0.0)
  {
    var after := orders[k := ApplyFill(orders[k], f)];
    if orders[k].asset == asset && orders[k].side == side {
      TotalPut(FilledOn(orders, asset, side), k, orders[k].filled + f);
      assert FilledOn(after, asset, side) == FilledOn(orders, asset, side)[k := orders[k].filled + f];
    } else {
      assert FilledOn(after, asset, side) == FilledOn(orders, asset, side);
    }
  }

  lemma FillKeepsBalance(orders: Orders, tid: OrderId, mid: OrderId, asset: int)
    requires tid in orders && mid in orders && Crossable(orders[tid], orders[mid])
    requires Total(FilledOn(orders, asset, Buy)) == Total(FilledOn(orders, asset, Sell))
    ensures Total(FilledOn(MatchOne(orders, tid, mid), asset, Buy)) ==
            Total(FilledOn(MatchOne(orders, tid, mid), asset, Sell))
  {
    var f := Min(orders[tid].Remaining(), orders[mid].Remaining());
    var half := orders[tid := ApplyFill(orders[tid], f)];
    FilledOnPut(orders, tid, f, asset, Buy);
    FilledOnPut(orders, tid, f, asset, Sell);
    FilledOnPut(half, mid, f, asset, Buy);
    FilledOnPut(half, mid, f, asset, Sell);
  }

  lemma {:induction false} MatchKeepsBalanced(orders: Orders, tid: OrderId, fills: seq<Fill>, after: Orders)
    requires tid in orders && Matches(orders, tid, fills, after) && FillsBalanced(orders)
    ensures FillsBalanced(after)
    decreases |fills|
  {
    if fills != [] {
      var mid := fills[0].maker;
      forall asset
        ensures Total(FilledOn(MatchOne(orders, tid, mid), asset, Buy)) ==
                Total(FilledOn(MatchOne(orders, tid, mid), asset, Sell))
      {
        FillKeepsBalance(orders, tid, mid, asset);
      }
      MatchKeepsBalanced(MatchOne(orders, tid, mid), tid, fills[1..], after);
    }
  }

  /** The laws with the taker still to be matched: only its own prices may cross the book. */
  ghost predicate InvExcept(s: Ledger, tid: OrderId) {
    WellFormed(s.orders) && LocksExact(s) && FillsBalanced(s.orders) && UncrossedExcept(s.orders, tid)
  }

  lemma MatchStepKeepsInv(s: Ledger, tid: OrderId, fills: seq<Fill>, s': Ledger)
    requires tid in s.orders && s.orders[tid].Open()
    requires InvExcept(s, tid) && MatchStep(s, tid, fills, s')
    ensures Inv(s')
  {
    MatchKeeps(s.orders, tid, fills, s'.orders);
    MatchUncrosses(s.orders, tid, fills, s'.orders);
    MatchKeepsBalanced(s.orders, tid, fills, s'.orders);
    assert LocksExact(s') by {
      forall k | k in s'.orders && s'.orders[k].side.Sell? ensures AccountOf(s'.orders[k]) in s'.balances {
        assert Grown(s.orders[k], s'.orders[k]);
      }
      forall a | a in s'.balances ensures s'.balances[a].locked == Total(CommittedBy(s'.orders, a)) {
        MatchKeepsCommitments(s.orders, s'.orders, a);
      }
    }
  }

  // ---------- Place, cancel and modify and the laws ----------

  /** The commitment of one account after one order is written. */
  lemma CommittedPut(orders: Orders, k: OrderId, o: Order, a: Account)
    requires k in orders ==> AccountOf(orders[k]) == AccountOf(o) && orders[k].side == o.side
    ensures Total(CommittedBy(orders[k := o], a)) == Total(CommittedBy(orders, a)) +
      if SellsFrom(o, a) then Committed(o) - (if k in orders then Committed(orders[k]) else 0.0) else 0.0
  {
    if SellsFrom(o, a) {
      TotalPut(CommittedBy(orders, a), k, Committed(o));
      assert CommittedBy(orders[k := o], a) == CommittedBy(orders, a)[k := Committed(o)];
    } else {
      assert CommittedBy(orders[k := o], a) == CommittedBy(orders, a);
    }
  }

  /** Writing one order with its lock moved by the change of its commitment keeps the locks exact. */
  lemma WriteKeepsLocks(s: Ledger, s': Ledger, k: OrderId, o: Order, delta: real)
    requires LocksExact(s)
    requires k in s.orders ==> AccountOf(s.orders[k]) == AccountOf(o) && s.orders[k].side == o.side
    requires s'.orders == s.orders[k := o]
    requires delta == Committed(o) - (if k in s.orders then Committed(s.orders[k]) else 0.0)
    requires o.side.Sell? ==>
      && AccountOf(o) in s.balances
      && s'.balances == Lock(s.balances, AccountOf(o), delta)
      && 0.0 <= s.balances[AccountOf(o)].locked + delta <= s.balances[AccountOf(o)].balance
    requires o.side.Buy? ==> s'.balances == s.balances
    ensures LocksExact(s')
  {
    forall a | a in s'.balances ensures
      && s'.balances[a].locked == Total(CommittedBy(s'.orders, a))
      && 0.0 <= s'.balances[a].locked <= s'.balances[a].balance
    {
      CommittedPut(s.orders, k, o, a);
    }
  }

  lemma WriteKeepsBalanced(orders: Orders, k: OrderId, o: Order)
    requires FillsBalanced(orders)
    requires if k in orders then orders[k].asset == o.asset && orders[k].side == o.side && orders[k].filled == o.filled
             else o.filled == 0.0
    ensures FillsBalanced(orders[k := o])
  {
    var after := orders[k := o];
    forall asset, side: Side ensures Total(FilledOn(after, asset, side)) == Total(FilledOn(orders, asset, side)) {
      if o.asset == asset && o.side == side {
        TotalPut(FilledOn(orders, asset, side), k, o.filled);
        assert FilledOn(after, asset, side) == FilledOn(orders, asset, side)[k := o.filled];
      } else {
        assert FilledOn(after, asset, side) == FilledOn(orders, asset, side);
      }
    }
    forall asset ensures Total(FilledOn(after, asset, Buy)) == Total(FilledOn(after, asset, Sell)) {
      assert Total(FilledOn(after, asset, Buy)) == Total(FilledOn(orders, asset, Buy));
      assert Total(FilledOn(after, asset, Sell)) == Total(FilledOn(orders, asset, Sell));
    }
  }

  lemma EnterKeepsInv(s: Ledger, id: OrderId, user: int, dto: CreateOrder, now: nat)
    requires Inv(s) && id !in s.orders && dto.amount > 0.0
    requires Enter(s, id, user, dto, now).Success?
    ensures InvExcept(Enter(s, id, user, dto, now).value, id)
    ensures !dto.kind.Limit? ==> Inv(Enter(s, id, user, dto, now).value)
  {
    var s' := Enter(s, id, user, dto, now).value;
    var o := NewOrder(user, dto, now);
    WriteKeepsLocks(s, s', id, o, dto.amount);
    WriteKeepsBalanced(s.orders, id, o);
    WriteKeepsUncrossed(s.orders, id, o);
  }

  /** An order never has more to release than its account has locked. */
  lemma LockCoversOrder(s: Ledger, id: OrderId)
    requires WellFormed(s.orders) && LocksExact(s) && id in s.orders && s.orders[id].side.Sell? && s.orders[id].Open()
    ensures s.orders[id].Remaining() <= s.orders[id].amount <= s.balances[AccountOf(s.orders[id])].locked
  {
    var m := CommittedBy(s.orders, AccountOf(s.orders[id]));
    forall k | k in m ensures m[k] >= 0.0 {
      assert WellFormedOrder(s.orders[k]);
    }
    TotalBound(m, id);
    assert WellFormedOrder(s.orders[id]);
  }

  lemma CancelKeepsLocks(s: Ledger, user: int, id: OrderId)
    requires WellFormed(s.orders) && LocksExact(s) && Cancel(s, user, id).Success?
    ensures LocksExact(Cancel(s, user, id).value)
    ensures s.orders[id].side.Sell? ==>
      Cancel(s, user, id).value.balances == Lock(s.balances, AccountOf(s.orders[id]), -s.orders[id].Remaining())
  {
    var o := s.orders[id];
    if o.side.Sell? {
      LockCoversOrder(s, id);
    }
    WriteKeepsLocks(s, Cancel(s, user, id).value, id, o.(status := Cancelled), -o.Remaining());
  }

  /** Cancelling releases exactly the remaining amount: the clamp at zero never acts. */
  lemma CancelReleasesExactly(s: Ledger, user: int, id: OrderId)
    requires Inv(s) && Cancel(s, user, id).Success?
    ensures Inv(Cancel(s, user, id).value)
    ensures s.orders[id].side.Sell? ==>
      Cancel(s, user, id).value.balances == Lock(s.balances, AccountOf(s.orders[id]), -s.orders[id].Remaining())
  {
    var o := s.orders[id].(status := Cancelled);
    CancelKeepsLocks(s, user, id);
    WriteKeepsBalanced(s.orders, id, o);
    WriteKeepsUncrossed(s.orders, id, o);
  }

  lemma ModifyKeepsLocks(s: Ledger, user: int, dto: ModifyOrder)
    requires WellFormed(s.orders) && LocksExact(s) && Modify(s, user, dto).Success?
    ensures LocksExact(Modify(s, user, dto).value)
  {
    var s' := Modify(s, user, dto).value;
    var o := s.orders[dto.id];
    var delta := if dto.amount.Some? then dto.amount.value - o.amount else 0.0;
    if o.side.Sell? {
      LockCoversOrder(s, dto.id);
      assert s'.balances == Lock(s.balances, AccountOf(o), delta);
    }
    WriteKeepsLocks(s, s', dto.id, Modified(o, dto), delta);
  }

  lemma ModifyKeepsInv(s: Ledger, user: int, dto: ModifyOrder)
    requires Inv(s) && Modify(s, user, dto).Success?
    requires dto.amount.Some? ==> dto.amount.value > 0.0
    ensures InvExcept(Modify(s, user, dto).value, dto.id)
    ensures !s.orders[dto.id].kind.Limit? ==> Inv(Modify(s, user, dto).value)
  {
    var o := Modified(s.orders[dto.id], dto);
    ModifyKeepsLocks(s, user, dto);
    WriteKeepsBalanced(s.orders, dto.id, o);
    WriteKeepsUncrossed(s.orders, dto.id, o);
  }

  // ---------- Main results ----------

  /** Every call keeps the laws. */
  lemma StepKeepsInv(s: Ledger, e: Event, s': Ledger)
    requires Inv(s) && Step(s, e, s')
    ensures Inv(s')
  {
    match e
    case PlaceEvent(id, user, dto, now, fills) =>
      var r := Enter(s, id, user, dto, now);
      if r.Success? {
        EnterKeepsInv(s, id, user, dto, now);
        if TakesNow(dto.kind) {
          MatchStepKeepsInv(r.value, id, fills, s');
        }
      }
    case CancelEvent(user, id) =>
      if Cancel(s, user, id).Success? {
        CancelReleasesExactly(s, user, id);
      }
    case ModifyEvent(user, dto, fills) =>
      var r := Modify(s, user, dto);
      if r.Success? {
        ModifyKeepsInv(s, user, dto);
        if s.orders[dto.id].kind.Limit? {
          MatchStepKeepsInv(r.value, dto.id, fills, s');
        }
      }
    case TriggerEvent(id, fills) =>
      if s' != s {
        MatchStepKeepsInv(s, id, fills, s');
      }
  }

  lemma InitInv(s: Ledger)
    requires Init(s)
    ensures Inv(s)
  {
    forall a ensures Total(CommittedBy(s.orders, a)) == 0.0 {
      assert CommittedBy(s.orders, a) == map[];
    }
    forall asset, side: Side ensures Total(FilledOn(s.orders, asset, side)) == 0.0 {
      assert FilledOn(s.orders, asset, side) == map[];
    }
  }

  /** Over every run, at every moment: exact and covered locks, balanced fills, an uncrossed book. */
  lemma {:induction false} RunKeepsInv(states: seq<Ledger>, events: seq<Event>, i: nat)
    requires Run(states, events) && i < |states|
    ensures Inv(states[i])
  {
    if i == 0 {
      InitInv(states[0]);
    } else {
      RunKeepsInv(states, events, i - 1);
      var e := events[i - 1];
      StepKeepsInv(states[i - 1], e, states[i]);
    }
  }

  /** The documented meaning of `lockedBalance` is "reserved against open SELL orders". A fill shrinks what is
      open but releases nothing, so in every reachable state the documented meaning holds for an account
      exactly when that account has sold nothing. */
  lemma LockedIsOpenIffNothingSold(s: Ledger, a: Account)
    requires WellFormed(s.orders) && LocksExact(s) && a in s.balances
    ensures s.balances[a].locked == Total(OpenRemaining(s.orders, a)) + Total(Sold(s.orders, a))
    ensures s.balances[a].locked == Total(OpenRemaining(s.orders, a)) <==>
      forall k :: k in s.orders && SellsFrom(s.orders[k], a) ==> s.orders[k].filled == 0.0
  {
    var sold := Sold(s.orders, a);
    forall k | k in s.orders ensures s.orders[k].filled >= 0.0 {
      assert WellFormedOrder(s.orders[k]);
    }
    TotalPlus(OpenRemaining(s.orders, a), sold, CommittedBy(s.orders, a));
    TotalNonNegative(sold);
    if Total(sold) == 0.0 {
      forall k | k in sold ensures s.orders[k].filled == 0.0 {
        TotalBound(sold, k);
      }
    } else if forall k :: k in s.orders && SellsFrom(s.orders[k], a) ==> s.orders[k].filled == 0.0 {
      TotalZero(sold);
    }
  }

  /** The ledger as it would be had every fill also been taken from the seller's balance and lock. */
  ghost function Settled(s: Ledger, a: Account): Balance
    requires a in s.balances
  {
    var sold := Total(Sold(s.orders, a));
    Balance(s.balances[a].balance - sold, s.balances[a].locked - sold)
  }

  /** Settlement is all that is missing: with the fills settled the documented meaning holds in every reachable
      state, and the lock stays covered. */
  lemma SettlementRestoresMeaning(s: Ledger, a: Account)
    requires Inv(s) && a in s.balances
    ensures Settled(s, a).locked == Total(OpenRemaining(s.orders, a))
    ensures 0.0 <= Settled(s, a).locked <= Settled(s, a).balance
    ensures Settled(s, a).Available() == s.balances[a].Available()
  {
    LockedIsOpenIffNothingSold(s, a);
    var open := OpenRemaining(s.orders, a);
    forall k | k in open ensures open[k] >= 0.0 {
      assert WellFormedOrder(s.orders[k]);
    }
    TotalNonNegative(open);
  }

  // ---------- When a matching breaks the documented meaning ----------

  /** Every account's lock is what its open sell orders still have to sell. */
  ghost predicate Documented(s: Ledger) {
    forall a :: a in s.balances ==> s.balances[a].locked == Total(OpenRemaining(s.orders, a))
  }

  ghost predicate NothingSold(orders: Orders) {
    forall k :: k in orders && orders[k].side.Sell? ==> orders[k].filled == 0.0
  }

  lemma DocumentedIffNothingSold(s: Ledger)
    requires WellFormed(s.orders) && LocksExact(s)
    ensures Documented(s) <==> NothingSold(s.orders)
  {
    forall a | a in s.balances ensures
      s.balances[a].locked == Total(OpenRemaining(s.orders, a)) <==>
        forall k :: k in s.orders && SellsFrom(s.orders[k], a) ==> s.orders[k].filled == 0.0
    {
      LockedIsOpenIffNothingSold(s, a);
    }
    if Documented(s) {
      forall k | k in s.orders && s.orders[k].side.Sell? ensures s.orders[k].filled == 0.0 {
        var a := AccountOf(s.orders[k]);
        assert a in s.balances && SellsFrom(s.orders[k], a);
      }
    }
  }

  /** The book holds something for the taker to trade with. */
  ghost predicate Liquid(orders: Orders, taker: Order) {
    exists k :: k in orders && Crossable(taker, orders[k]) && orders[k].Remaining() > 0.0
  }

  ghost predicate SameFills(before: Orders, after: Orders) {
    forall k :: k in before ==> k in after && after[k].filled == before[k].filled && after[k].side == before[k].side
  }

  /** Without liquidity a matching only closes exhausted makers. */
  lemma {:induction false} IlliquidFillsNothing(orders: Orders, tid: OrderId, fills: seq<Fill>, after: Orders)
    requires tid in orders && orders[tid].Open() && WellFormed(orders)
    requires Matches(orders, tid, fills, after) && !Liquid(orders, orders[tid])
    ensures SameFills(orders, after)
    decreases |fills|
  {
    if fills != [] {
      var mid := fills[0].maker;
      FillKeepsWellFormed(orders, tid, mid);
      assert WellFormedOrder(orders[mid]) && orders[mid].Remaining() == 0.0;
      var next := MatchOne(orders, tid, mid);
      assert SameFills(orders, next);
      assert !Liquid(next, next[tid]) by {
        forall k | k in next && Crossable(next[tid], next[k]) ensures next[k].Remaining() <= 0.0 {
          assert Grown(orders[k], next[k]) && Crossable(orders[tid], orders[k]);
        }
      }
      IlliquidFillsNothing(next, tid, fills[1..], after);
    }
  }

  /** With liquidity either the taker or the liquid maker ends up with something filled. */
  lemma LiquidFillsSomething(orders: Orders, tid: OrderId, fills: seq<Fill>, after: Orders, maker: OrderId)
    requires tid in orders && orders[tid].Open() && WellFormed(orders) && Matches(orders, tid, fills, after)
    requires maker in orders && Crossable(orders[tid], orders[maker]) && orders[maker].Remaining() > 0.0
    ensures WellFormed(after)
    ensures exists k :: k in after && after[k].filled > 0.0
  {
    MatchKeeps(orders, tid, fills, after);
    MatchEnds(orders, tid, fills, after);
    assert WellFormedOrder(after[tid]) && WellFormedOrder(after[maker]);
    assert Grown(orders[maker], after[maker]) && Grown(orders[tid], after[tid]);
    if after[tid].Remaining() <= 0.0 {
      assert after[tid].filled > 0.0;
    } else {
      assert !Crossable(after[tid], after[maker]);
      assert after[maker].filled > 0.0;
    }
  }

  /** By conservation a filled order of either side means that something was sold. */
  lemma FilledMeansSold(orders: Orders, k: OrderId)
    requires WellFormed(orders) && FillsBalanced(orders) && k in orders && orders[k].filled > 0.0
    ensures !NothingSold(orders)
  {
    if NothingSold(orders) {
      var bought := FilledOn(orders, orders[k].asset, Buy);
      forall j | j in bought ensures bought[j] >= 0.0 {
        assert WellFormedOrder(orders[j]);
      }
      TotalZero(FilledOn(orders, orders[k].asset, Sell));
      TotalBound(bought, k);
    }
  }

  /** Exactly when one matching breaks the documented meaning, told before the call: when the book holds an order
      with something left that the taker crosses. */
  lemma MatchKeepsMeaningIff(s: Ledger, tid: OrderId, fills: seq<Fill>, s': Ledger)
    requires tid in s.orders && s.orders[tid].Open() && s.orders[tid].Remaining() > 0.0
    requires InvExcept(s, tid) && MatchStep(s, tid, fills, s') && Documented(s)
    ensures Documented(s') <==> !Liquid(s.orders, s.orders[tid])
  {
    MatchStepKeepsInv(s, tid, fills, s');
    DocumentedIffNothingSold(s);
    DocumentedIffNothingSold(s');
    if Liquid(s.orders, s.orders[tid]) {
      var maker :| maker in s.orders && Crossable(s.orders[tid], s.orders[maker]) && s.orders[maker].Remaining() > 0.0;
      LiquidFillsSomething(s.orders, tid, fills, s'.orders, maker);
      var k :| k in s'.orders && s'.orders[k].filled > 0.0;
      FilledMeansSold(s'.orders, k);
    } else {
      IlliquidFillsNothing(s.orders, tid, fills, s'.orders);
      MatchKeeps(s.orders, tid, fills, s'.orders);
    }
  }

  /** Orders stay, keep their owner and side, and never un-fill. */
  ghost predicate Continues(before: Orders, after: Orders) {
    forall k :: k in before ==>
      && k in after
      && AccountOf(after[k]) == AccountOf(before[k])
      && after[k].side == before[k].side
      && before[k].filled <= after[k].filled
  }

  lemma PlaceContinues(s: Ledger, id: OrderId, user: int, dto: CreateOrder, now: nat, fills: seq<Fill>, s': Ledger)
    requires WellFormed(s.orders) && Step(s, PlaceEvent(id, user, dto, now, fills), s')
    ensures Continues(s.orders, s'.orders)
  {
    var r := Enter(s, id, user, dto, now);
    if r.Success? && TakesNow(dto.kind) {
      MatchContinues(r.value.orders, id, fills, s'.orders);
    }
  }

  lemma ModifyContinues(s: Ledger, user: int, dto: ModifyOrder, fills: seq<Fill>, s': Ledger)
    requires WellFormed(s.orders) && Step(s, ModifyEvent(user, dto, fills), s')
    ensures Continues(s.orders, s'.orders)
  {
    var r := Modify(s, user, dto);
    if r.Success? && s.orders[dto.id].kind.Limit? {
      MatchContinues(r.value.orders, dto.id, fills, s'.orders);
    }
  }

  lemma StepContinues(s: Ledger, e: Event, s': Ledger)
    requires WellFormed(s.orders) && Step(s, e, s')
    ensures Continues(s.orders, s'.orders)
  {
    match e
    case PlaceEvent(id, user, dto, now, fills) =>
      PlaceContinues(s, id, user, dto, now, fills, s');
    case CancelEvent(user, id) =>
    case ModifyEvent(user, dto, fills) =>
      ModifyContinues(s, user, dto, fills, s');
    case TriggerEvent(id, fills) =>
      if s' != s {
        MatchContinues(s.orders, id, fills, s'.orders);
      }
  }

  lemma MatchContinues(orders: Orders, tid: OrderId, fills: seq<Fill>, after: Orders)
    requires tid in orders && orders[tid].Open() && WellFormed(orders) && Matches(orders, tid, fills, after)
    ensures Continues(orders, after)
  {
    MatchKeeps(orders, tid, fills, after);
    forall k | k in orders ensures Grown(orders[k], after[k]) {
    }
  }

  lemma {:induction false} RunContinues(states: seq<Ledger>, events: seq<Event>, i: nat, j: nat)
    requires Run(states, events) && i <= j < |states|
    ensures Continues(states[i].orders, states[j].orders)
    decreases j - i
  {
    if i < j {
      RunContinues(states, events, i, j - 1);
      RunKeepsInv(states, events, j - 1);
      var e := events[j - 1];
      StepContinues(states[j - 1], e, states[j]);
    }
  }

  /** What a sell order has sold stays locked in its account from then on, through cancellation and all. */
  lemma SoldStaysLocked(states: seq<Ledger>, events: seq<Event>, i: nat, j: nat, k: OrderId)
    requires Run(states, events) && i <= j < |states|
    requires k in states[i].orders && states[i].orders[k].side.Sell?
    ensures AccountOf(states[i].orders[k]) in states[j].balances
    ensures states[i].orders[k].filled <= states[j].balances[AccountOf(states[i].orders[k])].locked
  {
    RunContinues(states, events, i, j);
    RunKeepsInv(states, events, j);
    var s := states[j];
    var m := CommittedBy(s.orders, AccountOf(s.orders[k]));
    forall q | q in m ensures m[q] >= 0.0 {
      assert WellFormedOrder(s.orders[q]);
    }
    TotalBound(m, k);
    assert WellFormedOrder(s.orders[k]);
  }

  // ---------- A completed sale leaves its lock ----------

  /** A sale of `q` units of asset `x` by user `u` to user `v` at price `p`. */
  datatype Sale = Sale(u: int, v: int, x: int, q: real, p: real) {
    function Ask(): CreateOrder { CreateOrder(x, Sell, Limit, q, Some(p), None, None) }
    function Bid(): CreateOrder { CreateOrder(x, Buy, Market, q, None, None, None) }
    function A(): Order { NewOrder(u, Ask(), 0) }
    function B(): Order { NewOrder(v, Bid(), 1) }
    function Start(): Ledger { Ledger(map[], map[Account(u, x) := Balance(q, 0.0)]) }
    function Resting(): Ledger { Ledger(map[0 := A()], map[Account(u, x) := Balance(q, q)]) }
    function Done(): Ledger {
      Ledger(map[0 := ApplyFill(A(), q), 1 := ApplyFill(B(), q)], map[Account(u, x) := Balance(q, q)])
    }
    function Events(): seq<Event> {
      [PlaceEvent(0, u, Ask(), 0, []), PlaceEvent(1, v, Bid(), 1, [Fill(0, q, p)])]
    }
  }

  lemma AskRests(t: Sale)
    requires t.q > 0.0
    ensures Step(t.Start(), t.Events()[0], t.Resting())
  {
    var o := t.Resting().orders;
    assert t.Start().orders[0 := t.A()] == o;
    assert Lock(t.Start().balances, Account(t.u, t.x), t.q) == t.Resting().balances;
    assert Exhausted(o, o[0]);
    assert Matches(o, 0, [], o);
  }

  lemma BidFillsAsk(t: Sale)
    requires t.q > 0.0
    ensures Step(t.Resting(), t.Events()[1], t.Done())
  {
    var o: Orders := map[0 := t.A(), 1 := t.B()];
    assert IsBest(o, o[1], 0);
    var next := MatchOne(o, 1, 0);
    assert next == t.Done().orders;
    var fills := [Fill(0, t.q, t.p)];
    assert Matches(next, 1, fills[1..], next);
    assert Matches(o, 1, fills, next);
    assert t.Resting().orders[1 := t.B()] == o;
  }

  lemma RunOfTwo(s0: Ledger, e0: Event, s1: Ledger, e1: Event, s2: Ledger)
    requires Init(s0) && Step(s0, e0, s1) && Step(s1, e1, s2)
    ensures Run([s0, s1, s2], [e0, e1])
  {
  }

  /** The shortest runs in which the documented meaning fails: the sale is completed and nothing is open, yet
      everything sold is still locked. */
  lemma CompletedSaleLeavesLock(t: Sale)
    requires t.q > 0.0
    ensures Run([t.Start(), t.Resting(), t.Done()], t.Events())
    ensures forall k :: k in t.Done().orders ==> !t.Done().orders[k].Open()
    ensures t.Done().balances[Account(t.u, t.x)].locked == t.q
  {
    AskRests(t);
    BidFillsAsk(t);
    RunOfTwo(t.Start(), t.Events()[0], t.Resting(), t.Events()[1], t.Done());
    assert t.Events() == [t.Events()[0], t.Events()[1]];
  }
}

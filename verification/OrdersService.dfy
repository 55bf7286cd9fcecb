/** The order service as code: orders and balances are fields, and every call is proved to be one step of
    the ledger (src/orders/orders.service.ts, src/orders/services/order-book.service.ts). */
module OrdersService {
  import opened Common
  import opened OrderBook
  import opened OrderLedger

  /** No maker that the taker crosses has a better price, or the same price and an earlier creation time. */
  ghost predicate FirstInLine(orders: Orders, taker: Order, mid: OrderId) {
    && mid in orders
    && forall k :: k in orders && Crossable(taker, orders[k]) ==>
      && NoWorse(taker.side, orders[mid].Price(), orders[k].Price())
      && (orders[mid].Price() == orders[k].Price() ==> orders[mid].created <= orders[k].created)
  }

  /** The maker query. Scans the rows for the best crossable one. */
  method QueryMaker(orders: Orders, taker: Order) returns (maker: Option<OrderId>)
    ensures maker.Some? ==> IsBest(orders, taker, maker.value)
    ensures maker.Some? ==> FirstInLine(orders, taker, maker.value)
    ensures maker.None? ==> Exhausted(orders, taker)
  {
    maker := None;
    var rest := orders.Keys;
    while rest != {}
      invariant rest <= orders.Keys
      invariant maker.None? ==> forall k :: k in orders && k !in rest ==> !Crossable(taker, orders[k])
      invariant maker.Some? ==> maker.value in orders && Crossable(taker, orders[maker.value])
      invariant maker.Some? ==> forall k :: k in orders && k !in rest && Crossable(taker, orders[k]) ==>
        Precedes(taker.side, orders[maker.value], orders[k])
      decreases rest
    {
      var k :| k in rest;
      if Crossable(taker, orders[k]) && (maker.None? || !Precedes(taker.side, orders[maker.value], orders[k])) {
        maker := Some(k);
      }
      rest := rest - {k};
    }
  }

  /** The rows a taker on `side` of `asset` could ever be matched with. */
  ghost function Book(orders: Orders, asset: int, side: Side): set<OrderId> {
    set k | k in orders && orders[k].asset == asset && orders[k].side == side && orders[k].Resting()
  }

  /** A fill that leaves the taker wanting more removes its maker from the book. */
  lemma FillShrinksBook(orders: Orders, tid: OrderId, mid: OrderId)
    requires WellFormed(orders) && tid in orders && IsBest(orders, orders[tid], mid)
    requires orders[tid].Open() && orders[tid].Remaining() > 0.0
    requires MatchOne(orders, tid, mid)[tid].Remaining() > 0.0
    ensures |Book(MatchOne(orders, tid, mid), orders[tid].asset, Opposite(orders[tid].side))|
          < |Book(orders, orders[tid].asset, Opposite(orders[tid].side))|
  {
    FillKeepsWellFormed(orders, tid, mid);
    var before := Book(orders, orders[tid].asset, Opposite(orders[tid].side));
    var after := Book(MatchOne(orders, tid, mid), orders[tid].asset, Opposite(orders[tid].side));
    assert after <= before - {mid};
    SubsetSize(after, before - {mid});
    assert mid in before;
  }

  /** `now` is reached by `fills`: whatever completes the matching from here completes it from the start. */
  ghost predicate Partially(orders: Orders, tid: OrderId, fills: seq<Fill>, now: Orders)
    requires tid in orders
  {
    && tid in now
    && forall more: seq<Fill>, after :: Matches(now, tid, more, after) ==> Matches(orders, tid, fills + more, after)
  }

  lemma NoFillYet(orders: Orders, tid: OrderId)
    requires tid in orders
    ensures Partially(orders, tid, [], orders)
  {
    forall more: seq<Fill>, after | Matches(orders, tid, more, after) ensures Matches(orders, tid, [] + more, after) {
      assert [] + more == more;
    }
  }

  lemma OneMoreFill(orders: Orders, tid: OrderId, fills: seq<Fill>, now: Orders, fill: Fill)
    requires tid in orders && Partially(orders, tid, fills, now)
    requires now[tid].Remaining() > 0.0 && IsBest(now, now[tid], fill.maker)
    requires fill == Fill(fill.maker, Min(now[tid].Remaining(), now[fill.maker].Remaining()), now[fill.maker].Price())
    ensures Partially(orders, tid, fills + [fill], MatchOne(now, tid, fill.maker))
  {
    forall more: seq<Fill>, after | Matches(MatchOne(now, tid, fill.maker), tid, more, after)
      ensures Matches(orders, tid, fills + [fill] + more, after)
    {
      assert ([fill] + more)[1..] == more;
      assert Matches(now, tid, [fill] + more, after);
      assert fills + [fill] + more == fills + ([fill] + more);
    }
  }

  lemma NoFillLeft(orders: Orders, tid: OrderId, fills: seq<Fill>, now: Orders)
    requires tid in orders && Partially(orders, tid, fills, now)
    requires now[tid].Remaining() <= 0.0 || Exhausted(now, now[tid])
    ensures Matches(orders, tid, fills, now)
  {
    assert Matches(now, tid, [], now);
    assert fills + [] == fills;
  }

  /** The stale row of the taker cannot be a maker, so the query may run before the taker is saved. */
  lemma StaleTakerInvisible(orders: Orders, tid: OrderId, taker: Order)
    requires tid in orders && orders[tid].side == taker.side
    ensures Exhausted(orders, taker) <==> Exhausted(orders[tid := taker], taker)
    ensures forall k :: IsBest(orders, taker, k) <==> IsBest(orders[tid := taker], taker, k)
  {
    var now := orders[tid := taker];
    assert !Crossable(taker, orders[tid]) && !Crossable(taker, taker);
    forall k | k in orders && k != tid ensures now[k] == orders[k] {
    }
  }

  /** What a new order must satisfy: the price its kind needs, and for a sale enough available balance. */
  predicate MayPlace(s: Ledger, user: int, dto: CreateOrder) {
    && (dto.kind.Limit? ==> dto.price.Some?)
    && (dto.kind.StopLoss? || dto.kind.TakeProfit? ==> dto.stopPrice.Some?)
    && (dto.kind.TrailingStop? ==> dto.trailingDelta.Some?)
    && (dto.side.Sell? ==> HasAvailable(s, Account(user, dto.asset), dto.amount))
  }

  predicate HasAvailable(s: Ledger, a: Account, amount: real) {
    a in s.balances && s.balances[a].balance - s.balances[a].locked >= amount
  }

  /** What a change must satisfy: an own resting order, no less than what is filled, enough available balance for what a
      sale grows by, and only the prices its kind has. */
  predicate MayModify(s: Ledger, user: int, dto: ModifyOrder) {
    && dto.id in s.orders
    && var o := s.orders[dto.id];
    && o.user == user && (o.status.Pending? || o.status.Partial?)
    && (dto.amount.Some? ==> dto.amount.value >= o.filled)
    && (dto.amount.Some? && o.side.Sell? ==>
          if dto.amount.value > o.amount then HasAvailable(s, Account(user, o.asset), dto.amount.value - o.amount)
          else Account(user, o.asset) in s.balances)
    && (dto.price.Some? ==> o.kind.Limit?)
    && (dto.stopPrice.Some? ==> o.kind.StopLoss? || o.kind.TakeProfit?)
    && (dto.trailingDelta.Some? ==> o.kind.TrailingStop?)
  }

  function Or<T>(changed: Option<T>, value: T): T { if changed.Some? then changed.value else value }

  /** `n` is a new order as `dto` asks for. */
  predicate AsRequested(n: Order, user: int, dto: CreateOrder, now: nat) {
    && n.user == user && n.asset == dto.asset && n.side == dto.side && n.kind == dto.kind && n.amount == dto.amount
    && (n.kind.Limit? ==> n.price == dto.price) && (!n.kind.Limit? ==> n.price.None?)
    && (n.kind.StopLoss? || n.kind.TakeProfit? ==> n.stopPrice == dto.stopPrice)
    && (n.kind.TrailingStop? ==> n.trailingDelta == dto.trailingDelta)
    && n.created == now
  }

  /** `n` is `o` with the changes that `dto` asks for, and possibly some fills. */
  predicate AsChanged(n: Order, o: Order, dto: ModifyOrder) {
    && n.user == o.user && n.asset == o.asset && n.side == o.side && n.kind == o.kind && n.created == o.created
    && n.amount == Or(dto.amount, o.amount)
    && n.price == (if dto.price.Some? then dto.price else o.price)
    && n.stopPrice == (if dto.stopPrice.Some? then dto.stopPrice else o.stopPrice)
    && n.trailingDelta == (if dto.trailingDelta.Some? then dto.trailingDelta else o.trailingDelta)
    && n.filled >= o.filled
  }

  lemma FillsKeepShape(before: Orders, after: Orders, k: OrderId)
    requires AllGrown(before, after) && k in before
    ensures k in after
    ensures forall user, dto: CreateOrder, now :: AsRequested(before[k], user, dto, now) ==> AsRequested(after[k], user, dto, now)
    ensures forall o: Order, dto: ModifyOrder :: AsChanged(before[k], o, dto) ==> AsChanged(after[k], o, dto)
  {
    assert Grown(before[k], after[k]);
  }

  /** The lock of one account moved by `delta`, and no other balance touched. */
  predicate LockMoved(before: map<Account, Balance>, after: map<Account, Balance>, a: Account, delta: real) {
    && after.Keys == before.Keys && a in before
    && after[a].locked == before[a].locked + delta && after[a].balance == before[a].balance
    && forall b :: b in before && b != a ==> after[b] == before[b]
  }

  lemma LockMoves(before: map<Account, Balance>, a: Account, delta: real)
    requires a in before
    ensures LockMoved(before, Lock(before, a, delta), a, delta)
  {
  }

  class OrdersService {
    var orders: Orders
    var balances: map<Account, Balance>

    ghost function View(): Ledger
      reads this
    {
      Ledger(orders, balances)
    }

    ghost predicate Valid()
      reads this
    {
      Inv(View())
    }

    constructor (balances: map<Account, Balance>)
      requires forall a :: a in balances ==> balances[a].locked == 0.0 <= balances[a].balance
      ensures Valid() && View() == Ledger(map[], balances)
    {
      orders, this.balances := map[], balances;
      new;
      InitInv(View());
    }

    /** Matches the taker against the book until it is done or nothing crosses. Makers are saved fill by fill;
        the taker is kept in memory and saved once at the end. */
    method MatchTakerOrder(tid: OrderId) returns (fills: seq<Fill>)
      requires WellFormed(orders) && tid in orders && orders[tid].Open()
      modifies this`orders
      ensures Matches(old(orders), tid, fills, orders)
    {
      fills := [];
      var taker := orders[tid];
      ghost var now := orders;
      NoFillYet(orders, tid);
      while taker.Remaining() > 0.0
        invariant orders.Keys == old(orders.Keys) && now == orders[tid := taker]
        invariant WellFormed(now) && (taker.Remaining() > 0.0 ==> taker.Open())
        invariant orders[tid].side == taker.side
        invariant Partially(old(orders), tid, fills, now)
        decreases if taker.Remaining() > 0.0 then 1 + |Book(now, taker.asset, Opposite(taker.side))| else 0
      {
        var best := QueryMaker(orders, taker);
        StaleTakerInvisible(orders, tid, taker);
        if best.None? {
          break;
        }
        var mid := best.value;
        var maker := orders[mid];
        var amount := Min(taker.Remaining(), maker.Remaining());
        FillKeepsWellFormed(now, tid, mid);
        if MatchOne(now, tid, mid)[tid].Remaining() > 0.0 {
          FillShrinksBook(now, tid, mid);
        }
        OneMoreFill(old(orders), tid, fills, now, Fill(mid, amount, maker.Price()));
        now := MatchOne(now, tid, mid);
        taker := ApplyFill(taker, amount);
        orders := orders[mid := ApplyFill(maker, amount)];
        fills := fills + [Fill(mid, amount, maker.Price())];
      }
      orders := orders[tid := taker];
      NoFillLeft(old(orders), tid, fills, now);
    }

    /** Validation, reservation and insertion: `placeOrder` up to the point where matching starts. */
    method EnterOrder(id: OrderId, user: int, dto: CreateOrder, now: nat) returns (error: Option<Error>)
      modifies this
      ensures match Enter(old(View()), id, user, dto, now)
        case Success(entered) => error == None && View() == entered
        case Failure(e) => error == Some(e) && View() == old(View())
      ensures error.None? <==> MayPlace(old(View()), user, dto)
      ensures error == Some(MissingPrice) <==> dto.kind.Limit? && dto.price.None?
      ensures error == Some(InsufficientBalance) ==>
        dto.side.Sell? && !HasAvailable(old(View()), Account(user, dto.asset), dto.amount)
      ensures error.None? ==> id in orders && AsRequested(orders[id], user, dto, now) && orders[id].filled == 0.0
      ensures error.None? && dto.side.Sell? ==> LockMoved(old(balances), balances, Account(user, dto.asset), dto.amount)
      ensures dto.side.Buy? ==> balances == old(balances)
    {
      if dto.kind.Limit? && dto.price.None? {
        return Some(MissingPrice);
      }
      if IsStop(dto.kind) && dto.stopPrice.None? {
        return Some(MissingStopPrice);
      }
      if dto.kind.TrailingStop? && dto.trailingDelta.None? {
        return Some(MissingTrailingDelta);
      }
      if dto.side.Sell? {
        var account := Account(user, dto.asset);
        if account !in balances || balances[account].Available() < dto.amount {
          return Some(InsufficientBalance);
        }
        var balance := balances[account];
        balances := balances[account := balance.(locked := balance.locked + dto.amount)];
      }
      orders := orders[id := NewOrder(user, dto, now)];
      error := None;
    }

    /** Places an order; a failed call changes nothing. */
    method PlaceOrder(id: OrderId, user: int, dto: CreateOrder, now: nat) returns (r: Result<Order>, fills: seq<Fill>)
      requires Valid() && id !in orders && dto.amount > 0.0
      modifies this
      ensures Valid() && Step(old(View()), PlaceEvent(id, user, dto, now, fills), View())
      ensures r.Success? ==> id in orders && r.value == orders[id]
      ensures r.Success? <==> MayPlace(old(View()), user, dto)
      ensures r.Success? ==> AsRequested(r.value, user, dto, now)
      ensures r.Success? && dto.side.Sell? ==> LockMoved(old(balances), balances, Account(user, dto.asset), dto.amount)
      ensures r.Failure? ==> View() == old(View())
      ensures match Enter(old(View()), id, user, dto, now)
        case Success(_) => r.Success?
        case Failure(e) => r == Failure(e)
    {
      ghost var before := View();
      fills := [];
      var error := EnterOrder(id, user, dto, now);
      if error.Some? {
        return Failure(error.value), [];
      }
      EnterKeepsInv(before, id, user, dto, now);
      if dto.kind.Market? || dto.kind.Limit? {
        ghost var entered := View();
        fills := MatchTakerOrder(id);
        MatchKeeps(entered.orders, id, fills, orders);
        FillsKeepShape(entered.orders, orders, id);
      }
      assert Step(before, PlaceEvent(id, user, dto, now, fills), View());
      StepKeepsInv(before, PlaceEvent(id, user, dto, now, fills), View());
      r := Success(orders[id]);
    }

    /** Cancels an open order of the caller and releases what it still locks. */
    method CancelOrder(user: int, id: OrderId) returns (r: Result<Order>)
      requires Valid()
      modifies this
      ensures Valid() && Step(old(View()), CancelEvent(user, id), View())
      ensures r.Success? <==> id in old(orders) && old(orders)[id].user == user && old(orders)[id].Open()
      ensures r.Success? ==> orders == old(orders)[id := r.value] && r.value == old(orders)[id].(status := Cancelled)
      ensures r.Failure? ==> View() == old(View())
      ensures r == Failure(NotFound) <==> id !in old(orders)
      ensures r == Failure(Forbidden) <==> id in old(orders) && old(orders)[id].user != user
      ensures r.Success? && r.value.side.Sell? ==>
        LockMoved(old(balances), balances, AccountOf(r.value), -r.value.Remaining())
      ensures r.Success? && r.value.side.Buy? ==> balances == old(balances)
    {
      ghost var before := View();
      if id !in orders {
        return Failure(NotFound);
      }
      var existing := orders[id];
      if existing.user != user {
        return Failure(Forbidden);
      }
      if existing.status.Filled? || existing.status.Cancelled? {
        return Failure(BadStatus);
      }
      if existing.side.Sell? {
        var account := Account(user, existing.asset);
        if account in balances {
          var balance := balances[account];
          balances := balances[account := balance.(locked := Max(0.0, balance.locked - existing.Remaining()))];
        }
      }
      existing := existing.(status := Cancelled);
      orders := orders[id := existing];
      CancelReleasesExactly(before, user, id);
      if existing.side.Sell? {
        LockMoves(before.balances, AccountOf(existing), -existing.Remaining());
      }
      StepKeepsInv(before, CancelEvent(user, id), View());
      r := Success(existing);
    }

    /** `modifyOrder` up to the point where matching starts. The balance is written before the later checks,
        so a late failure relies on the transaction: working copies are committed only at the end. */
    method ChangeOrder(user: int, dto: ModifyOrder) returns (error: Option<Error>)
      modifies this
      ensures match Modify(old(View()), user, dto)
        case Success(changed) => error == None && View() == changed
        case Failure(e) => error == Some(e) && View() == old(View())
      ensures error.None? <==> MayModify(old(View()), user, dto)
      ensures error == Some(NotFound) <==> dto.id !in old(orders)
      ensures error == Some(Forbidden) <==> dto.id in old(orders) && old(orders)[dto.id].user != user
      ensures error.None? ==> dto.id in orders && AsChanged(orders[dto.id], old(orders)[dto.id], dto)
      ensures error.None? && dto.amount.Some? && orders[dto.id].side.Sell? ==>
        LockMoved(old(balances), balances, AccountOf(old(orders)[dto.id]), dto.amount.value - old(orders)[dto.id].amount)
    {
      if dto.id !in orders {
        return Some(NotFound);
      }
      var existing := orders[dto.id];
      if existing.user != user {
        return Some(Forbidden);
      }
      if !existing.status.Pending? && !existing.status.Partial? {
        return Some(BadStatus);
      }
      var txBalances := balances;
      if dto.amount.Some? {
        if dto.amount.value < existing.filled {
          return Some(BelowFilled);
        }
        if existing.side.Sell? {
          var account := Account(user, existing.asset);
          if account !in txBalances {
            return Some(NoBalance);
          }
          var balance := txBalances[account];
          var oldRemaining := existing.Remaining();
          var newRemaining := dto.amount.value - existing.filled;
          var delta := newRemaining - oldRemaining;
          if delta > 0.0 && balance.Available() < delta {
            return Some(InsufficientBalance);
          }
          txBalances := txBalances[account := balance.(locked := balance.locked + delta)];
        }
        existing := existing.(amount := dto.amount.value);
      }
      if dto.price.Some? {
        if !existing.kind.Limit? {
          return Some(PriceNotLimit);
        }
        existing := existing.(price := dto.price);
      }
      if dto.stopPrice.Some? {
        if !IsStop(existing.kind) {
          return Some(StopPriceNotStop);
        }
        existing := existing.(stopPrice := dto.stopPrice);
      }
      if dto.trailingDelta.Some? {
        if !existing.kind.TrailingStop? {
          return Some(TrailingDeltaNotTrailing);
        }
        existing := existing.(trailingDelta := dto.trailingDelta);
      }
      balances := txBalances;
      orders := orders[dto.id := existing];
      error := None;
    }

    /** Changes a resting order and matches it again if it is a limit order; a failed call changes nothing. */
    method ModifyOrder(user: int, dto: ModifyOrder) returns (r: Result<Order>, fills: seq<Fill>)
      requires Valid() && (dto.amount.Some? ==> dto.amount.value > 0.0)
      modifies this
      ensures Valid() && Step(old(View()), ModifyEvent(user, dto, fills), View())
      ensures r.Success? ==> dto.id in orders && r.value == orders[dto.id]
      ensures r.Success? <==> MayModify(old(View()), user, dto)
      ensures r.Success? ==> AsChanged(r.value, old(orders)[dto.id], dto)
      ensures r.Success? && dto.amount.Some? && r.value.side.Sell? ==>
        LockMoved(old(balances), balances, AccountOf(old(orders)[dto.id]), dto.amount.value - old(orders)[dto.id].amount)
      ensures r.Failure? ==> View() == old(View())
      ensures match Modify(old(View()), user, dto)
        case Success(_) => r.Success?
        case Failure(e) => r == Failure(e)
    {
      ghost var before := View();
      fills := [];
      var error := ChangeOrder(user, dto);
      if error.Some? {
        return Failure(error.value), [];
      }
      ModifyKeepsInv(before, user, dto);
      if orders[dto.id].kind.Limit? {
        ghost var changed := View();
        fills := MatchTakerOrder(dto.id);
        MatchKeeps(changed.orders, dto.id, fills, orders);
        FillsKeepShape(changed.orders, orders, dto.id);
      }
      assert Step(before, ModifyEvent(user, dto, fills), View());
      StepKeepsInv(before, ModifyEvent(user, dto, fills), View());
      r := Success(orders[dto.id]);
    }

    /** A stop order whose price was reached becomes an active taker; an order that is gone or no longer
        pending is left alone (src/orders/services/stop-order-monitor.service.ts). */
    method Trigger(id: OrderId) returns (fired: bool, fills: seq<Fill>)
      requires Valid() && (id in orders ==> !TakesNow(orders[id].kind))
      modifies this
      ensures Valid() && Step(old(View()), TriggerEvent(id, fills), View())
      ensures fired <==> id in old(orders) && old(orders)[id].status.Pending?
      ensures !fired ==> View() == old(View())
    {
      ghost var before := View();
      fired, fills := false, [];
      if id !in orders || !orders[id].status.Pending? {
        return;
      }
      var row := orders[id].(status := Triggered);
      orders := orders[id := row];
      row := row.(status := Pending);
      orders := orders[id := row];
      assert orders == before.orders;
      fills := MatchTakerOrder(id);
      fired := true;
      StepKeepsInv(before, TriggerEvent(id, fills), View());
    }
  }
}

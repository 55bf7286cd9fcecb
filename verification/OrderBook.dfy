/** Orders, balances and the price-time matching engine
    (src/orders/entities/order.entity.ts, src/orders/services/order-book.service.ts). */
module OrderBook {
  import opened Common

  datatype Side = Buy | Sell
  datatype OrderType = Market | Limit | StopLoss | TakeProfit | TrailingStop
  datatype OrderStatus = Pending | Partial | Filled | Cancelled | Triggered | Rejected

  type OrderId = nat

  /** `created` is the row's creation time, the second key of the book's ordering. */
  datatype Order = Order(
    user: int, asset: int, side: Side, kind: OrderType, status: OrderStatus,
    amount: real, filled: real, price: Option<real>,
    stopPrice: Option<real>, trailingDelta: Option<real>, created: nat)
  {
    function Remaining(): real { amount - filled }

    /** What the cancel guard calls cancellable. */
    predicate Open() { !status.Filled? && !status.Cancelled? }

    /** Resting in the book: a limit order that a taker's query can return. */
    predicate Resting() { kind.Limit? && (status.Pending? || status.Partial?) }

    function Price(): real { if price.Some? then price.value else 0.0 }
  }

  type Orders = map<OrderId, Order>

  function Opposite(side: Side): Side { if side.Buy? then Sell else Buy }

  function Min(a: real, b: real): real { if a <= b then a else b }

  /** One side of a fill. */
  function ApplyFill(o: Order, f: real): Order {
    o.(filled := o.filled + f, status := if o.filled + f >= o.amount then Filled else Partial)
  }

  /** The maker query's `where` clauses. */
  predicate Crossable(taker: Order, maker: Order) {
    && maker.asset == taker.asset
    && maker.side == Opposite(taker.side)
    && maker.Resting()
    && (taker.kind.Limit? && taker.price.Some? ==>
          if taker.side.Buy? then maker.Price() <= taker.Price() else maker.Price() >= taker.Price())
  }

  /** The maker query's `order by`: best price for the taker first, then oldest first. */
  predicate Precedes(side: Side, a: Order, b: Order) {
    if a.Price() == b.Price() then a.created <= b.created
    else if side.Buy? then a.Price() < b.Price() else a.Price() > b.Price()
  }

  ghost predicate IsBest(orders: Orders, taker: Order, maker: OrderId) {
    && maker in orders
    && Crossable(taker, orders[maker])
    && forall k :: k in orders && Crossable(taker, orders[k]) ==> Precedes(taker.side, orders[maker], orders[k])
  }

  ghost predicate Exhausted(orders: Orders, taker: Order) {
    forall k :: k in orders ==> !Crossable(taker, orders[k])
  }

  datatype Fill = Fill(maker: OrderId, amount: real, price: real)

  function MatchOne(orders: Orders, tid: OrderId, mid: OrderId): Orders
    requires tid in orders && mid in orders
  {
    var f := Min(orders[tid].Remaining(), orders[mid].Remaining());
    orders[tid := ApplyFill(orders[tid], f)][mid := ApplyFill(orders[mid], f)]
  }

  /** `fills` is a complete matching of taker `tid`: while something remains, the best maker is filled at
      the maker's price, and matching stops only when nothing remains or nothing crosses. The relation
      leaves the choice between makers of equal price and creation time to the database. */
  ghost predicate Matches(orders: Orders, tid: OrderId, fills: seq<Fill>, after: Orders)
    requires tid in orders
    decreases |fills|
  {
    var taker := orders[tid];
    if fills == [] then
      after == orders && (taker.Remaining() <= 0.0 || Exhausted(orders, taker))
    else
      var mid := fills[0].maker;
      && taker.Remaining() > 0.0
      && IsBest(orders, taker, mid)
      && fills[0] == Fill(mid, Min(taker.Remaining(), orders[mid].Remaining()), orders[mid].Price())
      && Matches(MatchOne(orders, tid, mid), tid, fills[1..], after)
  }

  // ---------- What every order satisfies ----------

  predicate WellFormedOrder(o: Order) {
    && o.amount > 0.0
    && 0.0 <= o.filled <= o.amount
    && (o.status.Filled? ==> o.filled == o.amount)
    && (o.status.Pending? ==> o.filled == 0.0)
    && (o.kind.Limit? ==> o.price.Some?)
    && !o.status.Triggered? && !o.status.Rejected?
  }

  ghost predicate WellFormed(orders: Orders) {
    forall k :: k in orders ==> WellFormedOrder(orders[k])
  }

  /** The book is never crossed: no resting buy could trade with a resting sell of the same asset. */
  predicate PairUncrossed(b: Order, s: Order) {
    (&& b.side.Buy? && s.side.Sell? && b.asset == s.asset
     && b.Resting() && s.Resting()
     && b.Remaining() > 0.0 && s.Remaining() > 0.0)
    ==> b.Price() < s.Price()
  }

  ghost predicate UncrossedExcept(orders: Orders, tid: OrderId) {
    forall i, j :: i in orders && j in orders && i != tid && j != tid ==> PairUncrossed(orders[i], orders[j])
  }

  ghost predicate Uncrossed(orders: Orders) {
    forall i, j :: i in orders && j in orders ==> PairUncrossed(orders[i], orders[j])
  }

  // ---------- What one fill keeps ----------

  /** `b` is `a` after any number of fills: only `filled` and `status` move, and only forwards. */
  ghost predicate Grown(a: Order, b: Order) {
    && b == a.(filled := b.filled, status := b.status)
    && a.filled <= b.filled
    && (!a.Open() ==> b == a)
    && (b.Resting() ==> a.Resting())
    && (b.status.Cancelled? ==> a.status.Cancelled?)
  }

  ghost predicate AllGrown(before: Orders, after: Orders) {
    before.Keys == after.Keys && forall k :: k in before ==> Grown(before[k], after[k])
  }

  lemma FillKeepsWellFormed(orders: Orders, tid: OrderId, mid: OrderId)
    requires WellFormed(orders) && tid in orders && IsBest(orders, orders[tid], mid)
    requires orders[tid].Open() && orders[tid].Remaining() > 0.0
    ensures tid != mid
    ensures WellFormed(MatchOne(orders, tid, mid))
    ensures AllGrown(orders, MatchOne(orders, tid, mid))
    ensures MatchOne(orders, tid, mid)[tid].Remaining() > 0.0 ==>
      MatchOne(orders, tid, mid)[tid].Open() && MatchOne(orders, tid, mid)[mid].status.Filled?
  {
    var after := MatchOne(orders, tid, mid);
    assert after.Keys == orders.Keys;
    assert WellFormedOrder(orders[tid]) && WellFormedOrder(orders[mid]);
  }

  /** Everything a complete matching keeps, in one induction over its fills. */
  lemma {:induction false} MatchKeeps(orders: Orders, tid: OrderId, fills: seq<Fill>, after: Orders)
    requires tid in orders && orders[tid].Open()
    requires WellFormed(orders) && Matches(orders, tid, fills, after)
    ensures WellFormed(after) && AllGrown(orders, after)
    decreases |fills|
  {
    if fills == [] {
    } else {
      var mid := fills[0].maker;
      FillKeepsWellFormed(orders, tid, mid);
      var next := MatchOne(orders, tid, mid);
      if fills[1..] == [] {
      } else {
        MatchKeeps(next, tid, fills[1..], after);
      }
      GrownTransitive(orders, next, after);
    }
  }

  lemma GrownTransitive(a: Orders, b: Orders, c: Orders)
    requires AllGrown(a, b) && AllGrown(b, c)
    ensures AllGrown(a, c)
  {
    forall k | k in a ensures Grown(a[k], c[k]) {
      assert Grown(a[k], b[k]) && Grown(b[k], c[k]);
    }
  }

  lemma GrownKeepsUncrossed(orders: Orders, after: Orders, tid: OrderId)
    requires AllGrown(orders, after) && UncrossedExcept(orders, tid)
    ensures UncrossedExcept(after, tid)
  {
    forall i, j | i in after && j in after && i != tid && j != tid
      ensures PairUncrossed(after[i], after[j])
    {
      assert Grown(orders[i], after[i]) && Grown(orders[j], after[j]);
      assert PairUncrossed(orders[i], orders[j]);
    }
  }

  lemma WriteKeepsUncrossed(orders: Orders, k: OrderId, o: Order)
    requires Uncrossed(orders)
    ensures UncrossedExcept(orders[k := o], k)
    ensures !o.Resting() ==> Uncrossed(orders[k := o])
  {
    var after := orders[k := o];
    forall i, j | i in after && j in after && i != k && j != k ensures PairUncrossed(after[i], after[j]) {
      assert PairUncrossed(orders[i], orders[j]);
    }
  }

  // ---------- Main results about matching ----------

  /** Where a complete matching ends: the taker is done or finds nothing to trade with. */
  lemma {:induction false} MatchEnds(orders: Orders, tid: OrderId, fills: seq<Fill>, after: Orders)
    requires tid in orders && Matches(orders, tid, fills, after)
    ensures tid in after && (after[tid].Remaining() <= 0.0 || Exhausted(after, after[tid]))
    decreases |fills|
  {
    if fills != [] {
      MatchEnds(MatchOne(orders, tid, fills[0].maker), tid, fills[1..], after);
    }
  }

  /** Matching a taker restores the uncrossed book, whatever the taker's price. */
  lemma MatchUncrosses(orders: Orders, tid: OrderId, fills: seq<Fill>, after: Orders)
    requires tid in orders && orders[tid].Open()
    requires WellFormed(orders) && UncrossedExcept(orders, tid) && Matches(orders, tid, fills, after)
    ensures Uncrossed(after)
  {
    MatchKeeps(orders, tid, fills, after);
    MatchEnds(orders, tid, fills, after);
    GrownKeepsUncrossed(orders, after, tid);
    forall i, j | i in after && j in after ensures PairUncrossed(after[i], after[j]) {
      if i == tid || j == tid {
        assert WellFormedOrder(after[tid]);
        assert !Crossable(after[tid], after[if i == tid then j else i]) || after[tid].Remaining() <= 0.0;
      }
    }
  }

  function FillTotal(fills: seq<Fill>): real {
    if fills == [] then 0.0 else fills[0].amount + FillTotal(fills[1..])
  }

  /** The taker's filled amount grows by exactly what the fills add up to, and its status says whether it is done. */
  lemma {:induction false} TakerGetsFills(orders: Orders, tid: OrderId, fills: seq<Fill>, after: Orders)
    requires tid in orders && orders[tid].Open()
    requires WellFormed(orders) && Matches(orders, tid, fills, after)
    ensures tid in after && after[tid].filled == orders[tid].filled + FillTotal(fills)
    ensures if fills == [] then after[tid].status == orders[tid].status
            else after[tid].status == (if after[tid].filled == after[tid].amount then Filled else Partial)
    decreases |fills|
  {
    if fills != [] {
      var mid := fills[0].maker;
      FillKeepsWellFormed(orders, tid, mid);
      var next := MatchOne(orders, tid, mid);
      if fills[1..] != [] {
        TakerGetsFills(next, tid, fills[1..], after);
      }
    }
  }

  /** Price `p` is one the taker agreed to. */
  predicate WithinLimit(taker: Order, p: real) {
    taker.kind.Limit? && taker.price.Some? ==> if taker.side.Buy? then p <= taker.Price() else p >= taker.Price()
  }

  /** Price `p` is at least as good for the taker as `q`. */
  predicate NoWorse(side: Side, p: real, q: real) {
    if side.Buy? then p <= q else p >= q
  }

  /** Price-time priority over a whole matching: no fill breaks the taker's limit, and fill prices only get
      worse for the taker, because the best maker goes first and the book never improves meanwhile. */
  lemma {:induction false} FillPricesOrdered(orders: Orders, tid: OrderId, fills: seq<Fill>, after: Orders)
    requires tid in orders && orders[tid].Open()
    requires WellFormed(orders) && Matches(orders, tid, fills, after)
    ensures forall i :: 0 <= i < |fills| ==> WithinLimit(orders[tid], fills[i].price)
    ensures forall i, j :: 0 <= i < j < |fills| ==> NoWorse(orders[tid].side, fills[i].price, fills[j].price)
    decreases |fills|
  {
    if fills != [] {
      var mid := fills[0].maker;
      FillKeepsWellFormed(orders, tid, mid);
      var next := MatchOne(orders, tid, mid);
      var rest := fills[1..];
      if rest != [] {
        FillPricesOrdered(next, tid, rest, after);
        var second: OrderId := rest[0].maker;
        assert Grown(orders[second], next[second]) && Grown(orders[tid], next[tid]);
        assert Crossable(orders[tid], orders[second]);
        assert Precedes(orders[tid].side, orders[mid], orders[second]);
        assert NoWorse(orders[tid].side, fills[0].price, rest[0].price);
        forall j | 0 < j < |fills| ensures NoWorse(orders[tid].side, fills[0].price, fills[j].price) {
          assert fills[j] == rest[j - 1];
        }
      }
    }
  }

  /** Every fill is at the limit price of a maker that the taker crossed from the start. */
  lemma {:induction false} FillsFromBook(orders: Orders, tid: OrderId, fills: seq<Fill>, after: Orders, i: nat)
    requires tid in orders && orders[tid].Open()
    requires WellFormed(orders) && Matches(orders, tid, fills, after) && i < |fills|
    ensures fills[i].maker in orders && Crossable(orders[tid], orders[fills[i].maker])
    ensures fills[i].price == orders[fills[i].maker].Price()
    decreases |fills|
  {
    if i > 0 {
      var mid := fills[0].maker;
      FillKeepsWellFormed(orders, tid, mid);
      var next := MatchOne(orders, tid, mid);
      FillsFromBook(next, tid, fills[1..], after, i - 1);
      assert Grown(orders[tid], next[tid]) && Grown(orders[fills[i].maker], next[fills[i].maker]);
    }
  }

  /** Time priority between fills: of two fills at one price the earlier one went to the older maker. */
  lemma {:induction false} OlderMakerFirst(orders: Orders, tid: OrderId, fills: seq<Fill>, after: Orders, i: nat, j: nat)
    requires tid in orders && orders[tid].Open()
    requires WellFormed(orders) && Matches(orders, tid, fills, after) && i < j < |fills|
    ensures fills[i].maker in orders && fills[j].maker in orders
    ensures fills[i].price == fills[j].price ==> orders[fills[i].maker].created <= orders[fills[j].maker].created
    decreases |fills|
  {
    FillsFromBook(orders, tid, fills, after, i);
    FillsFromBook(orders, tid, fills, after, j);
    if i > 0 {
      var mid := fills[0].maker;
      FillKeepsWellFormed(orders, tid, mid);
      var next := MatchOne(orders, tid, mid);
      OlderMakerFirst(next, tid, fills[1..], after, i - 1, j - 1);
      assert Grown(orders[fills[i].maker], next[fills[i].maker]) && Grown(orders[fills[j].maker], next[fills[j].maker]);
    }
  }

  /** Priority over the makers that were left: if a maker the taker crosses keeps a remainder, no fill went to a maker of a
      worse price, nor to one of the same price that was created later. */
  lemma {:induction false} NobodyIsPassedOver(orders: Orders, tid: OrderId, fills: seq<Fill>, after: Orders, k: OrderId, i: nat)
    requires tid in orders && orders[tid].Open()
    requires WellFormed(orders) && Matches(orders, tid, fills, after) && i < |fills|
    requires k in orders && k in after && Crossable(orders[tid], orders[k]) && after[k].Remaining() > 0.0
    ensures fills[i].maker in orders && NoWorse(orders[tid].side, fills[i].price, orders[k].Price())
    ensures fills[i].price == orders[k].Price() ==> orders[fills[i].maker].created <= orders[k].created
    decreases |fills|
  {
    FillsFromBook(orders, tid, fills, after, i);
    if i > 0 {
      var mid := fills[0].maker;
      FillKeepsWellFormed(orders, tid, mid);
      var next := MatchOne(orders, tid, mid);
      MatchKeeps(next, tid, fills[1..], after);
      assert Grown(orders[tid], next[tid]) && Grown(orders[k], next[k]) && Grown(next[k], after[k]);
      assert WellFormedOrder(next[k]);
      NobodyIsPassedOver(next, tid, fills[1..], after, k, i - 1);
      assert Grown(orders[fills[i].maker], next[fills[i].maker]);
    }
  }
}

/** Two orders placed at the same time (src/orders/orders.service.ts, src/orders/services/order-book.service.ts).
    Under read-committed isolation a maker query does not see a row that another transaction has inserted and not yet
    committed, and no row lock covers such a row. When the maker queries of both calls run before either commits,
    each matches against the committed book alone. */
module ConcurrentOrders {
  import opened OrderBook
  import opened OrderLedger
  import opened Sums

  // ---------- What a taker is left with ----------

  /** What each maker the taker crosses has to offer. */
  ghost function Offers(orders: Orders, taker: Order): map<OrderId, real> {
    map k | k in orders && Crossable(taker, orders[k]) :: orders[k].Remaining()
  }

  ghost function Liquidity(orders: Orders, taker: Order): real { Total(Offers(orders, taker)) }

  lemma LiquidityNonNegative(orders: Orders, taker: Order)
    requires WellFormed(orders)
    ensures Liquidity(orders, taker) >= 0.0
  {
    var m := Offers(orders, taker);
    forall k | k in m ensures m[k] >= 0.0 {
      assert WellFormedOrder(orders[k]);
    }
    TotalNonNegative(m);
  }

  lemma OfferBounded(orders: Orders, taker: Order, k: OrderId)
    requires WellFormed(orders) && k in orders && Crossable(taker, orders[k])
    ensures orders[k].Remaining() <= Liquidity(orders, taker)
  {
    var m := Offers(orders, taker);
    forall j | j in m ensures m[j] >= 0.0 {
      assert WellFormedOrder(orders[j]);
    }
    TotalBound(m, k);
  }

  lemma OfferAfterFill(orders: Orders, tid: OrderId, mid: OrderId, k: OrderId)
    requires tid in orders && mid in orders && tid != mid && Crossable(orders[tid], orders[mid]) && k in orders
    requires MatchOne(orders, tid, mid)[mid].status.Filled?
    ensures
      var next := MatchOne(orders, tid, mid);
      && (Crossable(next[tid], next[k]) <==> k != mid && Crossable(orders[tid], orders[k]))
      && (k != mid && Crossable(orders[tid], orders[k]) ==> next[k] == orders[k])
  {
  }

  /** A fill that leaves the taker wanting more takes exactly the maker's offer off the book. */
  lemma FillDrains(orders: Orders, tid: OrderId, mid: OrderId)
    requires WellFormed(orders) && tid in orders && orders[tid].Open() && orders[tid].Remaining() > 0.0
    requires IsBest(orders, orders[tid], mid) && orders[mid].Remaining() < orders[tid].Remaining()
    ensures
      var next := MatchOne(orders, tid, mid);
      && next[tid].Remaining() == orders[tid].Remaining() - orders[mid].Remaining()
      && Liquidity(next, next[tid]) == Liquidity(orders, orders[tid]) - orders[mid].Remaining()
  {
    var next := MatchOne(orders, tid, mid);
    FillKeepsWellFormed(orders, tid, mid);
    TotalRemove(Offers(orders, orders[tid]), mid);
    forall k | k in orders ensures
      && (Crossable(next[tid], next[k]) <==> k != mid && Crossable(orders[tid], orders[k]))
      && (k != mid && Crossable(orders[tid], orders[k]) ==> next[k] == orders[k])
    {
      OfferAfterFill(orders, tid, mid, k);
    }
    OffersWithout(orders, orders[tid], next, next[tid], mid);
  }

  lemma OffersWithout(orders: Orders, taker: Order, next: Orders, taker': Order, mid: OrderId)
    requires next.Keys == orders.Keys
    requires forall k :: k in orders ==>
      && (Crossable(taker', next[k]) <==> k != mid && Crossable(taker, orders[k]))
      && (k != mid && Crossable(taker, orders[k]) ==> next[k] == orders[k])
    ensures Offers(next, taker') == Offers(orders, taker) - {mid}
  {
  }

  /** A complete matching leaves the taker with what the book could not offer it, and nothing else. */
  lemma {:induction false} TakerLeftover(orders: Orders, tid: OrderId, fills: seq<Fill>, after: Orders)
    requires tid in orders && orders[tid].Open() && WellFormed(orders) && Matches(orders, tid, fills, after)
    ensures tid in after
    ensures after[tid].Remaining() == Max(0.0, orders[tid].Remaining() - Liquidity(orders, orders[tid]))
    decreases |fills|
  {
    var taker := orders[tid];
    assert WellFormedOrder(taker);
    LiquidityNonNegative(orders, taker);
    if fills == [] {
      if taker.Remaining() > 0.0 {
        assert Offers(orders, taker) == map[];
      }
    } else {
      var mid := fills[0].maker;
      var next := MatchOne(orders, tid, mid);
      FillKeepsWellFormed(orders, tid, mid);
      OfferBounded(orders, taker, mid);
      if orders[mid].Remaining() < taker.Remaining() {
        FillDrains(orders, tid, mid);
        TakerLeftover(next, tid, fills[1..], after);
      } else {
        assert next[tid].Remaining() == 0.0;
        assert fills[1..] == [];
      }
    }
  }

  // ---------- Two transactions on the same committed book ----------

  /** A new order, as `placeOrder` inserts it. */
  predicate IsNew(o: Order) {
    WellFormedOrder(o) && o.filled == 0.0 && o.status.Pending?
  }

  /** A matching writes the taker and rows of the other side only. */
  lemma {:induction false} MatchSparesOwnSide(orders: Orders, tid: OrderId, fills: seq<Fill>, after: Orders, k: OrderId)
    requires tid in orders && Matches(orders, tid, fills, after)
    requires k in orders && k != tid && orders[k].side == orders[tid].side
    ensures k in after && after[k] == orders[k]
    decreases |fills|
  {
    if fills != [] {
      MatchSparesOwnSide(MatchOne(orders, tid, fills[0].maker), tid, fills[1..], after, k);
    }
  }

  /** A buy and a sell placed at the same time, by different accounts: calls of one account wait for each other's
      lock on its balance row. `afterBuy` and `afterSell` are what each transaction made of the
      committed book and its own row. */
  datatype Pair = Pair(book: Orders, buyId: OrderId, buy: Order, sellId: OrderId, sell: Order) {
    ghost predicate Valid() {
      && WellFormed(book) && Uncrossed(book)
      && buyId !in book && sellId !in book && buyId != sellId
      && AccountOf(buy) != AccountOf(sell)
      && IsNew(buy) && buy.side.Buy? && IsNew(sell) && sell.side.Sell?
    }

    function WithBuy(): Orders { book[buyId := buy] }
    function WithSell(): Orders { book[sellId := sell] }

    /** The book once both have committed: resting sells were written by the buy's transaction only, and resting buys
        by the sell's, so neither waits for a lock of the other and no write is lost. */
    function Merged(afterBuy: Orders, afterSell: Orders): Orders
      requires WithBuy().Keys == afterBuy.Keys && WithSell().Keys == afterSell.Keys
    {
      map k | k in book.Keys + {buyId, sellId} ::
        if k == buyId then afterBuy[k]
        else if k == sellId then afterSell[k]
        else if book[k].side.Sell? then afterBuy[k] else afterSell[k]
    }
  }

  ghost predicate BothMatched(p: Pair, buyFills: seq<Fill>, afterBuy: Orders, sellFills: seq<Fill>, afterSell: Orders) {
    && Matches(p.WithBuy(), p.buyId, buyFills, afterBuy)
    && Matches(p.WithSell(), p.sellId, sellFills, afterSell)
  }

  lemma NewIsWellFormed(book: Orders, id: OrderId, o: Order)
    requires WellFormed(book) && IsNew(o)
    ensures WellFormed(book[id := o])
  {
  }

  lemma OneSideKeeps(book: Orders, id: OrderId, o: Order, fills: seq<Fill>, after: Orders)
    requires WellFormed(book) && Uncrossed(book) && IsNew(o) && Matches(book[id := o], id, fills, after)
    ensures WellFormed(after) && AllGrown(book[id := o], after) && Uncrossed(after)
  {
    var orders := book[id := o];
    NewIsWellFormed(book, id, o);
    MatchKeeps(orders, id, fills, after);
    WriteKeepsUncrossed(book, id, o);
    MatchUncrosses(orders, id, fills, after);
  }

  lemma OneSideLeaves(book: Orders, id: OrderId, o: Order, fills: seq<Fill>, after: Orders)
    requires WellFormed(book) && id !in book && IsNew(o) && Matches(book[id := o], id, fills, after)
    ensures id in after && after[id].Remaining() == Max(0.0, o.amount - Liquidity(book, o))
  {
    var orders := book[id := o];
    NewIsWellFormed(book, id, o);
    TakerLeftover(orders, id, fills, after);
    assert Offers(orders, o) == Offers(book, o);
  }

  /** A new limit order rests in the book as long as something of it is left. */
  lemma LeftoverRests(o: Order, after: Order)
    requires IsNew(o) && Grown(o, after) && WellFormedOrder(after) && after.Remaining() > 0.0
    ensures after.Resting() <==> o.kind.Limit?
  {
  }

  /** What one of the two transactions leaves behind. */
  lemma OneSide(book: Orders, id: OrderId, o: Order, fills: seq<Fill>, after: Orders)
    requires WellFormed(book) && Uncrossed(book) && id !in book && IsNew(o) && Matches(book[id := o], id, fills, after)
    ensures AllGrown(book[id := o], after) && Uncrossed(after)
    ensures after[id].Resting() && after[id].Remaining() > 0.0 <==> o.kind.Limit? && o.amount > Liquidity(book, o)
  {
    OneSideKeeps(book, id, o, fills, after);
    OneSideLeaves(book, id, o, fills, after);
    assert Grown(book[id := o][id], after[id]) && WellFormedOrder(after[id]);
    if after[id].Remaining() > 0.0 {
      LeftoverRests(o, after[id]);
    }
  }

  /** Both transactions keep their writes, whichever commits last. */
  lemma NoWriteIsLost(p: Pair, buyFills: seq<Fill>, afterBuy: Orders, sellFills: seq<Fill>, afterSell: Orders, k: OrderId)
    requires p.Valid() && BothMatched(p, buyFills, afterBuy, sellFills, afterSell) && k in p.book
    requires p.WithBuy().Keys == afterBuy.Keys && p.WithSell().Keys == afterSell.Keys
    ensures afterBuy[k] == p.book[k] || afterSell[k] == p.book[k]
    ensures p.Merged(afterBuy, afterSell)[k] == if afterBuy[k] != p.book[k] then afterBuy[k] else afterSell[k]
  {
    if p.book[k].side.Buy? {
      MatchSparesOwnSide(p.WithBuy(), p.buyId, buyFills, afterBuy, k);
    } else {
      MatchSparesOwnSide(p.WithSell(), p.sellId, sellFills, afterSell, k);
    }
  }

  /** The two new orders would trade with each other, and the committed book cannot satisfy either: all of it is
      known before the calls. */
  ghost predicate CrossEachOther(p: Pair) {
    && p.buy.kind.Limit? && p.sell.kind.Limit? && p.buy.asset == p.sell.asset
    && p.buy.Price() >= p.sell.Price()
    && p.buy.amount > Liquidity(p.book, p.buy)
    && p.sell.amount > Liquidity(p.book, p.sell)
  }

  lemma NewPairCrossed(p: Pair, buyFills: seq<Fill>, afterBuy: Orders, sellFills: seq<Fill>, afterSell: Orders)
    requires p.Valid() && BothMatched(p, buyFills, afterBuy, sellFills, afterSell)
    ensures p.buyId in afterBuy && p.sellId in afterSell
    ensures PairUncrossed(afterBuy[p.buyId], afterSell[p.sellId]) <==> !CrossEachOther(p)
  {
    OneSide(p.book, p.buyId, p.buy, buyFills, afterBuy);
    OneSide(p.book, p.sellId, p.sell, sellFills, afterSell);
    assert Grown(p.WithBuy()[p.buyId], afterBuy[p.buyId]);
    assert Grown(p.WithSell()[p.sellId], afterSell[p.sellId]);
  }

  /** Every other pair is as uncrossed as before. */
  lemma OldPairsUncrossed(p: Pair, afterBuy: Orders, afterSell: Orders, i: OrderId, j: OrderId)
    requires p.Valid() && AllGrown(p.WithBuy(), afterBuy) && AllGrown(p.WithSell(), afterSell)
    requires Uncrossed(afterBuy) && Uncrossed(afterSell)
    requires i in p.book.Keys + {p.buyId} && j in p.book.Keys + {p.sellId} && (i in p.book || j in p.book)
    ensures
      var after := p.Merged(afterBuy, afterSell);
      i in after && j in after && PairUncrossed(after[i], after[j])
  {
    var after := p.Merged(afterBuy, afterSell);
    if i == p.buyId {
      assert j in afterBuy && Grown(p.WithBuy()[j], afterBuy[j]) && Grown(p.WithSell()[j], afterSell[j]);
      assert PairUncrossed(afterBuy[i], afterBuy[j]);
    } else if j == p.sellId {
      assert i in afterSell && Grown(p.WithBuy()[i], afterBuy[i]) && Grown(p.WithSell()[i], afterSell[i]);
      assert PairUncrossed(afterSell[i], afterSell[j]);
    } else {
      assert Grown(p.WithBuy()[i], afterBuy[i]) && Grown(p.WithSell()[i], afterSell[i]);
      assert Grown(p.WithBuy()[j], afterBuy[j]) && Grown(p.WithSell()[j], afterSell[j]);
      assert PairUncrossed(p.book[i], p.book[j]);
    }
  }

  /** Exactly when two concurrent placements leave the book crossed. */
  lemma ConcurrentPlacementsUncrossedIff(p: Pair, buyFills: seq<Fill>, afterBuy: Orders, sellFills: seq<Fill>, afterSell: Orders)
    requires p.Valid() && BothMatched(p, buyFills, afterBuy, sellFills, afterSell)
    ensures p.WithBuy().Keys == afterBuy.Keys && p.WithSell().Keys == afterSell.Keys
    ensures Uncrossed(p.Merged(afterBuy, afterSell)) <==> !CrossEachOther(p)
  {
    OneSide(p.book, p.buyId, p.buy, buyFills, afterBuy);
    OneSide(p.book, p.sellId, p.sell, sellFills, afterSell);
    NewPairCrossed(p, buyFills, afterBuy, sellFills, afterSell);
    var after := p.Merged(afterBuy, afterSell);
    assert Grown(p.WithBuy()[p.buyId], afterBuy[p.buyId]);
    assert Grown(p.WithSell()[p.sellId], afterSell[p.sellId]);
    if Uncrossed(after) {
      assert PairUncrossed(after[p.buyId], after[p.sellId]);
    }
    forall i, j | i in after && j in after && !(i == p.buyId && j == p.sellId) ensures PairUncrossed(after[i], after[j]) {
      if i != p.sellId && j != p.buyId {
        OldPairsUncrossed(p, afterBuy, afterSell, i, j);
      }
    }
  }

  /** The simplest case: on an empty book, a buy limit at or above a sell limit placed at the same time. */
  lemma ConcurrentLimitsCross(p: Pair)
    requires p.Valid() && p.book == map[] && p.buy.kind.Limit? && p.sell.kind.Limit?
    requires p.buy.asset == p.sell.asset && p.buy.Price() >= p.sell.Price()
    ensures BothMatched(p, [], p.WithBuy(), [], p.WithSell())
    ensures !Uncrossed(p.Merged(p.WithBuy(), p.WithSell()))
  {
    assert Exhausted(p.WithBuy(), p.buy) && Exhausted(p.WithSell(), p.sell);
    assert Matches(p.WithBuy(), p.buyId, [], p.WithBuy());
    assert Matches(p.WithSell(), p.sellId, [], p.WithSell());
    assert Offers(p.book, p.buy) == map[] && Offers(p.book, p.sell) == map[];
    ConcurrentPlacementsUncrossedIff(p, [], p.WithBuy(), [], p.WithSell());
  }
}

/** The save of a trailing stop (src/orders/services/stop-order-monitor.service.ts): a sweep reads the row without a lock
    and, when the reference price has moved, writes the whole row back. What other calls committed to that row in
    between is overwritten. */
module TrailingStops {
  import opened Common
  import opened OrderBook
  import opened OrderLedger
  import opened Sums

  /** The ledger after a row that was read earlier is saved. */
  function Saved(s: Ledger, k: OrderId, row: Order): Ledger { s.(orders := s.orders[k := row]) }

  /** `row` is an earlier version of order `k`. */
  ghost predicate EarlierVersion(s: Ledger, k: OrderId, row: Order) {
    && k in s.orders && WellFormedOrder(row) && row.kind.TrailingStop? && row.status.Pending?
    && AccountOf(s.orders[k]) == AccountOf(row) && s.orders[k].side == row.side
  }

  /** The row still commits the same amount, or it does not sell. */
  predicate SameCommitment(now: Order, row: Order) { now.side.Sell? ==> Committed(now) == row.amount }

  lemma SaveKeepsLocksIff(s: Ledger, k: OrderId, row: Order)
    requires LocksExact(s) && EarlierVersion(s, k, row)
    ensures LocksExact(Saved(s, k, row)) <==> SameCommitment(s.orders[k], row)
  {
    var s' := Saved(s, k, row);
    forall a | a in s.balances ensures
      Total(CommittedBy(s'.orders, a)) == Total(CommittedBy(s.orders, a)) +
        if SellsFrom(row, a) then Committed(row) - Committed(s.orders[k]) else 0.0
    {
      CommittedPut(s.orders, k, row, a);
    }
    if LocksExact(s') && row.side.Sell? {
      var a := AccountOf(s.orders[k]);
      assert a in s.balances && SellsFrom(row, a);
      assert s'.balances[a].locked == Total(CommittedBy(s'.orders, a));
    }
  }

  lemma SaveMovesFills(s: Ledger, k: OrderId, row: Order, asset: int, side: Side)
    requires EarlierVersion(s, k, row)
    ensures Total(FilledOn(Saved(s, k, row).orders, asset, side)) == Total(FilledOn(s.orders, asset, side)) +
      if row.asset == asset && row.side == side then row.filled - s.orders[k].filled else 0.0
  {
    var after := Saved(s, k, row).orders;
    if row.asset == asset && row.side == side {
      TotalPut(FilledOn(s.orders, asset, side), k, row.filled);
      assert FilledOn(after, asset, side) == FilledOn(s.orders, asset, side)[k := row.filled];
    } else {
      assert FilledOn(after, asset, side) == FilledOn(s.orders, asset, side);
    }
  }

  lemma SaveKeepsBalancedIff(s: Ledger, k: OrderId, row: Order)
    requires FillsBalanced(s.orders) && EarlierVersion(s, k, row)
    ensures FillsBalanced(Saved(s, k, row).orders) <==> s.orders[k].filled == row.filled
  {
    var after := Saved(s, k, row).orders;
    forall asset ensures
      Total(FilledOn(after, asset, Buy)) - Total(FilledOn(after, asset, Sell)) ==
        if row.asset != asset then 0.0
        else if row.side.Buy? then row.filled - s.orders[k].filled else s.orders[k].filled - row.filled
    {
      SaveMovesFills(s, k, row, asset, Buy);
      SaveMovesFills(s, k, row, asset, Sell);
      assert Total(FilledOn(s.orders, asset, Buy)) == Total(FilledOn(s.orders, asset, Sell));
    }
    if FillsBalanced(after) {
      assert Total(FilledOn(after, row.asset, Buy)) == Total(FilledOn(after, row.asset, Sell));
    }
  }

  /** Exactly when the save of an earlier version keeps the laws of the ledger: when the order was not filled in between,
      and, if it sells, was neither cancelled nor given another amount. */
  lemma SaveKeepsInvIff(s: Ledger, k: OrderId, row: Order)
    requires Inv(s) && EarlierVersion(s, k, row)
    ensures Inv(Saved(s, k, row)) <==> s.orders[k].filled == row.filled && SameCommitment(s.orders[k], row)
  {
    SaveKeepsLocksIff(s, k, row);
    SaveKeepsBalancedIff(s, k, row);
    WriteKeepsUncrossed(s.orders, k, row);
  }

  /** The same over runs: the row is read at moment `i` and saved at moment `j`. */
  lemma StaleSaveKeepsInvIff(states: seq<Ledger>, events: seq<Event>, i: nat, j: nat, k: OrderId)
    requires Run(states, events) && i <= j < |states|
    requires k in states[i].orders && states[i].orders[k].kind.TrailingStop? && states[i].orders[k].status.Pending?
    ensures k in states[j].orders
    ensures
      var row, now := states[i].orders[k], states[j].orders[k];
      Inv(Saved(states[j], k, row)) <==> now.filled == row.filled && SameCommitment(now, row)
  {
    RunContinues(states, events, i, j);
    RunKeepsInv(states, events, i);
    RunKeepsInv(states, events, j);
    assert WellFormedOrder(states[i].orders[k]);
    SaveKeepsInvIff(states[j], k, states[i].orders[k]);
  }

  /** A cancellation between read and save is undone: the order is pending again with its lock released. */
  lemma CancelIsUndone(s: Ledger, user: int, k: OrderId)
    requires Inv(s) && Cancel(s, user, k).Success?
    requires s.orders[k].kind.TrailingStop? && s.orders[k].status.Pending? && s.orders[k].side.Sell? && s.orders[k].Remaining() > 0.0
    ensures Saved(Cancel(s, user, k).value, k, s.orders[k]).orders == s.orders
    ensures !LocksExact(Saved(Cancel(s, user, k).value, k, s.orders[k]))
  {
    var cancelled := Cancel(s, user, k).value;
    CancelReleasesExactly(s, user, k);
    assert WellFormedOrder(s.orders[k]);
    assert cancelled.orders[k := s.orders[k]] == s.orders;
    SaveKeepsLocksIff(cancelled, k, s.orders[k]);
  }
}

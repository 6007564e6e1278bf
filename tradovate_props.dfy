/**
 * What the Tradovate state machine guarantees, proved about Replay (and so, by
 * the contracts of ReplayContract and ParseText, about the loops of the source).
 */
module TradovateProps {
  import opened Js
  import opened TradeModel
  import opened Tradovate

  // ---------------------------------------------------------------------------
  // Invariants of every reachable state

  /**
   * A flat position carries no entry state and no direction; an open one has a
   * direction; and while no exit has been recorded its direction is the sign of
   * the net position.
   */
  predicate Consistent(p: Position) {
    && (p.net == 0 ==> p.dir.None? && p.exits == [] && p.entryQty == 0 && p.entryDate == "" && p.entryPrice == 0.0)
    && (p.net != 0 ==> p.dir.Some?)
    && (p.net != 0 && p.exits == [] ==> (p.dir == Some(Long) <==> p.net > 0))
  }

  /** On the fill that lands on zero there is at least one exit fill and a direction. */
  lemma EmissionHasExits(p: Position, o: Order)
    requires Consistent(p) && Emits(p, o)
    ensures Advance(p, o).exits != [] && Advance(p, o).dir == p.dir && p.dir.Some?
  {
    if p.exits == [] {
      if p.dir.value == Long {
        assert p.net > 0;
      } else {
        assert p.dir == Some(Short) && p.net < 0;
      }
      assert IsClosing(p.dir, SignedQty(o));
    }
  }

  lemma StepConsistent(env: Env, contract: string, multiplier: real, r: Run, o: Order)
    requires Consistent(r.pos)
    ensures Consistent(Step(env, contract, multiplier, r, o).pos)
  {
    var p := r.pos;
    var s := SignedQty(o);
    if !Emits(p, o) && p.net != 0 && p.exits == [] && !IsClosing(p.dir, s) {
      var q := Advance(p, o);
      if p.dir.value == Long {
        assert p.net > 0 && s >= 0 && q.net > 0;
      } else {
        assert p.dir == Some(Short) && p.net < 0 && s <= 0 && q.net < 0;
      }
    }
  }

  /** Every state the fill loop reaches is Consistent. */
  lemma {:induction false} ReplayConsistent(env: Env, contract: string, multiplier: real, orders: seq<Order>)
    ensures Consistent(Replay(env, contract, multiplier, orders).pos)
    decreases |orders|
  {
    if orders != [] {
      var init := orders[..|orders| - 1];
      ReplayConsistent(env, contract, multiplier, init);
      StepConsistent(env, contract, multiplier, Replay(env, contract, multiplier, init), orders[|orders| - 1]);
    }
  }

  /**
   * For any fill stream, whenever a trade is emitted its exit list is non-empty
   * (so `lastExit` exists and the division of line 166 sees at least one fill) and
   * the trade's direction is the direction the position was opened with.
   */
  lemma EmittedTradeWellFormed(env: Env, contract: string, multiplier: real, orders: seq<Order>, o: Order)
    requires Emits(Replay(env, contract, multiplier, orders).pos, o)
    ensures var p := Replay(env, contract, multiplier, orders).pos;
      var q := Advance(p, o);
      q.exits != [] && p.dir.Some? &&
      Close(env, contract, multiplier, q).direction == p.dir.value &&
      Close(env, contract, multiplier, q).exitDate == q.exits[|q.exits| - 1].date
  {
    ReplayConsistent(env, contract, multiplier, orders);
    EmissionHasExits(Replay(env, contract, multiplier, orders).pos, o);
  }

  // ---------------------------------------------------------------------------
  // Quantity balance, for non-negative fill quantities

  function DirSign(d: Direction): int {
    if d == Long then 1 else -1
  }

  /**
   * While a position has a direction it holds a positive entry quantity and its
   * net position is ±(entryQty − Σ exit quantities), + for long and − for short.
   */
  predicate Balanced(p: Position) {
    p.dir.Some? ==> p.entryQty > 0 && p.net == DirSign(p.dir.value) * (p.entryQty - LegQuantity(p.exits))
  }

  predicate NonNegative(orders: seq<Order>) {
    forall i :: 0 <= i < |orders| ==> orders[i].qty >= 0
  }

  lemma AdvanceBalanced(p: Position, o: Order)
    requires Consistent(p) && Balanced(p) && o.qty >= 0
    ensures Balanced(Advance(p, o))
  {
    var q := Advance(p, o);
    var s := SignedQty(o);
    if p.net != 0 && IsClosing(p.dir, s) {
      assert q.exits[..|q.exits| - 1] == p.exits;
      assert LegQuantity(q.exits) == LegQuantity(p.exits) + o.qty;
    }
  }

  /** With non-negative quantities every reachable state is Balanced, including after a fill that crosses zero. */
  lemma {:induction false} ReplayBalanced(env: Env, contract: string, multiplier: real, orders: seq<Order>)
    requires NonNegative(orders)
    ensures Balanced(Replay(env, contract, multiplier, orders).pos)
    decreases |orders|
  {
    if orders != [] {
      var init := orders[..|orders| - 1];
      assert NonNegative(init) by {
        forall i | 0 <= i < |init| ensures init[i].qty >= 0 {
          assert init[i] == orders[i];
        }
      }
      ReplayBalanced(env, contract, multiplier, init);
      ReplayConsistent(env, contract, multiplier, init);
      AdvanceBalanced(Replay(env, contract, multiplier, init).pos, orders[|orders| - 1]);
    }
  }

  /**
   * With non-negative quantities an emitted trade's size is the total quantity of
   * its exit fills, which is positive: the exit-price average divides by it, and
   * when the exits are listed as take-profit legs their quantities add up to it.
   */
  lemma EmittedSize(env: Env, contract: string, multiplier: real, orders: seq<Order>, o: Order)
    requires NonNegative(orders) && o.qty >= 0
    requires Emits(Replay(env, contract, multiplier, orders).pos, o)
    ensures var q := Advance(Replay(env, contract, multiplier, orders).pos, o);
      var t := Close(env, contract, multiplier, q);
      t.positionSize == LegQuantity(q.exits) && t.positionSize > 0 &&
      (t.takeProfits != [] ==> LegQuantity(t.takeProfits) == t.positionSize)
  {
    var p := Replay(env, contract, multiplier, orders).pos;
    ReplayConsistent(env, contract, multiplier, orders);
    ReplayBalanced(env, contract, multiplier, orders);
    AdvanceBalanced(p, o);
  }

  // ---------------------------------------------------------------------------
  // Net position and the number of trades

  /** The running total of signed fill quantities. */
  function SignedSum(orders: seq<Order>): int {
    if orders == [] then 0 else SignedSum(orders[..|orders| - 1]) + SignedQty(orders[|orders| - 1])
  }

  /** The number of fills after which the running total lands on zero from a non-zero value. */
  function ZeroLandings(orders: seq<Order>): nat {
    if orders == [] then 0
    else
      var init := orders[..|orders| - 1];
      ZeroLandings(init) + (if SignedSum(init) != 0 && SignedSum(orders) == 0 then 1 else 0)
  }

  /** The net position is the running total of signed quantities: the reset never loses any. */
  lemma {:induction false} ReplayNet(env: Env, contract: string, multiplier: real, orders: seq<Order>)
    ensures Replay(env, contract, multiplier, orders).pos.net == SignedSum(orders)
    decreases |orders|
  {
    if orders != [] {
      ReplayNet(env, contract, multiplier, orders[..|orders| - 1]);
    }
  }

  /**
   * One trade per landing on zero, and no other: a position open at the end, or a
   * fill that jumps over zero to the other side, emits nothing.
   */
  lemma {:induction false} TradeCount(env: Env, contract: string, multiplier: real, orders: seq<Order>)
    ensures |Replay(env, contract, multiplier, orders).trades| == ZeroLandings(orders)
    decreases |orders|
  {
    if orders != [] {
      var init := orders[..|orders| - 1];
      TradeCount(env, contract, multiplier, init);
      ReplayNet(env, contract, multiplier, init);
    }
  }

  /** Every trade of a contract carries that contract as its symbol. */
  lemma {:induction false} ReplaySymbols(env: Env, contract: string, multiplier: real, orders: seq<Order>)
    ensures forall i :: 0 <= i < |Replay(env, contract, multiplier, orders).trades| ==>
      Replay(env, contract, multiplier, orders).trades[i].symbol == contract
    decreases |orders|
  {
    if orders != [] {
      ReplaySymbols(env, contract, multiplier, orders[..|orders| - 1]);
    }
  }

  // ---------------------------------------------------------------------------
  // The volume-weighted entry price

  function BuyQty(orders: seq<Order>): int {
    if orders == [] then 0 else BuyQty(orders[..|orders| - 1]) + orders[|orders| - 1].qty
  }

  function BuyNotional(orders: seq<Order>): real {
    if orders == [] then 0.0
    else BuyNotional(orders[..|orders| - 1]) + orders[|orders| - 1].price * orders[|orders| - 1].qty as real
  }

  lemma DivTimes(x: real, y: real)
    requires y != 0.0
    ensures Div(x, y) * y == x
  {
  }

  predicate AllBuys(orders: seq<Order>) {
    forall i :: 0 <= i < |orders| ==> orders[i].side == "Buy" && orders[i].qty > 0
  }

  /** A long position built by buys totalling `qty` for `notional`, opened at `start`. */
  predicate LongFromBuys(p: Position, qty: int, notional: real, start: string) {
    && p.net == qty && p.entryQty == qty && qty > 0 && p.exits == []
    && p.dir == Some(Long) && p.entryDate == start
    && p.entryPrice * qty as real == notional
  }

  /**
   * Buys only, from flat: one long position, opened at the first fill, whose entry
   * price is the quantity-weighted average of the fill prices.
   */
  lemma {:induction false} EntryPriceIsWeightedAverage(env: Env, contract: string, multiplier: real, orders: seq<Order>)
    requires orders != [] && AllBuys(orders)
    ensures LongFromBuys(Replay(env, contract, multiplier, orders).pos, BuyQty(orders), BuyNotional(orders), orders[0].fillTime)
    decreases |orders|
  {
    var init := orders[..|orders| - 1];
    var o := orders[|orders| - 1];
    if init == [] {
      assert orders == [o];
    } else {
      assert AllBuys(init) by {
        forall i | 0 <= i < |init| ensures init[i].side == "Buy" && init[i].qty > 0 {
          assert init[i] == orders[i];
        }
      }
      EntryPriceIsWeightedAverage(env, contract, multiplier, init);
      assert init[0] == orders[0];
      EntryPriceStep(env, contract, multiplier, orders);
    }
  }

  lemma EntryPriceStep(env: Env, contract: string, multiplier: real, orders: seq<Order>)
    requires |orders| >= 2
    requires orders[|orders| - 1].side == "Buy" && orders[|orders| - 1].qty > 0
    requires var init := orders[..|orders| - 1];
      LongFromBuys(Replay(env, contract, multiplier, init).pos, BuyQty(init), BuyNotional(init), orders[0].fillTime)
    ensures LongFromBuys(Replay(env, contract, multiplier, orders).pos, BuyQty(orders), BuyNotional(orders), orders[0].fillTime)
  {
    var init := orders[..|orders| - 1];
    var o := orders[|orders| - 1];
    var p := Replay(env, contract, multiplier, init).pos;
    BuyStep(p, o, BuyQty(init), BuyNotional(init), BuyQty(orders), BuyNotional(orders));
  }

  /** One more buy on a long position opened by buys. */
  lemma BuyStep(p: Position, o: Order, held: int, notional: real, held': int, notional': real)
    requires p.net == held && p.entryQty == held && held > 0 && p.exits == [] && p.dir == Some(Long)
    requires p.entryPrice * held as real == notional
    requires o.side == "Buy" && o.qty > 0
    requires held' == held + o.qty && notional' == notional + o.price * o.qty as real
    ensures !Emits(p, o)
    ensures var q := Advance(p, o);
      && q.net == held' && q.entryQty == held' && q.exits == [] && q.dir == Some(Long)
      && q.entryDate == p.entryDate && q.entryPrice * held' as real == notional'
  {
    AverageStep(p.entryPrice, held, o.price, o.qty, held', notional);
  }

  /**
   * What one fill does to the position, branch by branch (lines 131-151): from flat it opens a
   * position in the fill's direction at the fill's price; a fill against the entry direction is
   * recorded as an exit and leaves the entry alone; any other fill on an open position adds to the
   * entry at the volume-weighted average price.
   */
  lemma FillUpdate(p: Position, o: Order)
    ensures var q := Advance(p, o);
      p.net == 0 && q.net != 0 ==>
        && q.dir == Some(if q.net > 0 then Long else Short) && q.entryPrice == o.price
        && q.entryQty == Abs(q.net) && q.entryDate == o.fillTime && q.exits == [] && q.account == o.account
    ensures p.net == 0 && p.net + SignedQty(o) == 0 ==> Advance(p, o) == p
    ensures var q := Advance(p, o);
      p.net != 0 && IsClosing(p.dir, SignedQty(o)) ==>
        && q.exits == p.exits + [Leg(o.price, o.qty, o.fillTime)]
        && q.entryPrice == p.entryPrice && q.entryQty == p.entryQty
        && q.dir == p.dir && q.entryDate == p.entryDate && q.account == p.account
    ensures var q := Advance(p, o);
      p.net != 0 && !IsClosing(p.dir, SignedQty(o)) ==>
        && q.entryQty == p.entryQty + o.qty && q.exits == p.exits
        && q.dir == p.dir && q.entryDate == p.entryDate && q.account == p.account
        && (q.entryQty != 0 ==>
              q.entryPrice * q.entryQty as real == p.entryPrice * p.entryQty as real + o.price * o.qty as real)
  {
    if p.net != 0 && !IsClosing(p.dir, SignedQty(o)) && p.entryQty + o.qty != 0 {
      var qty := p.entryQty + o.qty;
      assert (qty - o.qty) as real == p.entryQty as real;
      DivTimes(p.entryPrice * (qty - o.qty) as real + o.price * o.qty as real, qty as real);
    }
  }

  /** Adding `qty` at `price` to `held` priced at `e` keeps price times quantity equal to the notional. */
  lemma AverageStep(e: real, held: int, price: real, qty: int, q: int, notional: real)
    requires held > 0 && qty > 0 && q == held + qty && e * held as real == notional
    ensures AveragePrice(e, q, price, qty) * q as real == notional + price * qty as real
  {
    assert q - qty == held;
    DivTimes(e * (q - qty) as real + price * qty as real, q as real);
  }

  // ---------------------------------------------------------------------------
  // Scenarios

  function Fill(side: string, qty: int, price: real, time: string): Order {
    Order("MNQZ4", "MNQ", side, price, qty, time, "acct")
  }

  /** Two contracts bought at 100 and sold one at 101, one at 102, on MNQ (2 per point). */
  lemma ScaleOutScenario(env: Env)
    ensures var orders := [Fill("Buy", 2, 100.0, "t1"), Fill("Sell", 1, 101.0, "t2"), Fill("Sell", 1, 102.0, "t3")];
      var ts := Replay(env, "MNQZ4", 2.0, orders).trades;
      |ts| == 1 && ts[0].direction == Long && ts[0].positionSize == 2 && ts[0].entryPrice == 100.0 &&
      ts[0].pnl == Some(6.0) && ts[0].exitPrice == 101.5 && ts[0].exitDate == "t3" &&
      ts[0].takeProfits == [Leg(101.0, 1, "t2"), Leg(102.0, 1, "t3")]
  {
    var o1, o2, o3 := Fill("Buy", 2, 100.0, "t1"), Fill("Sell", 1, 101.0, "t2"), Fill("Sell", 1, 102.0, "t3");
    assert [o1][..0] == [];
    assert [o1, o2][..1] == [o1];
    assert [o1, o2, o3][..2] == [o1, o2];
    assert Replay(env, "MNQZ4", 2.0, []) == Run(Flat(""), []);
    assert Advance(Flat(""), o1) == Position(2, Some(Long), 100.0, 2, "t1", [], "acct");
    var r1 := Replay(env, "MNQZ4", 2.0, [o1]);
    assert r1 == Run(Position(2, Some(Long), 100.0, 2, "t1", [], "acct"), []);
    var r2 := Replay(env, "MNQZ4", 2.0, [o1, o2]);
    assert r2 == Run(Position(1, Some(Long), 100.0, 2, "t1", [Leg(101.0, 1, "t2")], "acct"), []);
    var exits := [Leg(101.0, 1, "t2"), Leg(102.0, 1, "t3")];
    assert Advance(r2.pos, o3) == Position(0, Some(Long), 100.0, 2, "t1", exits, "acct");
    assert exits[..1] == [Leg(101.0, 1, "t2")];
    assert [Leg(101.0, 1, "t2")][..0] == [];
    assert ExitPnl(exits, Some(Long), 100.0, 2.0) == 6.0;
    assert ExitNotional(exits) == 203.0;
    assert LegQuantity(exits) == 2;
    assert Round2(6.0) == 6.0 by { Round2Cents(600); }
    assert Round2(203.0 / 2.0) == 101.5 by { Round2Cents(10150); }
  }

  /**
   * Long 1, then sell 2: the fill crosses zero without landing on it, so no trade
   * is emitted, the sell is recorded as one exit of 2, and the position stays
   * "long" although it is now short 1. Buying 1 back lands on zero and emits one
   * long trade of size 2 whose entry price averages the two buys.
   */
  lemma FlipThroughZero(env: Env)
    ensures var a := [Fill("Buy", 1, 100.0, "t1"), Fill("Sell", 2, 110.0, "t2")];
      var r := Replay(env, "MNQZ4", 2.0, a);
      r.trades == [] && r.pos.net == -1 && r.pos.dir == Some(Long) && r.pos.exits == [Leg(110.0, 2, "t2")]
    ensures var b := [Fill("Buy", 1, 100.0, "t1"), Fill("Sell", 2, 110.0, "t2"), Fill("Buy", 1, 105.0, "t3")];
      var ts := Replay(env, "MNQZ4", 2.0, b).trades;
      |ts| == 1 && ts[0].direction == Long && ts[0].positionSize == 2 && ts[0].entryPrice == 102.5 &&
      ts[0].pnl == Some(30.0) && ts[0].takeProfits == []
  {
    var o1, o2, o3 := Fill("Buy", 1, 100.0, "t1"), Fill("Sell", 2, 110.0, "t2"), Fill("Buy", 1, 105.0, "t3");
    assert [o1][..0] == [];
    assert [o1, o2][..1] == [o1];
    assert [o1, o2, o3][..2] == [o1, o2];
    assert Replay(env, "MNQZ4", 2.0, []) == Run(Flat(""), []);
    assert Advance(Flat(""), o1) == Position(1, Some(Long), 100.0, 1, "t1", [], "acct");
    var r1 := Replay(env, "MNQZ4", 2.0, [o1]);
    assert r1 == Run(Position(1, Some(Long), 100.0, 1, "t1", [], "acct"), []);
    var r2 := Replay(env, "MNQZ4", 2.0, [o1, o2]);
    assert r2 == Run(Position(-1, Some(Long), 100.0, 1, "t1", [Leg(110.0, 2, "t2")], "acct"), []);
    assert AveragePrice(100.0, 2, 105.0, 1) == 102.5;
    var exits := [Leg(110.0, 2, "t2")];
    assert Advance(r2.pos, o3) == Position(0, Some(Long), 102.5, 2, "t1", exits, "acct");
    assert exits[..0] == [];
    assert ExitPnl(exits, Some(Long), 102.5, 2.0) == 30.0;
    assert Round2(30.0) == 30.0 by { Round2Cents(3000); }
  }
}

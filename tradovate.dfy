/**
 * `tradovateParser.parse` of `src/lib/broker-parsers.js`: filled orders, sorted by
 * fill time and grouped by contract, are replayed through a signed-position state
 * machine that emits one round-trip trade each time the net position returns to
 * exactly zero.
 *
 * Replay is the reference definition of the per-contract loop (one Step per fill);
 * ReplayContract is that loop written as the source writes it, and ParseText the
 * whole parser.
 */
module Tradovate {
  import opened Js
  import opened Grouping
  import opened CsvTokenizer
  import opened BrokerCommon
  import opened TradeModel
  import opened TradeUtils

  // ---------------------------------------------------------------------------
  // Filled orders

  datatype Order = Order(contract: string, product: string, side: string, price: real,
                         qty: int, fillTime: string, account: string)

  /** The `filter((r) => (r.Status || '').trim() === 'Filled')` test. */
  predicate IsFilled(row: Row) {
    Trim(Field(row, "Status")) == "Filled"
  }

  function FilledRows(rows: seq<Row>): (r: seq<Row>)
    ensures |r| <= |rows|
    ensures forall i :: 0 <= i < |r| ==> IsFilled(r[i]) && r[i] in rows
  {
    if rows == [] then []
    else
      var last := rows[|rows| - 1];
      FilledRows(rows[..|rows| - 1]) + (if IsFilled(last) then [last] else [])
  }

  /** The `map((r) => ({ contract, product, side, price, qty, fillTime, account }))` callback. */
  function RowToOrder(env: Env, row: Row): Order {
    Order(
      contract := Trim(Field(row, "Contract")),
      product := Trim(Field(row, "Product")),
      side := Trim(Field(row, "B/S")),
      price := ParseFloatOr0(env, Or(Field(row, "Avg Fill Price"), Field(row, "avgPrice"))),
      qty := ParseIntOr0(env, Or(Field(row, "Filled Qty"), Field(row, "filledQty"))),
      fillTime := ToIso(env, Or(Field(row, "Fill Time"), Field(row, "Timestamp"))),
      account := Trim(Field(row, "Account")))
  }

  /** The sort key: `new Date(fillTime)` as a number. */
  function FillMs(env: Env, o: Order): real {
    env.dateMs(o.fillTime) as real
  }

  /** `filledOrders`: the filled rows as orders, stably sorted by fill time. */
  function FilledOrders(env: Env, rows: seq<Row>): seq<Order> {
    var filled := FilledRows(rows);
    var orders := seq(|filled|, i requires 0 <= i < |filled| => RowToOrder(env, filled[i]));
    SortBy(orders, o => FillMs(env, o))
  }

  /**
   * The filled orders are exactly the filled rows, re-ordered by fill time, with
   * orders of equal fill time in input order.
   */
  lemma FilledOrdersFacts(env: Env, rows: seq<Row>, ms: real)
    ensures var filled := FilledRows(rows);
      var orders := seq(|filled|, i requires 0 <= i < |filled| => RowToOrder(env, filled[i]));
      var r := FilledOrders(env, rows);
      multiset(r) == multiset(orders) &&
      SortedBy(r, o => FillMs(env, o)) &&
      WithKey(r, o => FillMs(env, o), ms) == WithKey(orders, o => FillMs(env, o), ms)
  {
    var filled := FilledRows(rows);
    var orders := seq(|filled|, i requires 0 <= i < |filled| => RowToOrder(env, filled[i]));
    SortBySorted(orders, o => FillMs(env, o));
    SortByStable(orders, o => FillMs(env, o), ms);
  }

  function ContractOf(o: Order): string {
    o.contract
  }

  // ---------------------------------------------------------------------------
  // The position state machine

  /**
   * The loop variables of one contract: `netPosition`, `entryDirection` (None is
   * `null`), `entryPrice`, `entryQty`, `entryDate`, `exitFills` and `account`.
   */
  datatype Position = Position(net: int, dir: Option<Direction>, entryPrice: real, entryQty: int,
                               entryDate: string, exits: seq<Leg>, account: string)

  /** The state after an emitted trade is reset (`account` is not reset). */
  function Flat(account: string): Position {
    Position(0, None, 0.0, 0, "", [], account)
  }

  /** `order.side === 'Buy' ? order.qty : -order.qty`. */
  function SignedQty(o: Order): int {
    if o.side == "Buy" then o.qty else -o.qty
  }

  function Abs(x: int): nat {
    if x < 0 then -x else x
  }

  /** The source's `/`; a zero divisor (only reachable with negative or zero quantities) gives 0 here. */
  function Div(x: real, y: real): real {
    if y == 0.0 then 0.0 else x / y
  }

  /** Line 150: the entry price after adding `qty` at `price` to a position now holding `newQty`. */
  function AveragePrice(entryPrice: real, newQty: int, price: real, qty: int): real {
    Div(entryPrice * (newQty - qty) as real + price * qty as real, newQty as real)
  }

  /** A fill against the entry direction (the `isClosing` test, where `null` is neither direction). */
  predicate IsClosing(dir: Option<Direction>, signedQty: int) {
    (dir == Some(Long) && signedQty < 0) || (dir == Some(Short) && signedQty > 0)
  }

  /** The position update for one fill, before any trade is emitted. */
  function Advance(p: Position, o: Order): (q: Position)
    ensures q.net == p.net + SignedQty(o)
  {
    var s := SignedQty(o);
    var net := p.net + s;
    if p.net == 0 && net != 0 then
      Position(net, Some(if net > 0 then Long else Short), o.price, Abs(net), o.fillTime, [], o.account)
    else if p.net != 0 then
      if IsClosing(p.dir, s) then
        p.(net := net, exits := p.exits + [Leg(o.price, o.qty, o.fillTime)])
      else
        var qty := p.entryQty + o.qty;
        p.(net := net, entryQty := qty, entryPrice := AveragePrice(p.entryPrice, qty, o.price, o.qty))
    else p
  }

  /** A trade is emitted on the fill that takes the net position from non-zero to exactly zero. */
  predicate Emits(p: Position, o: Order) {
    p.net != 0 && p.net + SignedQty(o) == 0
  }

  /** `Σ diff * fill.quantity * multiplier` over the exit fills. */
  function ExitPnl(exits: seq<Leg>, dir: Option<Direction>, entryPrice: real, multiplier: real): real {
    if exits == [] then 0.0
    else
      var f := exits[|exits| - 1];
      var diff := if dir == Some(Long) then f.price - entryPrice else entryPrice - f.price;
      ExitPnl(exits[..|exits| - 1], dir, entryPrice, multiplier) + diff * f.quantity as real * multiplier
  }

  /** `Σ f.price * f.quantity` over the exit fills. */
  function ExitNotional(exits: seq<Leg>): real {
    if exits == [] then 0.0
    else ExitNotional(exits[..|exits| - 1]) + exits[|exits| - 1].price * exits[|exits| - 1].quantity as real
  }

  /** `lastExit?.date || ''`. */
  function LastExitDate(exits: seq<Leg>): string {
    if exits == [] then "" else exits[|exits| - 1].date
  }

  /**
   * The trade pushed for a position that has just returned to zero. `entryDirection` is never
   * null here (TradovateProps.EmittedTradeWellFormed), so the `Short` fallback is not reached.
   */
  function Close(env: Env, contract: string, multiplier: real, p: Position): (t: Trade)
    ensures t.direction == (if p.dir == Some(Long) then Long else Short)
    ensures t.symbol == contract && t.positionSize == p.entryQty && t.entryPrice == p.entryPrice
    ensures t.exitDate == LastExitDate(p.exits) && t.entryDate == p.entryDate
    ensures t.takeProfits == (if |p.exits| > 1 then p.exits else [])
    ensures t.pnl == Some(Round2(ExitPnl(p.exits, p.dir, p.entryPrice, multiplier)))
    ensures t.exitPrice == Round2(Div(ExitNotional(p.exits), LegQuantity(p.exits) as real))
    ensures t.fees == 0.0 && t.commissions == 0.0 && t.tags == [] && t.notes == ""
    ensures t.tradeDay == Some(DatePart(p.entryDate)) && t.account == Some(p.account)
    ensures t.tradeDuration == ComputeDurationSeconds(env, t.entryDate, t.exitDate)
    ensures !t.merged && t.originals.None? && t.accountId.None? && t.strategyId.None?
  {
    Trade(
      symbol := contract,
      direction := if p.dir == Some(Long) then Long else Short,
      entryPrice := p.entryPrice,
      exitPrice := Round2(Div(ExitNotional(p.exits), LegQuantity(p.exits) as real)),
      entryDate := p.entryDate,
      exitDate := LastExitDate(p.exits),
      positionSize := p.entryQty,
      pnl := Some(Round2(ExitPnl(p.exits, p.dir, p.entryPrice, multiplier))),
      fees := 0.0,
      commissions := 0.0,
      tradeDuration := ComputeDurationSeconds(env, p.entryDate, LastExitDate(p.exits)),
      tags := [],
      takeProfits := if |p.exits| > 1 then p.exits else [],
      notes := "",
      tradeDay := Some(DatePart(p.entryDate)),
      account := Some(p.account),
      merged := false,
      originals := None,
      accountId := None,
      strategyId := None)
  }

  datatype Run = Run(pos: Position, trades: seq<Trade>)

  /** One iteration of the fill loop: advance, and emit and reset when the position lands on zero. */
  function Step(env: Env, contract: string, multiplier: real, r: Run, o: Order): (r': Run)
    ensures Emits(r.pos, o) ==> (r'.pos == Flat(Advance(r.pos, o).account) &&
      r'.trades == r.trades + [Close(env, contract, multiplier, Advance(r.pos, o))])
    ensures !Emits(r.pos, o) ==> r'.pos == Advance(r.pos, o) && r'.trades == r.trades
  {
    var q := Advance(r.pos, o);
    if Emits(r.pos, o) then Run(Flat(q.account), r.trades + [Close(env, contract, multiplier, q)])
    else Run(q, r.trades)
  }

  /** The state and the trades after replaying `orders` from a flat position. */
  function Replay(env: Env, contract: string, multiplier: real, orders: seq<Order>): Run {
    if orders == [] then Run(Flat(""), [])
    else Step(env, contract, multiplier, Replay(env, contract, multiplier, orders[..|orders| - 1]), orders[|orders| - 1])
  }

  /** `orders[0]?.product || contract`. */
  function ProductOf(orders: seq<Order>, contract: string): string {
    if orders != [] && orders[0].product != "" then orders[0].product else contract
  }

  /** The trades of one contract's fills. */
  function ContractTrades(env: Env, contract: string, orders: seq<Order>): seq<Trade> {
    Replay(env, contract, Multiplier(ProductOf(orders, contract)), orders).trades
  }

  /** The trades of the given contracts, one contract after the other. */
  function TradesOf(env: Env, orders: seq<Order>, contracts: seq<string>): seq<Trade> {
    if contracts == [] then []
    else
      var c := contracts[|contracts| - 1];
      TradesOf(env, orders, contracts[..|contracts| - 1]) + ContractTrades(env, c, Members(orders, ContractOf, c))
  }

  /** `tradovateParser.parse(text)`. */
  function ParseSpec(env: Env, text: string): seq<Trade> {
    var orders := FilledOrders(env, ParseCsv(text).rows);
    TradesOf(env, orders, Keys(orders, ContractOf))
  }

  // ---------------------------------------------------------------------------
  // The loops of the source

  /** The `for (const order of orders)` loop of one contract. */
  method ReplayContract(env: Env, contract: string, orders: seq<Order>) returns (trades: seq<Trade>)
    ensures trades == ContractTrades(env, contract, orders)
  {
    var netPosition := 0;
    var entryDirection: Option<Direction> := None;
    var entryPrice := 0.0;
    var entryQty := 0;
    var entryDate := "";
    var exitFills: seq<Leg> := [];
    var account := "";
    var product := if |orders| > 0 && orders[0].product != "" then orders[0].product else contract;
    var multiplier := Multiplier(product);
    trades := [];
    var i := 0;
    while i < |orders|
      invariant 0 <= i <= |orders|
      invariant Replay(env, contract, multiplier, orders[..i]) ==
        Run(Position(netPosition, entryDirection, entryPrice, entryQty, entryDate, exitFills, account), trades)
    {
      var order := orders[i];
      ReplaySnoc(env, contract, multiplier, orders, i);
      var prevPos := netPosition;
      netPosition, entryDirection, entryPrice, entryQty, entryDate, exitFills, account :=
        ApplyFill(netPosition, entryDirection, entryPrice, entryQty, entryDate, exitFills, account, order);
      if netPosition == 0 && prevPos != 0 {
        var t := Close(env, contract, multiplier,
                       Position(netPosition, entryDirection, entryPrice, entryQty, entryDate, exitFills, account));
        trades := trades + [t];
        entryDirection := None;
        entryPrice := 0.0;
        entryQty := 0;
        entryDate := "";
        exitFills := [];
      }
      i := i + 1;
    }
    assert orders[..i] == orders;
  }

  /** The position update of one loop iteration, on the loop's variables. */
  method ApplyFill(netPosition: int, entryDirection: Option<Direction>, entryPrice: real, entryQty: int,
                   entryDate: string, exitFills: seq<Leg>, account: string, order: Order)
    returns (netPosition': int, entryDirection': Option<Direction>, entryPrice': real, entryQty': int,
             entryDate': string, exitFills': seq<Leg>, account': string)
    ensures Position(netPosition', entryDirection', entryPrice', entryQty', entryDate', exitFills', account') ==
      Advance(Position(netPosition, entryDirection, entryPrice, entryQty, entryDate, exitFills, account), order)
  {
    netPosition', entryDirection', entryPrice', entryQty', entryDate', exitFills', account' :=
      netPosition, entryDirection, entryPrice, entryQty, entryDate, exitFills, account;
    var signedQty := if order.side == "Buy" then order.qty else -order.qty;
    var prevPos := netPosition;
    netPosition' := netPosition + signedQty;
    if prevPos == 0 && netPosition' != 0 {
      entryDirection' := Some(if netPosition' > 0 then Long else Short);
      entryPrice' := order.price;
      entryQty' := if netPosition' < 0 then -netPosition' else netPosition';
      entryDate' := order.fillTime;
      exitFills' := [];
      account' := order.account;
    } else if prevPos != 0 {
      var isClosing := (entryDirection == Some(Long) && signedQty < 0) ||
                       (entryDirection == Some(Short) && signedQty > 0);
      if isClosing {
        exitFills' := exitFills + [Leg(order.price, order.qty, order.fillTime)];
      } else {
        entryQty' := entryQty + order.qty;
        entryPrice' := AveragePrice(entryPrice, entryQty', order.price, order.qty);
      }
    }
  }

  lemma ReplaySnoc(env: Env, contract: string, multiplier: real, orders: seq<Order>, i: nat)
    requires i < |orders|
    ensures Replay(env, contract, multiplier, orders[..i + 1]) ==
      Step(env, contract, multiplier, Replay(env, contract, multiplier, orders[..i]), orders[i])
  {
    assert orders[..i + 1][..i] == orders[..i];
  }

  lemma TradesOfSnoc(env: Env, orders: seq<Order>, contracts: seq<string>, k: nat)
    requires k < |contracts|
    ensures TradesOf(env, orders, contracts[..k + 1]) ==
      TradesOf(env, orders, contracts[..k]) + ContractTrades(env, contracts[k], Members(orders, ContractOf, contracts[k]))
  {
    assert contracts[..k + 1][..k] == contracts[..k];
  }

  /** The whole parser: filter, map and sort, then group and replay. */
  method ParseText(env: Env, text: string) returns (trades: seq<Trade>)
    ensures trades == ParseSpec(env, text)
  {
    var filledOrders := FilledOrders(env, ParseCsv(text).rows);
    trades := ReplayAll(env, filledOrders);
  }

  /** The `byContract` loop and the `Object.entries(byContract)` loop: each contract replayed in first-appearance order. */
  method ReplayAll(env: Env, filledOrders: seq<Order>) returns (trades: seq<Trade>)
    ensures trades == TradesOf(env, filledOrders, Keys(filledOrders, ContractOf))
  {
    var contracts, byContract := GroupBy(filledOrders, ContractOf);
    trades := [];
    var k := 0;
    while k < |contracts|
      invariant 0 <= k <= |contracts|
      invariant trades == TradesOf(env, filledOrders, contracts[..k])
    {
      var c := contracts[k];
      assert c in byContract;
      var contractTrades := ReplayContract(env, c, byContract[c]);
      TradesOfSnoc(env, filledOrders, contracts, k);
      trades := trades + contractTrades;
      k := k + 1;
    }
    assert contracts[..k] == contracts;
  }
}

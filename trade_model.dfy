/**
 * The trade record the parsers produce and the merge steps, the import step,
 * the export and the AI context read.
 *
 * A JavaScript trade object carries optional keys; each optional key is an
 * Option here (absent = None) and the `_merged` flag is a bool (absent = false).
 * `_tradeDay` and `_account` are the bookkeeping hints set by the parsers,
 * `_merged` and `_originalTrades` the ones set by the manual merge, and
 * `accountId` / `strategyId` the references a stored trade carries.
 */
module TradeModel {
  import opened Js

  datatype Direction = Long | Short

  /** The string a trade's `direction` holds. */
  function DirectionName(d: Direction): string {
    match d
    case Long => "long"
    case Short => "short"
  }

  /** A take-profit leg, and also an exit fill: `{ price, quantity, date }`. */
  datatype Leg = Leg(price: real, quantity: int, date: string)

  datatype Trade = Trade(
    symbol: string,
    direction: Direction,
    entryPrice: real,
    exitPrice: real,
    entryDate: string,
    exitDate: string,
    positionSize: int,
    pnl: Option<real>,
    fees: real,
    commissions: real,
    tradeDuration: Option<int>,
    tags: seq<string>,
    takeProfits: seq<Leg>,
    notes: string,
    tradeDay: Option<string>,
    account: Option<string>,
    merged: bool,
    originals: Option<seq<Trade>>,
    accountId: Option<string>,
    strategyId: Option<string>)

  /** A strategy or an account as the export and the AI context see it: its `id` and its optional `name`. */
  datatype NamedRecord = NamedRecord(id: string, name: Option<string>)

  /** `t.pnl || 0`. */
  function PnlOr0(t: Trade): real {
    t.pnl.GetOr(0.0)
  }

  /** `t.pnl > 0`: false for a missing pnl. */
  predicate IsWin(t: Trade) {
    t.pnl.Some? && t.pnl.value > 0.0
  }

  /** `t.pnl < 0`: false for a missing pnl. */
  predicate IsLoss(t: Trade) {
    t.pnl.Some? && t.pnl.value < 0.0
  }

  /** The sum of the quantities of a list of legs. */
  function LegQuantity(legs: seq<Leg>): int {
    if legs == [] then 0 else LegQuantity(legs[..|legs| - 1]) + legs[|legs| - 1].quantity
  }

  /** True when no bookkeeping key of the parse and merge stages is present. */
  predicate NoBookkeeping(t: Trade) {
    t.tradeDay.None? && t.account.None? && !t.merged && t.originals.None?
  }
}

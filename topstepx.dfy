/**
 * `topstepXParser.parse` of `src/lib/broker-parsers.js`: one trade per CSV row
 * that names a contract, in input order.
 */
module TopstepX {
  import opened Js
  import opened CsvTokenizer
  import opened BrokerCommon
  import opened TradeModel
  import opened TradeUtils

  /** The `filter((r) => r.ContractName)` test. */
  predicate HasContract(row: Row) {
    Field(row, "ContractName") != ""
  }

  /** The rows that name a contract, in input order. */
  function KeptRows(rows: seq<Row>): (r: seq<Row>)
    ensures |r| <= |rows|
    ensures forall i :: 0 <= i < |r| ==> HasContract(r[i])
    ensures forall i :: 0 <= i < |r| ==> r[i] in rows
  {
    if rows == [] then []
    else
      var last := rows[|rows| - 1];
      KeptRows(rows[..|rows| - 1]) + (if HasContract(last) then [last] else [])
  }

  /** Filtering keeps relative order: the kept rows of a concatenation are the concatenation of the kept rows. */
  lemma {:induction false} KeptRowsAppend(a: seq<Row>, b: seq<Row>)
    ensures KeptRows(a + b) == KeptRows(a) + KeptRows(b)
    decreases |b|
  {
    if b == [] {
      assert a + b == a;
    } else {
      assert (a + b)[..|a + b| - 1] == a + b[..|b| - 1];
      KeptRowsAppend(a, b[..|b| - 1]);
    }
  }

  /** A row is kept exactly when it names a contract. */
  lemma KeptRowsSingle(row: Row)
    ensures KeptRows([row]) == (if HasContract(row) then [row] else [])
  {
    assert [row][..0] == [];
  }

  /** The `map((r) => ({ ... }))` callback: one trade from one row. */
  function RowToTrade(env: Env, row: Row): (t: Trade)
    ensures t.symbol == Field(row, "ContractName")
    ensures t.direction == Long <==> IsBuyWord(Trim(Field(row, "Type")))
    ensures t.tags == [] && t.takeProfits == [] && t.notes == ""
    ensures t.tradeDay == Some(Or(Field(row, "TradeDay"), DatePart(t.entryDate)))
    ensures t.entryDate == ToIso(env, Field(row, "EnteredAt")) && t.exitDate == ToIso(env, Field(row, "ExitedAt"))
    ensures t.tradeDuration == ComputeDurationSeconds(env, t.entryDate, t.exitDate)
    ensures t.entryPrice == ParseFloatOr0(env, Field(row, "EntryPrice"))
    ensures t.exitPrice == ParseFloatOr0(env, Field(row, "ExitPrice"))
    ensures t.positionSize == ParseIntOr0(env, Field(row, "Size"))
    ensures t.pnl == Some(ParseFloatOr0(env, Field(row, "PnL")))
    ensures t.fees == ParseFloatOr0(env, Field(row, "Fees"))
    ensures t.commissions == ParseFloatOr0(env, Field(row, "Commissions"))
    ensures t.account.None? && !t.merged && t.originals.None?
  {
    var entryDate := ToIso(env, Field(row, "EnteredAt"));
    var exitDate := ToIso(env, Field(row, "ExitedAt"));
    Trade(
      symbol := Field(row, "ContractName"),
      direction := if IsBuyWord(Trim(Field(row, "Type"))) then Long else Short,
      entryPrice := ParseFloatOr0(env, Field(row, "EntryPrice")),
      exitPrice := ParseFloatOr0(env, Field(row, "ExitPrice")),
      entryDate := entryDate,
      exitDate := exitDate,
      positionSize := ParseIntOr0(env, Field(row, "Size")),
      pnl := Some(ParseFloatOr0(env, Field(row, "PnL"))),
      fees := ParseFloatOr0(env, Field(row, "Fees")),
      commissions := ParseFloatOr0(env, Field(row, "Commissions")),
      tradeDuration := ComputeDurationSeconds(env, entryDate, exitDate),
      tags := [],
      takeProfits := [],
      notes := "",
      tradeDay := Some(Or(Field(row, "TradeDay"), DatePart(entryDate))),
      account := None,
      merged := false,
      originals := None,
      accountId := None,
      strategyId := None)
  }

  /** `topstepXParser.parse(text)`. */
  function Parse(env: Env, text: string): (trades: seq<Trade>)
    ensures var kept := KeptRows(ParseCsv(text).rows);
      |trades| == |kept| && forall i :: 0 <= i < |trades| ==> trades[i] == RowToTrade(env, kept[i])
    ensures |trades| <= |ParseCsv(text).rows|
  {
    Converted(env, KeptRows(ParseCsv(text).rows))
  }

  /** The `map` step: one trade per row, in row order. */
  function Converted(env: Env, rows: seq<Row>): (trades: seq<Trade>)
    ensures |trades| == |rows| && forall i :: 0 <= i < |trades| ==> trades[i] == RowToTrade(env, rows[i])
  {
    seq(|rows|, i requires 0 <= i < |rows| => RowToTrade(env, rows[i]))
  }

  /** Every parsed trade names its contract. */
  lemma ParsedSymbol(env: Env, text: string, i: nat)
    requires i < |Parse(env, text)|
    ensures Parse(env, text)[i].symbol != ""
  {
    var kept := KeptRows(ParseCsv(text).rows);
    assert HasContract(kept[i]);
  }
}

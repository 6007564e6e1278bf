/**
 * The CSV export of `src/lib/export-utils.js`: `escapeCSV` and the text
 * `exportAsCSV` builds (a header line and one line per trade, cells escaped and
 * joined with `,`, lines joined with `\n`), together with what the import side's
 * `parseCSV` reads back from such a line.
 */
module ExportUtils {
  import opened Js
  import opened TradeModel
  import opened TradeUtils
  import opened CsvTokenizer

  // ---------------------------------------------------------------------------
  // escapeCSV

  /** The characters that make `escapeCSV` quote a value. */
  predicate NeedsQuoting(s: string) {
    ',' in s || '"' in s || '\n' in s
  }

  /** What `s.replace(/"/g, '""')` turns one character into. */
  function Doubled(c: char): string {
    if c == '"' then "\"\"" else [c]
  }

  lemma DoubledFacts(c: char)
    ensures Count(Doubled(c), '"') == 2 * Count([c], '"')
    ensures Unquote(Doubled(c)) == Unquote([c])
  {
    assert [c][..0] == [];
    assert "\"\""[..1] == "\"" && "\""[..0] == [];
  }

  /** `s.replace(/"/g, '""')`. */
  function DoubleQuotes(s: string): (r: string)
    ensures forall c :: c in r ==> c == '"' || c in s
  {
    if s == [] then "" else Doubled(s[0]) + DoubleQuotes(s[1..])
  }

  /** The reading of a quoted value's inside: every `""` stands for one `"`. */
  function Undouble(r: string): string {
    if r == [] then ""
    else if |r| >= 2 && r[0] == '"' && r[1] == '"' then "\"" + Undouble(r[2..])
    else [r[0]] + Undouble(r[1..])
  }

  lemma {:induction false} UndoubleDoubleQuotes(s: string)
    ensures Undouble(DoubleQuotes(s)) == s
    decreases |s|
  {
    if s != [] {
      UndoubleDoubleQuotes(s[1..]);
      var rest := DoubleQuotes(s[1..]);
      if s[0] == '"' {
        assert ("\"\"" + rest)[2..] == rest;
      } else {
        assert ([s[0]] + rest)[1..] == rest;
      }
    }
  }

  /**
   * `escapeCSV(val)`: `String(val ?? '')`, returned as it is unless it holds a
   * `,`, a `"` or a newline; then wrapped in `"` with every inner `"` doubled,
   * so that reading the inside with `""` as `"` gives the value back.
   */
  function EscapeCsv(val: Option<string>): (r: string)
    ensures val.None? ==> r == ""
    ensures !NeedsQuoting(val.GetOr("")) ==> r == val.GetOr("")
    ensures NeedsQuoting(val.GetOr("")) ==>
      |r| >= 2 && r[0] == '"' && r[|r| - 1] == '"' && Undouble(r[1..|r| - 1]) == val.GetOr("")
  {
    var str := val.GetOr("");
    if NeedsQuoting(str) then
      var r := "\"" + DoubleQuotes(str) + "\"";
      assert r[1..|r| - 1] == DoubleQuotes(str);
      UndoubleDoubleQuotes(str);
      r
    else str
  }

  // ---------------------------------------------------------------------------
  // How the import scanner sees an escaped value

  lemma {:induction false} DoubleQuotesCount(s: string)
    ensures Count(DoubleQuotes(s), '"') == 2 * Count(s, '"')
    decreases |s|
  {
    if s != [] {
      DoubleQuotesCount(s[1..]);
      DoubledFacts(s[0]);
      CountAppend(Doubled(s[0]), DoubleQuotes(s[1..]), '"');
      CountAppend([s[0]], s[1..], '"');
      assert s == [s[0]] + s[1..];
    }
  }

  /** A comma of the doubled text is preceded by an even number of `"`. */
  lemma {:induction false} DoubleQuotesCommas(s: string, j: nat)
    requires j < |DoubleQuotes(s)| && DoubleQuotes(s)[j] == ','
    ensures Count(DoubleQuotes(s)[..j], '"') % 2 == 0
    decreases |s|
  {
    var head := Doubled(s[0]);
    var rest := DoubleQuotes(s[1..]);
    if j < |head| {
      assert j == 0;
    } else {
      assert (head + rest)[j] == rest[j - |head|];
      DoubleQuotesCommas(s[1..], j - |head|);
      assert (head + rest)[..j] == head + rest[..j - |head|];
      CountAppend(head, rest[..j - |head|], '"');
      DoubledFacts(s[0]);
      assert [s[0]][..0] == [];
    }
  }

  lemma {:induction false} DoubleQuotesUnquote(s: string)
    ensures Unquote(DoubleQuotes(s)) == Unquote(s)
    decreases |s|
  {
    if s != [] {
      DoubleQuotesUnquote(s[1..]);
      DoubledFacts(s[0]);
      UnquoteAppend(Doubled(s[0]), DoubleQuotes(s[1..]));
      UnquoteAppend([s[0]], s[1..]);
      assert s == [s[0]] + s[1..];
    }
  }

  lemma {:induction false} UnquoteWithout(s: string)
    requires '"' !in s
    ensures Unquote(s) == s
    decreases |s|
  {
    if s != [] {
      UnquoteWithout(s[..|s| - 1]);
      assert s == s[..|s| - 1] + [s[|s| - 1]];
    }
  }

  /**
   * An escaped value is one piece to the import scanner: it holds an even number
   * of `"`, every comma in it falls inside quotes, and with its quotes dropped it
   * is the value with its quotes dropped.
   */
  lemma EscapedPiece(c: string)
    ensures var e := EscapeCsv(Some(c));
      && !InQuotes(e)
      && (forall j :: 0 <= j < |e| && e[j] == ',' ==> InQuotes(e[..j]))
      && Unquote(e) == Unquote(c)
  {
    if NeedsQuoting(c) {
      QuotedPiece(c);
    } else {
      CountZero(c, '"');
    }
  }

  lemma QuotedPiece(c: string)
    ensures var e := "\"" + DoubleQuotes(c) + "\"";
      && !InQuotes(e)
      && (forall j :: 0 <= j < |e| && e[j] == ',' ==> InQuotes(e[..j]))
      && Unquote(e) == Unquote(c)
  {
    var e := "\"" + DoubleQuotes(c) + "\"";
    QuotedCount(c);
    forall j | 0 <= j < |e| && e[j] == ',' ensures InQuotes(e[..j]) {
      QuotedCommaInside(c, j);
    }
    QuotedUnquote(c);
  }

  lemma QuotedCount(c: string)
    ensures !InQuotes("\"" + DoubleQuotes(c) + "\"")
  {
    var q := "\"";
    var d := DoubleQuotes(c);
    assert Count(q, '"') == 1 by { assert q[..0] == []; }
    DoubleQuotesCount(c);
    CountAppend(q, d, '"');
    CountAppend(q + d, q, '"');
  }

  lemma QuotedCommaInside(c: string, j: nat)
    requires var e := "\"" + DoubleQuotes(c) + "\""; j < |e| && e[j] == ','
    ensures InQuotes(("\"" + DoubleQuotes(c) + "\"")[..j])
  {
    var q := "\"";
    var d := DoubleQuotes(c);
    assert Count(q, '"') == 1 by { assert q[..0] == []; }
    QuotedComma(q, d, j);
    DoubleQuotesCommas(c, j - 1);
    CountAppend(q, d[..j - 1], '"');
  }

  lemma QuotedUnquote(c: string)
    ensures Unquote("\"" + DoubleQuotes(c) + "\"") == Unquote(c)
  {
    var q := "\"";
    var d := DoubleQuotes(c);
    assert Unquote(q) == "" by { assert q[..0] == []; }
    DoubleQuotesUnquote(c);
    UnquoteAppend(q, d);
    UnquoteAppend(q + d, q);
  }

  lemma QuotedComma(q: string, d: string, j: nat)
    requires q == "\"" && j < |q + d + q| && (q + d + q)[j] == ','
    ensures 0 < j <= |d| && d[j - 1] == ',' && (q + d + q)[..j] == q + d[..j - 1]
  {
  }

  /** A text the scanner reads as one piece and leaves outside quotes: each of its commas is quoted. */
  predicate OnePiece(e: string) {
    && !InQuotes(e)
    && forall j :: 0 <= j < |e| && e[j] == ',' ==> InQuotes(e[..j])
  }

  /** Pieces with an even number of `"` joined with commas leave the scanner outside quotes. */
  lemma {:induction false} JoinOutsideQuotes(es: seq<string>)
    requires forall i :: 0 <= i < |es| ==> OnePiece(es[i])
    ensures !InQuotes(Join(es, ","))
    decreases |es|
  {
    if |es| > 1 {
      var init := es[..|es| - 1];
      assert forall i :: 0 <= i < |init| ==> init[i] == es[i];
      JoinOutsideQuotes(init);
      CountAppend(Join(init, ","), ",", '"');
      CountAppend(Join(init, ",") + ",", es[|es| - 1], '"');
      assert ","[..0] == [];
      assert OnePiece(es[|es| - 1]);
    } else if |es| == 1 {
      assert OnePiece(es[0]);
    }
  }

  /** Joining such pieces with commas, the scanner's raw pieces are those pieces again. */
  lemma {:induction false} SegmentsOfJoin(es: seq<string>)
    requires |es| >= 1
    requires forall i :: 0 <= i < |es| ==> OnePiece(es[i])
    ensures Segments(Join(es, ",")) == es
    decreases |es|
  {
    var last := es[|es| - 1];
    assert OnePiece(last);
    SegmentsSingle(last);
    if |es| > 1 {
      var init := es[..|es| - 1];
      assert forall i :: 0 <= i < |init| ==> init[i] == es[i];
      SegmentsOfJoin(init);
      JoinOutsideQuotes(init);
      JoinStep(es, ",");
      SegmentsOfJoinStep(Join(init, ","), init, last);
      assert es == init + [last];
    }
  }

  lemma SegmentsOfJoinStep(j: string, init: seq<string>, last: string)
    requires !InQuotes(j) && Segments(j) == init && Segments(last) == [last]
    ensures Segments(j + "," + last) == init + [last]
  {
    assert "," == [','];
    SegmentsAfterSeparator(j, last);
  }

  /** Every char absent from the pieces and the separator is absent from the join. */
  lemma {:induction false} JoinWithout(parts: seq<string>, sep: string, x: char)
    requires forall i :: 0 <= i < |parts| ==> x !in parts[i]
    requires x !in sep
    ensures x !in Join(parts, sep)
    decreases |parts|
  {
    if |parts| > 1 {
      JoinWithout(parts[..|parts| - 1], sep, x);
    }
  }

  /** The cells of one line, escaped. */
  function EscapedCells(cells: seq<string>): (es: seq<string>)
    ensures |es| == |cells|
  {
    seq(|cells|, i requires 0 <= i < |cells| => EscapeCsv(Some(cells[i])))
  }

  /** `row.map(escapeCSV).join(',')`. */
  function EscapedLine(cells: seq<string>): string {
    Join(EscapedCells(cells), ",")
  }

  /** What `parseCSV` makes of one value that went through `escapeCSV`: its quotes dropped, then trimmed. */
  predicate ReadsBackAs(values: seq<string>, cells: seq<string>) {
    |values| == |cells| && forall i :: 0 <= i < |cells| ==> values[i] == Trim(Unquote(cells[i]))
  }

  /**
   * The scanner of `parseCSV` splits an escaped line into exactly its cells (a
   * comma inside a value stays there), and gives each value back with its quotes
   * removed and trimmed.
   */
  lemma ReadBackLine(cells: seq<string>)
    requires |cells| >= 1
    ensures ReadsBackAs(SplitRow(EscapedLine(cells)), cells)
  {
    var es := EscapedCells(cells);
    forall i | 0 <= i < |es| ensures OnePiece(es[i]) && Unquote(es[i]) == Unquote(cells[i]) {
      EscapedPiece(cells[i]);
    }
    SegmentsOfJoin(es);
  }

  /** Values without `"` and without surrounding whitespace survive export and import unchanged. */
  lemma RoundTripPlain(cells: seq<string>)
    requires |cells| >= 1
    requires forall i :: 0 <= i < |cells| ==> '"' !in cells[i] && Trimmed(cells[i])
    ensures SplitRow(EscapedLine(cells)) == cells
  {
    ReadBackLine(cells);
    forall i | 0 <= i < |cells| ensures Trim(Unquote(cells[i])) == cells[i] {
      UnquoteWithout(cells[i]);
      TrimOfTrimmed(cells[i]);
    }
  }

  /** A value holding `"` does not survive: the scanner drops every quote. */
  lemma QuotesAreLost(cells: seq<string>, i: nat)
    requires i < |cells| && '"' in cells[i]
    ensures |SplitRow(EscapedLine(cells))| == |cells|
    ensures '"' !in SplitRow(EscapedLine(cells))[i]
    ensures SplitRow(EscapedLine(cells))[i] != cells[i]
  {
    ReadBackLine(cells);
    UnquoteNoQuote(cells[i]);
    TrimSubstring(Unquote(cells[i]));
  }

  /** The value `"` itself is read back as the empty string. */
  lemma LoneQuoteReadsBackEmpty()
    ensures SplitRow(EscapedLine(["\""])) == [""]
  {
    ReadBackLine(["\""]);
    assert Unquote("\"") == "" by { assert "\""[..0] == []; }
  }

  // ---------------------------------------------------------------------------
  // exportAsCSV

  /** `records.find(r => r.id === id)?.name ?? ''`: the first record with that id, '' when there is none. */
  function NameOf(records: seq<NamedRecord>, id: Option<string>): (r: string)
    ensures (forall i :: 0 <= i < |records| ==> Some(records[i].id) != id) ==> r == ""
    ensures forall i :: (0 <= i < |records| && Some(records[i].id) == id &&
      (forall j :: 0 <= j < i ==> Some(records[j].id) != id)) ==> r == records[i].name.GetOr("")
  {
    if records == [] then ""
    else if Some(records[0].id) == id then records[0].name.GetOr("")
    else
      var r := NameOf(records[1..], id);
      assert forall i :: 1 <= i < |records| ==> records[1..][i - 1] == records[i];
      r
  }

  const Headers: seq<string> := [
    "Date", "Symbol", "Direction", "Entry Price", "Exit Price",
    "Position Size", "PNL", "Fees", "Commissions", "Duration",
    "Strategy", "Account", "Tags", "Notes", "TP Count"]

  /** The header cells need no quoting and hold no newline. */
  lemma HeadersPlain()
    ensures |Headers| == 15
    ensures forall k :: 0 <= k < |Headers| ==> !NeedsQuoting(Headers[k])
  {
    forall k | 0 <= k < |Headers| ensures !NeedsQuoting(Headers[k]) {
      WordPlain(Headers[k]);
    }
  }

  /** Letters and spaces never need quoting. */
  lemma WordPlain(s: string)
    requires forall i :: 0 <= i < |s| ==> s[i] == ' ' || 'A' <= s[i] <= 'Z' || 'a' <= s[i] <= 'z'
    ensures !NeedsQuoting(s)
  {
  }

  /** `t.pnl?.toFixed(2) ?? '0'`. */
  function PnlCell(env: Env, pnl: Option<real>): string {
    match pnl
    case None => "0"
    case Some(p) => env.fixed2(p)
  }

  /**
   * The fifteen cells of a trade's row, in header order; numbers are printed by
   * the host's `String(x)` and `toFixed(2)`.
   */
  function RowCells(env: Env, t: Trade, strategies: seq<NamedRecord>, accounts: seq<NamedRecord>): (cells: seq<string>)
    ensures |cells| == |Headers|
  {
    [DatePart(t.entryDate),
     t.symbol,
     DirectionName(t.direction),
     env.numStr(t.entryPrice),
     env.numStr(t.exitPrice),
     env.numStr(t.positionSize as real),
     PnlCell(env, t.pnl),
     env.fixed2(t.fees),
     env.fixed2(t.commissions),
     FormatDuration(t.tradeDuration),
     NameOf(strategies, t.strategyId),
     NameOf(accounts, t.accountId),
     Join(t.tags, "; "),
     t.notes,
     Decimal(|t.takeProfits|)]
  }

  /** The header line, then one line per trade in list order. */
  function ExportLines(env: Env, trades: seq<Trade>, strategies: seq<NamedRecord>, accounts: seq<NamedRecord>): (lines: seq<string>)
    ensures |lines| == |trades| + 1
  {
    [EscapedLine(Headers)] + TradeLines(env, trades, strategies, accounts)
  }

  /** `trades.map(t => [...].map(escapeCSV).join(','))`. */
  function TradeLines(env: Env, trades: seq<Trade>, strategies: seq<NamedRecord>, accounts: seq<NamedRecord>): (lines: seq<string>)
    ensures |lines| == |trades|
    ensures forall i :: 0 <= i < |trades| ==> lines[i] == TradeLine(env, trades[i], strategies, accounts)
  {
    seq(|trades|, i requires 0 <= i < |trades| => TradeLine(env, trades[i], strategies, accounts))
  }

  /** One trade's line: its cells escaped and joined with commas. */
  function TradeLine(env: Env, t: Trade, strategies: seq<NamedRecord>, accounts: seq<NamedRecord>): string {
    EscapedLine(RowCells(env, t, strategies, accounts))
  }

  /** The text of the exported file. */
  function ExportCsv(env: Env, trades: seq<Trade>, strategies: seq<NamedRecord>, accounts: seq<NamedRecord>): string {
    Join(ExportLines(env, trades, strategies, accounts), "\n")
  }

  /** No cell of any trade's row holds a newline. */
  predicate OneLinePerTrade(env: Env, trades: seq<Trade>, strategies: seq<NamedRecord>, accounts: seq<NamedRecord>) {
    forall i :: 0 <= i < |trades| ==> SingleLine(RowCells(env, trades[i], strategies, accounts))
  }

  /** No cell holds a newline. */
  predicate SingleLine(cells: seq<string>) {
    forall k :: 0 <= k < |cells| ==> '\n' !in cells[k]
  }

  /** Where the row's cells come from: the date part, the tags joined with '; ', '0' for a missing pnl, the number of legs. */
  lemma RowCellFacts(env: Env, t: Trade, strategies: seq<NamedRecord>, accounts: seq<NamedRecord>)
    ensures var cells := RowCells(env, t, strategies, accounts);
      && |cells| == 15
      && cells[0] == DatePart(t.entryDate) && 'T' !in cells[0]
      && cells[12] == Join(t.tags, "; ")
      && (t.pnl.None? ==> cells[6] == "0")
      && (t.pnl.Some? ==> cells[6] == env.fixed2(t.pnl.value))
      && cells[9] == FormatDuration(t.tradeDuration)
      && (t.strategyId.None? ==> cells[10] == "")
      && (forall k :: 0 <= k < |cells[14]| ==> IsDigit(cells[14][k]))
      && DigitsValue(cells[14]) == |t.takeProfits|
  {
    DecimalValue(|t.takeProfits|);
  }

  lemma EscapedLineWithout(cells: seq<string>)
    requires |cells| >= 1
    requires SingleLine(cells)
    ensures '\n' !in EscapedLine(cells)
  {
    var es := EscapedCells(cells);
    forall k | 0 <= k < |es| ensures '\n' !in es[k] {
      assert !NeedsQuoting(cells[k]) ==> es[k] == cells[k];
    }
    JoinWithout(es, ",", '\n');
  }

  /** Splitting the exported text on a newline gives its lines back when no cell holds a newline. */
  lemma ExportSplitsIntoLines(env: Env, trades: seq<Trade>, strategies: seq<NamedRecord>, accounts: seq<NamedRecord>)
    requires OneLinePerTrade(env, trades, strategies, accounts)
    ensures Split(ExportCsv(env, trades, strategies, accounts), '\n') == ExportLines(env, trades, strategies, accounts)
  {
    LinesWithout(env, trades, strategies, accounts);
    SplitJoin(ExportLines(env, trades, strategies, accounts), '\n');
  }

  lemma LinesWithout(env: Env, trades: seq<Trade>, strategies: seq<NamedRecord>, accounts: seq<NamedRecord>)
    requires OneLinePerTrade(env, trades, strategies, accounts)
    ensures forall i :: 0 <= i < |trades| + 1 ==> '\n' !in ExportLines(env, trades, strategies, accounts)[i]
  {
    forall i | 0 <= i < |trades| + 1 ensures '\n' !in ExportLines(env, trades, strategies, accounts)[i] {
      LineAtWithout(env, trades, strategies, accounts, i);
    }
  }

  lemma LineAtWithout(env: Env, trades: seq<Trade>, strategies: seq<NamedRecord>, accounts: seq<NamedRecord>, i: nat)
    requires OneLinePerTrade(env, trades, strategies, accounts)
    requires i < |trades| + 1
    ensures '\n' !in ExportLines(env, trades, strategies, accounts)[i]
  {
    if i == 0 {
      LineWithout(env, trades, strategies, accounts, 0);
    } else {
      var t := trades[i - 1];
      assert SingleLine(RowCells(env, t, strategies, accounts));
      EscapedLineWithout(RowCells(env, t, strategies, accounts));
      LineWithout(env, trades, strategies, accounts, i);
    }
  }

  lemma LineWithout(env: Env, trades: seq<Trade>, strategies: seq<NamedRecord>, accounts: seq<NamedRecord>, i: nat)
    requires i < |trades| + 1
    requires i > 0 ==> '\n' !in TradeLine(env, trades[i - 1], strategies, accounts)
    ensures '\n' !in ExportLines(env, trades, strategies, accounts)[i]
  {
    var lines := ExportLines(env, trades, strategies, accounts);
    if i == 0 {
      assert lines[0] == EscapedLine(Headers);
      HeaderLineWithout();
    } else {
      ExportLineAt(env, trades, strategies, accounts, i);
      AbsentFromEqual('\n', lines[i], TradeLine(env, trades[i - 1], strategies, accounts));
    }
  }

  lemma AbsentFromEqual<T>(x: T, a: seq<T>, b: seq<T>)
    requires a == b && x !in b
    ensures x !in a
  {
  }

  lemma ExportLineAt(env: Env, trades: seq<Trade>, strategies: seq<NamedRecord>, accounts: seq<NamedRecord>, i: nat)
    requires 1 <= i <= |trades|
    ensures ExportLines(env, trades, strategies, accounts)[i] == TradeLine(env, trades[i - 1], strategies, accounts)
  {
    var rest := TradeLines(env, trades, strategies, accounts);
    ConsAt(EscapedLine(Headers), rest, i);
  }

  lemma ConsAt<T>(x: T, s: seq<T>, i: nat)
    requires 1 <= i <= |s|
    ensures ([x] + s)[i] == s[i - 1]
  {
  }

  lemma HeaderLineWithout()
    ensures '\n' !in EscapedLine(Headers)
  {
    HeaderLinePlain();
    JoinWithout(Headers, ",", '\n');
  }

  /** The header line is the header names joined with commas. */
  lemma HeaderLinePlain()
    ensures EscapedLine(Headers) == Join(Headers, ",")
    ensures forall k :: 0 <= k < |Headers| ==> '\n' !in Headers[k]
  {
    HeadersPlain();
    assert EscapedCells(Headers) == Headers;
  }

  /**
   * The scanner of `parseCSV` reads a trade's exported line as its fifteen cells
   * with quotes dropped and trimmed, so the TP Count value still denotes the
   * number of legs.
   */
  lemma RowReadBack(env: Env, t: Trade, strategies: seq<NamedRecord>, accounts: seq<NamedRecord>)
    ensures ReadsBackAs(SplitRow(EscapedLine(RowCells(env, t, strategies, accounts))), RowCells(env, t, strategies, accounts))
    ensures ValueAt(SplitRow(EscapedLine(RowCells(env, t, strategies, accounts))), 14) == Decimal(|t.takeProfits|)
  {
    var cells := RowCells(env, t, strategies, accounts);
    ReadBackLine(cells);
    assert cells[14] == Decimal(|t.takeProfits|);
    DecimalPlain(|t.takeProfits|);
  }

  lemma DigitPlain(c: char)
    requires IsDigit(c)
    ensures c != '"' && !IsSpace(c)
  {
  }

  /** A decimal numeral has no quotes and no surrounding whitespace. */
  lemma DecimalPlain(n: nat)
    ensures Trim(Unquote(Decimal(n))) == Decimal(n)
  {
    var d := Decimal(n);
    forall k | 0 <= k < |d| ensures d[k] != '"' && !IsSpace(d[k]) {
      DigitPlain(d[k]);
    }
    UnquoteWithout(d);
    TrimOfTrimmed(d);
  }
}

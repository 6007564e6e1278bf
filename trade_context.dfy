/**
 * `buildTradeContext` of `src/lib/trade-context.js`: the text handed to the AI
 * assistant. The trades are ordered by entry date; the text is a portfolio
 * summary, a breakdown by symbol (and by strategy, direction and weekday), a
 * summary of the trades older than the last fifty, and the last fifty trades
 * one per line, the sections separated by blank lines.
 */
module TradeContext {
  import opened Js
  import opened Grouping
  import opened TradeModel
  import opened TradeUtils
  import opened TradeMerge

  /** `MAX_DETAILED_TRADES`: how many of the latest trades are described one by one. */
  const MaxDetailedTrades: nat := 50

  /** The sentence returned for a missing or empty list of trades. */
  const NoTradesSentence: string := "The user has no trades in their journal yet."

  /** `fmtMoney(v)` of a number. */
  function FmtMoney(env: Env, v: real): string {
    "$" + env.fixed2(v)
  }

  /** `fmtPct(v)` of a number. */
  function FmtPct(env: Env, v: real): string {
    env.fixed1(v) + "%"
  }

  function Max(a: nat, b: nat): (m: nat)
    ensures m >= a && m >= b && (m == a || m == b)
  {
    if a >= b then a else b
  }

  // ---------------------------------------------------------------------------
  // computeStreaks

  datatype Side = Winning | Losing

  /** `t.pnl > 0` for a win, `t.pnl < 0` for a loss: a zero or missing pnl is neither. */
  predicate OnSide(t: Trade, side: Side) {
    match side
    case Winning => IsWin(t)
    case Losing => IsLoss(t)
  }

  /** The number of consecutive `side` trades that end `ts`. */
  function RunAtEnd(ts: seq<Trade>, side: Side): (r: nat)
    ensures r <= |ts|
  {
    if ts == [] then 0
    else if OnSide(ts[|ts| - 1], side) then RunAtEnd(ts[..|ts| - 1], side) + 1
    else 0
  }

  /** The longest run of consecutive `side` trades in `ts`. */
  function LongestRun(ts: seq<Trade>, side: Side): (r: nat)
    ensures r <= |ts|
  {
    if ts == [] then 0 else Max(LongestRun(ts[..|ts| - 1], side), RunAtEnd(ts, side))
  }

  /** Every trade of `ts[lo..hi]` is on `side`. */
  predicate AllOnSide(ts: seq<Trade>, side: Side, lo: int, hi: int)
    requires 0 <= lo <= hi <= |ts|
  {
    forall k :: lo <= k < hi ==> OnSide(ts[k], side)
  }

  /**
   * The loop of `computeStreaks`: `curWin` and `curLoss` are the runs that end
   * the trades read so far, `maxWin` and `maxLoss` the longest runs seen.
   */
  method ComputeStreaks(sorted: seq<Trade>) returns (maxWin: nat, maxLoss: nat)
    ensures maxWin == LongestRun(sorted, Winning)
    ensures maxLoss == LongestRun(sorted, Losing)
  {
    maxWin, maxLoss := 0, 0;
    var curWin: nat, curLoss: nat := 0, 0;
    var i := 0;
    while i < |sorted|
      invariant 0 <= i <= |sorted|
      invariant curWin == RunAtEnd(sorted[..i], Winning) && curLoss == RunAtEnd(sorted[..i], Losing)
      invariant maxWin == LongestRun(sorted[..i], Winning) && maxLoss == LongestRun(sorted[..i], Losing)
    {
      var t := sorted[i];
      PrefixSnoc(sorted, i);
      if t.pnl.Some? && t.pnl.value > 0.0 {
        curWin := curWin + 1;
        curLoss := 0;
        maxWin := Max(maxWin, curWin);
      } else if t.pnl.Some? && t.pnl.value < 0.0 {
        curLoss := curLoss + 1;
        curWin := 0;
        maxLoss := Max(maxLoss, curLoss);
      } else {
        curWin := 0;
        curLoss := 0;
      }
      i := i + 1;
    }
    assert sorted[..i] == sorted;
  }

  /** The run that ends `ts` is a run of `side` trades, and it cannot be extended to the left. */
  lemma {:induction false} RunAtEndIsRun(ts: seq<Trade>, side: Side)
    ensures AllOnSide(ts, side, |ts| - RunAtEnd(ts, side), |ts|)
    ensures RunAtEnd(ts, side) < |ts| ==> !OnSide(ts[|ts| - RunAtEnd(ts, side) - 1], side)
    decreases |ts|
  {
    if ts != [] && OnSide(ts[|ts| - 1], side) {
      var init := ts[..|ts| - 1];
      RunAtEndIsRun(init, side);
      assert forall k :: 0 <= k < |init| ==> init[k] == ts[k];
    }
  }

  /** A run of `side` trades reaching the end of `ts` is no longer than RunAtEnd. */
  lemma {:induction false} RunAtEndBound(ts: seq<Trade>, side: Side, lo: int)
    requires 0 <= lo <= |ts| && AllOnSide(ts, side, lo, |ts|)
    ensures |ts| - lo <= RunAtEnd(ts, side)
    decreases |ts|
  {
    if lo < |ts| {
      var init := ts[..|ts| - 1];
      assert forall k :: 0 <= k < |init| ==> init[k] == ts[k];
      assert AllOnSide(init, side, lo, |init|);
      RunAtEndBound(init, side, lo);
    }
  }

  /** Some stretch of consecutive `side` trades is as long as LongestRun: the one starting at `lo`. */
  lemma {:induction false} LongestRunWitness(ts: seq<Trade>, side: Side) returns (lo: nat)
    ensures lo + LongestRun(ts, side) <= |ts| && AllOnSide(ts, side, lo, lo + LongestRun(ts, side))
    decreases |ts|
  {
    if ts == [] {
      lo := 0;
    } else {
      var init := ts[..|ts| - 1];
      if LongestRun(ts, side) == LongestRun(init, side) {
        lo := LongestRunWitness(init, side);
        assert forall k :: lo <= k < lo + LongestRun(init, side) ==> init[k] == ts[k];
      } else {
        RunAtEndIsRun(ts, side);
        lo := |ts| - RunAtEnd(ts, side);
      }
    }
  }

  /** No stretch of consecutive `side` trades is longer than LongestRun. */
  lemma {:induction false} LongestRunBound(ts: seq<Trade>, side: Side, lo: int, hi: int)
    requires 0 <= lo <= hi <= |ts| && AllOnSide(ts, side, lo, hi)
    ensures hi - lo <= LongestRun(ts, side)
    decreases |ts|
  {
    if hi == |ts| {
      RunAtEndBound(ts, side, lo);
    } else {
      var init := ts[..|ts| - 1];
      assert forall k :: lo <= k < hi ==> init[k] == ts[k];
      assert AllOnSide(init, side, lo, hi);
      LongestRunBound(init, side, lo, hi);
    }
  }

  /** After a trade that is not on `side`, the run at the end only counts the trades after it. */
  lemma {:induction false} RunAfterBreak(a: seq<Trade>, z: Trade, b: seq<Trade>, side: Side)
    requires !OnSide(z, side)
    ensures RunAtEnd(a + [z] + b, side) == RunAtEnd(b, side)
    decreases |b|
  {
    if b == [] {
      assert a + [z] + b == a + [z];
      assert (a + [z])[..|a|] == a;
    } else {
      var b' := b[..|b| - 1];
      assert (a + [z] + b)[..|a + [z] + b| - 1] == a + [z] + b';
      RunAfterBreak(a, z, b', side);
    }
  }

  /**
   * A breakeven trade (pnl zero or missing) resets both streaks: the longest
   * run across it is the longer of the runs before it and after it.
   */
  lemma {:induction false} BreakevenSplitsRuns(a: seq<Trade>, z: Trade, b: seq<Trade>, side: Side)
    requires PnlOr0(z) == 0.0
    ensures LongestRun(a + [z] + b, side) == Max(LongestRun(a, side), LongestRun(b, side))
    decreases |b|
  {
    assert !OnSide(z, side);
    if b == [] {
      assert a + [z] + b == a + [z];
      assert (a + [z])[..|a|] == a;
    } else {
      var b' := b[..|b| - 1];
      assert (a + [z] + b)[..|a + [z] + b| - 1] == a + [z] + b';
      BreakevenSplitsRuns(a, z, b', side);
      RunAfterBreak(a, z, b, side);
    }
  }

  // ---------------------------------------------------------------------------
  // Counts and totals

  /** The number of `side` trades. */
  function CountSide(ts: seq<Trade>, side: Side): (n: nat)
    ensures n <= |ts|
  {
    if ts == [] then 0 else CountSide(ts[..|ts| - 1], side) + (if OnSide(ts[|ts| - 1], side) then 1 else 0)
  }

  /** The sum of the pnl of the `side` trades. */
  function SidePnl(ts: seq<Trade>, side: Side): real {
    if ts == [] then 0.0 else SidePnl(ts[..|ts| - 1], side) + (if OnSide(ts[|ts| - 1], side) then PnlOr0(ts[|ts| - 1]) else 0.0)
  }

  /** No trade is both a win and a loss, so wins and losses together are at most all trades. */
  lemma {:induction false} WinsAndLosses(ts: seq<Trade>)
    ensures CountSide(ts, Winning) + CountSide(ts, Losing) <= |ts|
    decreases |ts|
  {
    if ts != [] {
      WinsAndLosses(ts[..|ts| - 1]);
    }
  }

  /** A streak is never longer than the number of trades on its side. */
  lemma {:induction false} RunsWithinCount(ts: seq<Trade>, side: Side)
    ensures RunAtEnd(ts, side) <= CountSide(ts, side)
    ensures LongestRun(ts, side) <= CountSide(ts, side)
    decreases |ts|
  {
    if ts != [] {
      RunsWithinCount(ts[..|ts| - 1], side);
    }
  }

  /** The total pnl is the wins' pnl plus the losses' pnl; the first is positive or zero, the second negative or zero. */
  lemma {:induction false} PnlSplits(ts: seq<Trade>)
    ensures SumReal(ts, PnlOf) == SidePnl(ts, Winning) + SidePnl(ts, Losing)
    ensures SidePnl(ts, Winning) >= 0.0 && SidePnl(ts, Losing) <= 0.0
    ensures SidePnl(ts, Winning) > 0.0 <==> CountSide(ts, Winning) > 0
    ensures SidePnl(ts, Losing) < 0.0 <==> CountSide(ts, Losing) > 0
    decreases |ts|
  {
    if ts != [] {
      PnlSplits(ts[..|ts| - 1]);
    }
  }

  // ---------------------------------------------------------------------------
  // buildSymbolBreakdown

  function SymbolKey(t: Trade): string {
    t.symbol
  }

  /** The trades with a non-empty symbol, in order (`if (!t.symbol) continue`). */
  function WithSymbol(ts: seq<Trade>): (r: seq<Trade>)
    ensures |r| <= |ts|
    ensures forall i :: 0 <= i < |r| ==> r[i].symbol != ""
  {
    if ts == [] then []
    else WithSymbol(ts[..|ts| - 1]) + (if ts[|ts| - 1].symbol != "" then [ts[|ts| - 1]] else [])
  }

  /** Every trade with a symbol is kept. */
  lemma {:induction false} WithSymbolKeeps(ts: seq<Trade>, j: nat)
    requires j < |ts| && ts[j].symbol != ""
    ensures ts[j] in WithSymbol(ts)
    decreases |ts|
  {
    if j < |ts| - 1 {
      var init := ts[..|ts| - 1];
      assert init[j] == ts[j];
      WithSymbolKeeps(init, j);
    }
  }

  /** Dropping the trades without a symbol does not change the group of any symbol. */
  lemma {:induction false} MembersWithSymbol(ts: seq<Trade>, k: string)
    requires k != ""
    ensures Members(WithSymbol(ts), SymbolKey, k) == Members(ts, SymbolKey, k)
    decreases |ts|
  {
    if ts != [] {
      var init := ts[..|ts| - 1];
      var x := ts[|ts| - 1];
      var tail: seq<Trade> := if x.symbol == k then [x] else [];
      assert WithSymbol(ts) == WithSymbol(init) + (if x.symbol != "" then [x] else []);
      assert Members(ts, SymbolKey, k) == Members(init, SymbolKey, k) + tail;
      MembersWithSymbol(init, k);
      if x.symbol != "" {
        GroupStep(WithSymbol(init), x);
      } else {
        assert WithSymbol(ts) == WithSymbol(init);
        assert Members(ts, SymbolKey, k) == Members(init, SymbolKey, k);
      }
    }
  }

  /** `{ wins, losses, pnl, count }` of one symbol. */
  datatype SymbolStats = SymbolStats(count: nat, pnl: real, wins: nat, losses: nat)

  /** The figures of a group of trades. */
  function StatsOf(ts: seq<Trade>): SymbolStats {
    SymbolStats(|ts|, SumReal(ts, PnlOf), CountSide(ts, Winning), CountSide(ts, Losing))
  }

  /** One pass of the loop body on an existing entry. */
  function AddTrade(s: SymbolStats, t: Trade): SymbolStats {
    var wins := if t.pnl.Some? && t.pnl.value > 0.0 then s.wins + 1 else s.wins;
    var losses := if !(t.pnl.Some? && t.pnl.value > 0.0) && t.pnl.Some? && t.pnl.value < 0.0 then s.losses + 1 else s.losses;
    SymbolStats(s.count + 1, s.pnl + PnlOr0(t), wins, losses)
  }

  lemma AddTradeStep(ts: seq<Trade>, t: Trade)
    ensures StatsOf(ts + [t]) == AddTrade(StatsOf(ts), t)
  {
    assert (ts + [t])[..|ts|] == ts;
  }

  /** A symbol's line: its name and its figures. */
  datatype SymbolLine = SymbolLine(symbol: string, stats: SymbolStats)

  /** The sort key of `(a, b) => b[1].pnl - a[1].pnl`: larger pnl first. */
  function NegPnl(l: SymbolLine): real {
    -l.stats.pnl
  }

  /** The symbols in first-appearance order, each with its figures. */
  function SymbolRows(ts: seq<Trade>): (rows: seq<SymbolLine>)
    ensures var ks := Keys(WithSymbol(ts), SymbolKey);
      |rows| == |ks| && forall j :: 0 <= j < |ks| ==> rows[j] == SymbolLine(ks[j], StatsOf(Members(WithSymbol(ts), SymbolKey, ks[j])))
  {
    var named := WithSymbol(ts);
    var ks := Keys(named, SymbolKey);
    seq(|ks|, j requires 0 <= j < |ks| => SymbolLine(ks[j], StatsOf(Members(named, SymbolKey, ks[j]))))
  }

  /** `Object.entries(map).sort(...)`: the rows by total pnl, largest first, ties in first-appearance order. */
  function SymbolBreakdown(ts: seq<Trade>): seq<SymbolLine> {
    SortBy(SymbolRows(ts), NegPnl)
  }

  /** The loop of `buildSymbolBreakdown` filling the map of symbols, then the sort. */
  method BuildSymbolBreakdown(trades: seq<Trade>) returns (lines: seq<SymbolLine>)
    ensures lines == SymbolBreakdown(trades)
  {
    var stats: map<string, SymbolStats> := map[];
    var order: seq<string> := [];
    var i := 0;
    while i < |trades|
      invariant 0 <= i <= |trades|
      invariant Tallied(WithSymbol(trades[..i]), stats, order)
    {
      stats, order := Visit(trades, i, stats, order);
      i := i + 1;
    }
    assert trades[..i] == trades;
    var rows := Rows(stats, order);
    TalliedRows(trades, stats, order);
    lines := SortBy(rows, NegPnl);
  }

  /** One pass of the loop: a trade without a symbol is skipped, one with a symbol is tallied. */
  method Visit(trades: seq<Trade>, i: nat, stats: map<string, SymbolStats>, order: seq<string>)
    returns (stats': map<string, SymbolStats>, order': seq<string>)
    requires i < |trades| && Tallied(WithSymbol(trades[..i]), stats, order)
    ensures Tallied(WithSymbol(trades[..i + 1]), stats', order')
  {
    var t := trades[i];
    NamedStep(trades, i);
    if t.symbol != "" {
      stats', order' := Tally(WithSymbol(trades[..i]), t, stats, order);
    } else {
      stats', order' := stats, order;
    }
  }

  /** `Object.entries(map)`: the entries in insertion order. */
  function Rows(stats: map<string, SymbolStats>, order: seq<string>): (rows: seq<SymbolLine>)
    ensures |rows| == |order|
    ensures forall j :: 0 <= j < |order| ==> rows[j].symbol == order[j]
    ensures forall j :: 0 <= j < |order| && order[j] in stats ==> rows[j].stats == stats[order[j]]
  {
    seq(|order|, j requires 0 <= j < |order| => SymbolLine(order[j], if order[j] in stats then stats[order[j]] else SymbolStats(0, 0.0, 0, 0)))
  }

  /** The entries of a finished tally are the symbol rows. */
  lemma TalliedRows(ts: seq<Trade>, stats: map<string, SymbolStats>, order: seq<string>)
    requires Tallied(WithSymbol(ts), stats, order)
    ensures Rows(stats, order) == SymbolRows(ts)
  {
  }

  /** The map and its insertion order after reading `named`: one entry per symbol, holding the figures of its group. */
  ghost predicate Tallied(named: seq<Trade>, stats: map<string, SymbolStats>, order: seq<string>) {
    && order == Keys(named, SymbolKey)
    && (forall k :: k in stats <==> k in order)
    && (forall k :: k in stats ==> stats[k] == StatsOf(Members(named, SymbolKey, k)))
  }

  /** The loop body for a trade with a symbol: `if (!map[t.symbol]) map[t.symbol] = {...}`, then the updates. */
  method Tally(named: seq<Trade>, t: Trade, stats: map<string, SymbolStats>, order: seq<string>)
    returns (stats': map<string, SymbolStats>, order': seq<string>)
    requires t.symbol != "" && Tallied(named, stats, order)
    ensures Tallied(named + [t], stats', order')
  {
    var k0 := t.symbol;
    var group := Members(named, SymbolKey, k0);
    GroupStep(named, t);
    var entry := SymbolStats(0, 0.0, 0, 0);
    order' := order;
    if k0 in stats {
      entry := stats[k0];
    } else {
      MembersNonEmpty(named, SymbolKey, k0);
      assert group == [];
      order' := order + [k0];
    }
    assert entry == StatsOf(group);
    AddTradeStep(group, t);
    stats' := stats[k0 := AddTrade(entry, t)];
    forall k | k in stats' ensures stats'[k] == StatsOf(Members(named + [t], SymbolKey, k)) {
      if k != k0 {
        OtherGroupUnchanged(named, t, stats, k);
      }
    }
  }

  lemma OtherGroupUnchanged(named: seq<Trade>, t: Trade, stats: map<string, SymbolStats>, k: string)
    requires k in stats && k != t.symbol
    requires stats[k] == StatsOf(Members(named, SymbolKey, k))
    ensures stats[k] == StatsOf(Members(named + [t], SymbolKey, k))
  {
    GroupStep(named, t);
  }

  lemma NamedStep(trades: seq<Trade>, i: nat)
    requires i < |trades|
    ensures trades[i].symbol != "" ==> WithSymbol(trades[..i + 1]) == WithSymbol(trades[..i]) + [trades[i]]
    ensures trades[i].symbol == "" ==> WithSymbol(trades[..i + 1]) == WithSymbol(trades[..i])
  {
    PrefixSnoc(trades, i);
    assert WithSymbol(trades[..i]) + [] == WithSymbol(trades[..i]);
  }

  /** One more trade: its symbol is added to the keys if new, and the trade to its own group only. */
  lemma GroupStep(s: seq<Trade>, t: Trade)
    ensures t.symbol in Keys(s, SymbolKey) ==> Keys(s + [t], SymbolKey) == Keys(s, SymbolKey)
    ensures t.symbol !in Keys(s, SymbolKey) ==> Keys(s + [t], SymbolKey) == Keys(s, SymbolKey) + [t.symbol]
    ensures Members(s + [t], SymbolKey, t.symbol) == Members(s, SymbolKey, t.symbol) + [t]
    ensures forall k :: k != t.symbol ==> Members(s + [t], SymbolKey, k) == Members(s, SymbolKey, k)
  {
    GroupSnoc(s, SymbolKey, t);
    assert SymbolKey(t) == t.symbol;
  }

  /**
   * Each line of the symbol breakdown is one distinct non-empty symbol with the
   * figures of all the trades of that symbol; there is one line per symbol.
   */
  lemma SymbolLinesAreGroups(ts: seq<Trade>)
    ensures |SymbolBreakdown(ts)| == |Keys(WithSymbol(ts), SymbolKey)|
    ensures forall i :: 0 <= i < |SymbolBreakdown(ts)| ==>
      var l := SymbolBreakdown(ts)[i];
      l.symbol != "" && l.stats == StatsOf(Members(ts, SymbolKey, l.symbol)) && l.stats.count >= 1
  {
    var lines := SymbolBreakdown(ts);
    forall i | 0 <= i < |lines|
      ensures lines[i].symbol != "" && lines[i].stats == StatsOf(Members(ts, SymbolKey, lines[i].symbol)) && lines[i].stats.count >= 1
    {
      SymbolLineIsGroup(ts, lines[i]);
    }
  }

  lemma SymbolLineIsGroup(ts: seq<Trade>, l: SymbolLine)
    requires l in SymbolBreakdown(ts)
    ensures l.symbol != "" && l.stats == StatsOf(Members(ts, SymbolKey, l.symbol)) && l.stats.count >= 1
  {
    var rows := SymbolRows(ts);
    SortByMember(rows, NegPnl, l);
    var j := IndexOf(rows, l);
    SymbolRowIsGroup(ts, j);
  }

  lemma SymbolRowIsGroup(ts: seq<Trade>, j: nat)
    requires j < |SymbolRows(ts)|
    ensures var l := SymbolRows(ts)[j];
      l.symbol != "" && l.stats == StatsOf(Members(ts, SymbolKey, l.symbol)) && l.stats.count >= 1
  {
    var named := WithSymbol(ts);
    var ks := Keys(named, SymbolKey);
    assert ks[j] in ks;
    var w :| 0 <= w < |named| && SymbolKey(named[w]) == ks[j];
    MembersWithSymbol(ts, ks[j]);
    MembersNonEmpty(named, SymbolKey, ks[j]);
  }

  /** Every trade with a symbol has its symbol's line. */
  lemma SymbolLinesCover(ts: seq<Trade>, j: nat)
    requires j < |ts| && ts[j].symbol != ""
    ensures exists i :: 0 <= i < |SymbolBreakdown(ts)| && SymbolBreakdown(ts)[i].symbol == ts[j].symbol
  {
    var named := WithSymbol(ts);
    var ks := Keys(named, SymbolKey);
    var rows := SymbolRows(ts);
    WithSymbolKeeps(ts, j);
    var w :| 0 <= w < |named| && named[w] == ts[j];
    assert SymbolKey(named[w]) in ks;
    var k :| 0 <= k < |ks| && ks[k] == ts[j].symbol;
    assert rows[k] in multiset(SymbolBreakdown(ts));
  }

  /** The lines run from the largest total pnl to the smallest. */
  lemma SymbolLinesOrdered(ts: seq<Trade>)
    ensures forall i, j :: 0 <= i < j < |SymbolBreakdown(ts)| ==>
      SymbolBreakdown(ts)[i].stats.pnl >= SymbolBreakdown(ts)[j].stats.pnl
  {
    SortBySorted(SymbolRows(ts), NegPnl);
  }

  /** One line of the symbol breakdown. */
  function SymbolLineText(env: Env, l: SymbolLine): string {
    var rate := if l.stats.count > 0 then (l.stats.wins as real / l.stats.count as real) * 100.0 else 0.0;
    "  " + l.symbol + ": " + Decimal(l.stats.count) + " trades, PNL " + FmtMoney(env, l.stats.pnl) + ", WR " + FmtPct(env, rate)
  }

  /** `buildSymbolBreakdown(trades)`. */
  function SymbolBreakdownText(env: Env, ts: seq<Trade>): string {
    var lines := SymbolBreakdown(ts);
    Join(seq(|lines|, i requires 0 <= i < |lines| => SymbolLineText(env, lines[i])), "\n")
  }

  // ---------------------------------------------------------------------------
  // buildTradeContext

  /** The figures of the portfolio summary. */
  datatype Summary = Summary(
    total: nat, firstDay: string, lastDay: string,
    totalPnl: real, totalFees: real, totalCommissions: real,
    wins: nat, losses: nat, winPnl: real, lossPnl: real,
    winStreak: nat, lossStreak: nat, avgDuration: Option<int>)

  /** The durations that are present, in order. */
  function Durations(ts: seq<Trade>): (ds: seq<int>)
    ensures |ds| <= |ts|
    ensures ds == [] <==> forall i :: 0 <= i < |ts| ==> ts[i].tradeDuration.None?
  {
    if ts == [] then []
    else
      var init := ts[..|ts| - 1];
      var x := ts[|ts| - 1];
      assert forall i :: 0 <= i < |init| ==> init[i] == ts[i];
      Durations(init) + (match x.tradeDuration case Some(d) => [d] case None => [])
  }

  function SumInts(ds: seq<int>): int {
    if ds == [] then 0 else SumInts(ds[..|ds| - 1]) + ds[|ds| - 1]
  }

  function AbsReal(x: real): real {
    if x < 0.0 then -x else x
  }

  /** `t.fees || 0` and `t.commissions || 0`. */
  function FeesOr0(t: Trade): real {
    t.fees
  }

  function CommissionsOr0(t: Trade): real {
    t.commissions
  }

  /** The figures `buildTradeContext` computes from the sorted trades. */
  function SummaryOf(sorted: seq<Trade>): Summary
    requires sorted != []
  {
    var ds := Durations(sorted);
    Summary(
      total := |sorted|,
      firstDay := Or(DatePart(sorted[0].entryDate), "?"),
      lastDay := Or(DatePart(sorted[|sorted| - 1].entryDate), "?"),
      totalPnl := SumReal(sorted, PnlOf),
      totalFees := SumReal(sorted, FeesOr0),
      totalCommissions := SumReal(sorted, CommissionsOr0),
      wins := CountSide(sorted, Winning),
      losses := CountSide(sorted, Losing),
      winPnl := SidePnl(sorted, Winning),
      lossPnl := AbsReal(SidePnl(sorted, Losing)),
      winStreak := LongestRun(sorted, Winning),
      lossStreak := LongestRun(sorted, Losing),
      avgDuration := if |ds| > 0 then Some(RoundHalfUp(SumInts(ds) as real / |ds| as real)) else None)
  }

  /**
   * What the summary figures satisfy: wins, losses and breakevens partition the
   * trades, each streak is at most the number of trades on its side, the gross
   * pnl is the wins' total minus the losses' absolute total, and an average
   * duration is given exactly when some trade has a duration.
   */
  lemma SummaryFacts(sorted: seq<Trade>)
    requires sorted != []
    ensures var s := SummaryOf(sorted);
      && s.total == |sorted|
      && s.wins + s.losses <= s.total
      && s.winStreak <= s.wins && s.lossStreak <= s.losses
      && s.winPnl >= 0.0 && s.lossPnl >= 0.0
      && (s.winPnl > 0.0 <==> s.wins > 0) && (s.lossPnl > 0.0 <==> s.losses > 0)
      && s.totalPnl == s.winPnl - s.lossPnl
      && (s.avgDuration.None? <==> forall i :: 0 <= i < |sorted| ==> sorted[i].tradeDuration.None?)
  {
    WinsAndLosses(sorted);
    RunsWithinCount(sorted, Winning);
    RunsWithinCount(sorted, Losing);
    PnlSplits(sorted);
  }

  /** `String(n)` of an integer. */
  function IntText(n: int): string {
    if n < 0 then "-" + Decimal(-n) else Decimal(n)
  }

  /** `arr.map(x => x.name).join(', ') || 'None'`. */
  function NameList(records: seq<NamedRecord>): string {
    Or(Join(seq(|records|, i requires 0 <= i < |records| => records[i].name.GetOr("")), ", "), "None")
  }

  /** The portfolio summary section. */
  function SummaryText(env: Env, s: Summary, strategies: seq<NamedRecord>, accounts: seq<NamedRecord>): string {
    var winRate := if s.total > 0 then (s.wins as real / s.total as real) * 100.0 else 0.0;
    var avgWin := if s.wins > 0 then s.winPnl / s.wins as real else 0.0;
    var avgLoss := if s.losses > 0 then s.lossPnl / s.losses as real else 0.0;
    "=== PORTFOLIO SUMMARY ===\nTotal trades: " + Decimal(s.total)
    + "\nDate range: " + s.firstDay + " to " + s.lastDay
    + "\nTotal PNL (gross): " + FmtMoney(env, s.totalPnl)
    + "\nTotal fees: " + FmtMoney(env, s.totalFees) + " | Total commissions: " + FmtMoney(env, s.totalCommissions)
    + "\nNet PNL: " + FmtMoney(env, s.totalPnl - s.totalFees - s.totalCommissions)
    + "\nWins: " + Decimal(s.wins) + " | Losses: " + Decimal(s.losses) + " | Breakeven: " + IntText(s.total - s.wins - s.losses)
    + "\nWin rate: " + FmtPct(env, winRate)
    + "\nProfit factor: " + (if s.lossPnl > 0.0 then env.fixed2(s.winPnl / s.lossPnl) else "N/A")
    + "\nAvg win: " + FmtMoney(env, avgWin) + " | Avg loss: " + FmtMoney(env, avgLoss)
    + "\nAvg win/loss ratio: " + (if avgLoss > 0.0 then env.fixed2(avgWin / avgLoss) else "N/A")
    + "\nLongest win streak: " + Decimal(s.winStreak) + " | Longest loss streak: " + Decimal(s.lossStreak)
    + "\nAvg trade duration: " + (match s.avgDuration case Some(d) => FormatDuration(Some(d)) case None => "N/A")
    + "\nStrategies: " + NameList(strategies)
    + "\nAccounts: " + NameList(accounts)
  }

  /**
   * The parts of the context whose wording is not modelled: the breakdowns by
   * strategy, by direction and by weekday, and the one-line description of a
   * trade (`formatTrade`).
   */
  datatype Renderer = Renderer(
    byStrategy: seq<Trade> -> string,
    byDirection: seq<Trade> -> string,
    byWeekday: seq<Trade> -> string,
    trade: Trade -> string)

  /** `arr.slice(start)` for a possibly negative `start`. */
  function SliceFrom<T>(s: seq<T>, start: int): seq<T> {
    var from := if start < 0 then (if |s| + start < 0 then 0 else |s| + start) else (if start > |s| then |s| else start);
    s[from..]
  }

  /** `sorted.slice(-MAX_DETAILED_TRADES)`. */
  function Recent(sorted: seq<Trade>): seq<Trade> {
    SliceFrom(sorted, -(MaxDetailedTrades as int))
  }

  /** `sorted.length - recentTrades.length`. */
  function OlderCount(sorted: seq<Trade>): int {
    |sorted| - |Recent(sorted)|
  }

  /** The section summarising the trades not described one by one. */
  function OlderSection(env: Env, older: seq<Trade>): string {
    var n := |older|;
    var rate := if n > 0 then (CountSide(older, Winning) as real / n as real) * 100.0 else 0.0;
    "=== OLDER TRADES SUMMARY (" + Decimal(n) + " trades, not shown individually) ===\nPNL: "
    + FmtMoney(env, SumReal(older, PnlOf)) + " | Win rate: " + FmtPct(env, rate)
  }

  /** The section describing the recent trades, one line each. */
  function RecentSection(render: Renderer, recent: seq<Trade>): string {
    "=== RECENT TRADES (last " + Decimal(|recent|) + ") ===\n"
    + Join(seq(|recent|, i requires 0 <= i < |recent| => render.trade(recent[i])), "\n")
  }

  /** The sections of the context for trades already sorted by entry date. */
  function Sections(env: Env, render: Renderer, sorted: seq<Trade>, strategies: seq<NamedRecord>, accounts: seq<NamedRecord>): seq<string>
    requires sorted != []
  {
    var olderCount := OlderCount(sorted);
    Assemble(
      [SummaryText(env, SummaryOf(sorted), strategies, accounts),
       "=== BY SYMBOL ===\n" + SymbolBreakdownText(env, sorted),
       "=== BY STRATEGY ===\n" + render.byStrategy(sorted),
       "=== BY DIRECTION ===\n" + render.byDirection(sorted),
       "=== BY DAY OF WEEK ===\n" + render.byWeekday(sorted)],
      if olderCount > 0 then Some(OlderSection(env, sorted[..olderCount])) else None,
      RecentSection(render, Recent(sorted)))
  }

  /** The fixed sections, then the older-trades section when there is one, then the recent trades. */
  function Assemble(fixed: seq<string>, older: Option<string>, recent: string): (secs: seq<string>)
    ensures |secs| == |fixed| + (if older.Some? then 1 else 0) + 1
    ensures secs[..|fixed|] == fixed
    ensures older.Some? ==> secs[|fixed|] == older.value
    ensures secs[|secs| - 1] == recent
  {
    fixed + (if older.Some? then [older.value] else []) + [recent]
  }

  /** `buildTradeContext(trades, strategies, accounts)`. */
  function BuildTradeContext(env: Env, render: Renderer, trades: seq<Trade>, strategies: seq<NamedRecord>, accounts: seq<NamedRecord>): string {
    if trades == [] then NoTradesSentence
    else Join(Sections(env, render, ByEntry(env, trades), strategies, accounts), "\n\n")
  }

  /** The recent trades are the last min(n, 50); the older ones, exactly the first n - 50, exist only beyond fifty. */
  lemma RecentWindow(sorted: seq<Trade>)
    ensures var n := |sorted|; var m := if n < MaxDetailedTrades then n else MaxDetailedTrades;
      && |Recent(sorted)| == m
      && Recent(sorted) == sorted[n - m..]
      && (OlderCount(sorted) > 0 <==> n > MaxDetailedTrades)
      && (n > MaxDetailedTrades ==> OlderCount(sorted) == n - MaxDetailedTrades)
      && sorted[..n - m] + Recent(sorted) == sorted
  {
    var n := |sorted|;
    var m := if n < MaxDetailedTrades then n else MaxDetailedTrades;
    assert sorted[..n - m] + sorted[n - m..] == sorted;
  }

  /** No trades: the fixed sentence. */
  lemma EmptyContext(env: Env, render: Renderer, strategies: seq<NamedRecord>, accounts: seq<NamedRecord>)
    ensures BuildTradeContext(env, render, [], strategies, accounts) == "The user has no trades in their journal yet."
  {
  }

  /**
   * The context of a non-empty list is its sections, joined by blank lines, for
   * the trades in entry-date order (a permutation of the input).
   */
  lemma ContextLayout(env: Env, render: Renderer, trades: seq<Trade>, strategies: seq<NamedRecord>, accounts: seq<NamedRecord>)
    requires trades != []
    ensures multiset(ByEntry(env, trades)) == multiset(trades) && SortedBy(ByEntry(env, trades), EntryKey(env))
    ensures BuildTradeContext(env, render, trades, strategies, accounts) == Join(Sections(env, render, ByEntry(env, trades), strategies, accounts), "\n\n")
  {
    SortBySorted(trades, EntryKey(env));
  }

  /**
   * For n trades sorted by entry date: six sections, or seven when there are
   * more than fifty trades, the extra one summarising exactly the first n - 50;
   * the last section describes the last min(n, 50) trades.
   */
  lemma SectionsByCount(env: Env, render: Renderer, sorted: seq<Trade>, strategies: seq<NamedRecord>, accounts: seq<NamedRecord>)
    requires sorted != []
    ensures var secs := Sections(env, render, sorted, strategies, accounts);
      var n := |sorted|;
      && |secs| == (if n > MaxDetailedTrades then 7 else 6)
      && (n > MaxDetailedTrades ==> secs[5] == OlderSection(env, sorted[..n - MaxDetailedTrades]))
      && secs[|secs| - 1] == RecentSection(render, sorted[n - (if n < MaxDetailedTrades then n else MaxDetailedTrades)..])
  {
    RecentWindow(sorted);
    SectionsLayout(env, render, sorted, strategies, accounts);
  }

  lemma SectionsLayout(env: Env, render: Renderer, sorted: seq<Trade>, strategies: seq<NamedRecord>, accounts: seq<NamedRecord>)
    requires sorted != []
    ensures var secs := Sections(env, render, sorted, strategies, accounts);
      && |secs| == (if OlderCount(sorted) > 0 then 7 else 6)
      && (OlderCount(sorted) > 0 ==> secs[5] == OlderSection(env, sorted[..OlderCount(sorted)]))
      && secs[|secs| - 1] == RecentSection(render, Recent(sorted))
  {
  }
}

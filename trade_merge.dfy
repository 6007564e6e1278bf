/**
 * The rule that turns several partial fills of one position into one trade,
 * shared by `mergeScaleOuts` (`src/lib/merge-scale-outs.js`) and the manual merge
 * of the import page (`mergeTrades` of `src/pages/BulkImport.jsx`): members
 * ordered by entry time, entry taken from the earliest member, exit price the
 * size-weighted average of the members' exits, totals summed and rounded to
 * cents, one take-profit leg per member.
 */
module TradeMerge {
  import opened Js
  import opened Grouping
  import opened TradeModel
  import opened TradeUtils

  /** `t.positionSize || 0`. */
  function Size(t: Trade): int {
    t.positionSize
  }

  /** `t.pnl || 0`. */
  function PnlOf(t: Trade): real {
    PnlOr0(t)
  }

  /** `t.fees || 0`. */
  function FeesOf(t: Trade): real {
    t.fees
  }

  /** `t.commissions || 0`. */
  function CommissionsOf(t: Trade): real {
    t.commissions
  }

  /** `(t.exitPrice || 0) * (t.positionSize || 0)`. */
  function ExitWeight(t: Trade): real {
    t.exitPrice * t.positionSize as real
  }

  /** The sort key `new Date(t.entryDate)`, as milliseconds. */
  function EntryKey(env: Env): Trade -> real {
    (t: Trade) => env.dateMs(t.entryDate) as real
  }

  /** The members ordered by entry time, ties kept in input order. */
  function ByEntry(env: Env, ts: seq<Trade>): seq<Trade> {
    SortBy(ts, EntryKey(env))
  }

  /** The size-weighted average exit price, 0 when the total size is not positive. */
  function WeightedExitPrice(ts: seq<Trade>): real {
    var total := SumInt(ts, Size);
    if total > 0 then SumReal(ts, ExitWeight) / total as real else 0.0
  }

  /** One take-profit leg `{ price: exitPrice, quantity: positionSize, date: exitDate }` per member. */
  function Legs(ts: seq<Trade>): (legs: seq<Leg>)
    ensures |legs| == |ts|
    ensures forall i :: 0 <= i < |ts| ==> legs[i] == Leg(ts[i].exitPrice, ts[i].positionSize, ts[i].exitDate)
  {
    seq(|ts|, i requires 0 <= i < |ts| => Leg(ts[i].exitPrice, ts[i].positionSize, ts[i].exitDate))
  }

  /** The merged trade built from members already in entry order. */
  function Combine(env: Env, sorted: seq<Trade>): Trade
    requires |sorted| >= 1
  {
    var first := sorted[0];
    var exitDate := sorted[|sorted| - 1].exitDate;
    Trade(
      symbol := first.symbol,
      direction := first.direction,
      entryPrice := first.entryPrice,
      exitPrice := Round2(WeightedExitPrice(sorted)),
      entryDate := first.entryDate,
      exitDate := exitDate,
      positionSize := SumInt(sorted, Size),
      pnl := Some(Round2(SumReal(sorted, PnlOf))),
      fees := Round2(SumReal(sorted, FeesOf)),
      commissions := Round2(SumReal(sorted, CommissionsOf)),
      tradeDuration := ComputeDurationSeconds(env, first.entryDate, exitDate),
      tags := [],
      takeProfits := Legs(sorted),
      notes := "",
      tradeDay := None,
      account := None,
      merged := false,
      originals := None,
      accountId := None,
      strategyId := None)
  }

  /** The merge of a group of at least one trade. */
  function MergeGroup(env: Env, ts: seq<Trade>): Trade
    requires |ts| >= 1
  {
    Combine(env, ByEntry(env, ts))
  }

  /** The quantities of the legs add up to the members' total size. */
  lemma {:induction false} LegsQuantity(ts: seq<Trade>)
    ensures LegQuantity(Legs(ts)) == SumInt(ts, Size)
    decreases |ts|
  {
    if ts != [] {
      var init := ts[..|ts| - 1];
      assert Legs(ts)[..|ts| - 1] == Legs(init);
      LegsQuantity(init);
    }
  }

  /** The weighted exit price does not depend on the order of the members. */
  lemma WeightedExitOrderFree(env: Env, ts: seq<Trade>)
    ensures WeightedExitPrice(ByEntry(env, ts)) == WeightedExitPrice(ts)
  {
    SumIntSortBy(ts, EntryKey(env), Size);
    SumRealSortBy(ts, EntryKey(env), ExitWeight);
  }

  /** With positive sizes the weighted sum lies between the sizes priced at the lowest and at the highest exit. */
  lemma {:induction false} WeightedSumBetween(ts: seq<Trade>, lo: real, hi: real)
    requires forall i :: 0 <= i < |ts| ==> ts[i].positionSize > 0 && lo <= ts[i].exitPrice <= hi
    ensures lo * SumInt(ts, Size) as real <= SumReal(ts, ExitWeight) <= hi * SumInt(ts, Size) as real
    decreases |ts|
  {
    if ts != [] {
      var init := ts[..|ts| - 1];
      var x := ts[|ts| - 1];
      WeightedSumBetween(init, lo, hi);
      var n := x.positionSize as real;
      var a := SumInt(init, Size) as real;
      Scale(lo, x.exitPrice, hi, n);
      assert SumInt(ts, Size) as real == a + n;
      assert SumReal(ts, ExitWeight) == SumReal(init, ExitWeight) + x.exitPrice * n;
      StepBounds(lo, hi, a, n, SumReal(init, ExitWeight), x.exitPrice * n);
    }
  }

  lemma StepBounds(lo: real, hi: real, a: real, n: real, w: real, v: real)
    requires lo * a <= w <= hi * a && lo * n <= v <= hi * n
    ensures lo * (a + n) <= w + v <= hi * (a + n)
  {
    assert lo * (a + n) == lo * a + lo * n;
    assert hi * (a + n) == hi * a + hi * n;
  }

  lemma Scale(lo: real, p: real, hi: real, n: real)
    requires lo <= p <= hi && n > 0.0
    ensures lo * n <= p * n <= hi * n
  {
  }

  /** With positive sizes the weighted exit lies between the lowest and the highest member exit. */
  lemma WeightedExitBetween(ts: seq<Trade>, lo: real, hi: real)
    requires ts != []
    requires forall i :: 0 <= i < |ts| ==> ts[i].positionSize > 0 && lo <= ts[i].exitPrice <= hi
    ensures lo <= WeightedExitPrice(ts) <= hi
  {
    WeightedSumBetween(ts, lo, hi);
    SizesPositive(ts);
    DivBetween(SumReal(ts, ExitWeight), SumInt(ts, Size) as real, lo, hi);
  }

  lemma {:induction false} SizesPositive(ts: seq<Trade>)
    requires ts != []
    requires forall i :: 0 <= i < |ts| ==> ts[i].positionSize > 0
    ensures SumInt(ts, Size) > 0
    decreases |ts|
  {
    var init := ts[..|ts| - 1];
    if init != [] {
      SizesPositive(init);
    }
  }

  lemma DivBetween(w: real, total: real, lo: real, hi: real)
    requires total > 0.0 && lo * total <= w <= hi * total
    ensures lo <= w / total <= hi
  {
    assert (w / total) * total == w;
  }

  /**
   * What the merge of a group keeps: the earliest member's entry, the latest
   * member's exit date, the members' totals rounded to cents (in any order), one
   * leg per member in entry order whose quantities add up to the size, and none
   * of the members' tags, notes or bookkeeping keys.
   */
  lemma MergeGroupFacts(env: Env, ts: seq<Trade>)
    requires |ts| >= 1
    ensures var m := MergeGroup(env, ts);
      var sorted := ByEntry(env, ts);
      && multiset(sorted) == multiset(ts)
      && SortedBy(sorted, EntryKey(env))
      && m.symbol == sorted[0].symbol && m.direction == sorted[0].direction
      && m.entryPrice == sorted[0].entryPrice && m.entryDate == sorted[0].entryDate
      && (forall i :: 0 <= i < |ts| ==> env.dateMs(m.entryDate) <= env.dateMs(ts[i].entryDate))
      && m.exitDate == sorted[|ts| - 1].exitDate
      && (forall i :: 0 <= i < |ts| ==> env.dateMs(ts[i].entryDate) <= env.dateMs(sorted[|ts| - 1].entryDate))
      && m.positionSize == SumInt(ts, Size)
      && m.pnl == Some(Round2(SumReal(ts, PnlOf)))
      && m.fees == Round2(SumReal(ts, FeesOf))
      && m.commissions == Round2(SumReal(ts, CommissionsOf))
      && m.exitPrice == Round2(WeightedExitPrice(ts))
      && m.takeProfits == Legs(sorted)
      && LegQuantity(m.takeProfits) == m.positionSize
      && m.tradeDuration == ComputeDurationSeconds(env, m.entryDate, m.exitDate)
      && m.tags == [] && m.notes == "" && NoBookkeeping(m)
      && m.accountId.None? && m.strategyId.None?
  {
    var key := EntryKey(env);
    var sorted := ByEntry(env, ts);
    SortBySorted(ts, key);
    SortByFirstIsLeast(ts, key);
    SortByLastIsGreatest(ts, key);
    SumIntSortBy(ts, key, Size);
    SumRealSortBy(ts, key, PnlOf);
    SumRealSortBy(ts, key, FeesOf);
    SumRealSortBy(ts, key, CommissionsOf);
    WeightedExitOrderFree(env, ts);
    LegsQuantity(sorted);
  }

  /**
   * A group of one trade merges into that trade's own figures, rounded to cents. The program never
   * merges a single trade (`mergeScaleOuts` passes a one-trade group through, and the import page
   * needs two selected rows); this lemma only pins down what the shared merge rule does on one trade.
   */
  lemma MergeSingle(env: Env, t: Trade)
    ensures var m := MergeGroup(env, [t]);
      && m.entryDate == t.entryDate && m.exitDate == t.exitDate
      && m.positionSize == t.positionSize
      && m.takeProfits == [Leg(t.exitPrice, t.positionSize, t.exitDate)]
      && m.pnl == Some(Round2(PnlOr0(t)))
  {
    assert [t][..0] == [];
    assert SortBy([t], EntryKey(env)) == [t];
    assert SumInt([t], Size) == t.positionSize;
    assert SumReal([t], PnlOf) == PnlOr0(t);
  }
}

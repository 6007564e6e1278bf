/**
 * The list editing of the import page, `src/pages/BulkImport.jsx`: the manual
 * merge of selected trades (`mergeTrades`, `canMerge`, `mergeValidationMessage`,
 * `handleMerge`), its inverse (`handleUnmerge`) and the stripping of bookkeeping
 * keys before the import (`handleImport`). The page's state setters are
 * abstracted: each handler returns the new list (and the new error message)
 * instead of storing it.
 */
module BulkImport {
  import opened Js
  import opened Grouping
  import opened TradeModel
  import opened TradeMerge

  // ---------------------------------------------------------------------------
  // Selections

  /** No index repeats: a JavaScript `Set` of row indices, in insertion order. */
  predicate Distinct(s: seq<int>) {
    forall i, j :: 0 <= i < j < |s| ==> s[i] != s[j]
  }

  /** A selection of rows of a list of `n` trades. */
  predicate ValidSelection(sel: seq<int>, n: nat) {
    Distinct(sel) && forall i :: 0 <= i < |sel| ==> 0 <= sel[i] < n
  }

  /** `new Set(indices)`. */
  function IndexSet(sel: seq<int>): set<int> {
    set x | x in sel
  }

  /** `indices.map((i) => trades[i])`. */
  function SelectedTrades(trades: seq<Trade>, sel: seq<int>): (r: seq<Trade>)
    requires forall i :: 0 <= i < |sel| ==> 0 <= sel[i] < |trades|
    ensures |r| == |sel|
  {
    seq(|sel|, i requires 0 <= i < |sel| => trades[sel[i]])
  }

  function SymbolOf(t: Trade): string {
    t.symbol
  }

  function DirectionOf(t: Trade): string {
    DirectionName(t.direction)
  }

  /** `canMerge`: two or more rows, one symbol and one direction among them (`Set` sizes). */
  predicate CanMerge(trades: seq<Trade>, sel: seq<int>)
    requires forall i :: 0 <= i < |sel| ==> 0 <= sel[i] < |trades|
  {
    var picked := SelectedTrades(trades, sel);
    |sel| >= 2 && |Keys(picked, SymbolOf)| == 1 && |Keys(picked, DirectionOf)| == 1
  }

  /** Two or more rows, all with the symbol and the direction of the first selected row. */
  predicate Mergeable(trades: seq<Trade>, sel: seq<int>)
    requires forall i :: 0 <= i < |sel| ==> 0 <= sel[i] < |trades|
  {
    |sel| >= 2 && forall i :: 0 <= i < |sel| ==>
      trades[sel[i]].symbol == trades[sel[0]].symbol && trades[sel[i]].direction == trades[sel[0]].direction
  }

  /** `mergeValidationMessage`: null for fewer than two rows or a mergeable selection. */
  function ValidationMessage(trades: seq<Trade>, sel: seq<int>): Option<string>
    requires forall i :: 0 <= i < |sel| ==> 0 <= sel[i] < |trades|
  {
    match KeyCheck(SelectedTrades(trades, sel), SymbolOf, "symbols", DirectionOf, "directions")
    case None => None
    case Some(r) => Some(Mismatch(r.what, r.values))
  }

  /** A refusal: which attribute differs and its distinct values. */
  datatype Refusal = Refusal(what: string, values: seq<string>)

  /**
   * The refusal for rows that show more than one value of the `first` key (checked
   * first) or of the `second` key; none for fewer than two rows.
   */
  function KeyCheck(rows: seq<Trade>, first: Trade -> string, firstName: string,
                    second: Trade -> string, secondName: string): Option<Refusal>
  {
    if |rows| < 2 then None
    else if |Keys(rows, first)| > 1 then Some(Refusal(firstName, Keys(rows, first)))
    else if |Keys(rows, second)| > 1 then Some(Refusal(secondName, Keys(rows, second)))
    else None
  }

  /** The refusal naming what differs and the distinct values, comma separated. */
  function Mismatch(what: string, values: seq<string>): string {
    "Cannot merge: selected trades have different " + what + " (" + Join(values, ", ") + ")"
  }

  /** Every row has the first row's key. */
  predicate AllAgree(rows: seq<Trade>, key: Trade -> string) {
    forall i :: 0 <= i < |rows| ==> key(rows[i]) == key(rows[0])
  }

  lemma KeyCheckCases(rows: seq<Trade>, first: Trade -> string, firstName: string,
                      second: Trade -> string, secondName: string)
    ensures KeyCheck(rows, first, firstName, second, secondName).None? <==>
      |rows| < 2 || (AllAgree(rows, first) && AllAgree(rows, second))
    ensures |rows| >= 2 && !AllAgree(rows, first) ==>
      KeyCheck(rows, first, firstName, second, secondName) == Some(Refusal(firstName, Keys(rows, first)))
    ensures |rows| >= 2 && AllAgree(rows, first) && !AllAgree(rows, second) ==>
      KeyCheck(rows, first, firstName, second, secondName) == Some(Refusal(secondName, Keys(rows, second)))
  {
    if |rows| >= 2 {
      var several1, several2 := |Keys(rows, first)| > 1, |Keys(rows, second)| > 1;
      MoreThanOneKey(rows, first);
      MoreThanOneKey(rows, second);
      assert several1 <==> !AllAgree(rows, first);
      assert several2 <==> !AllAgree(rows, second);
    }
  }

  /** Nonempty rows show more than one key exactly when they do not all agree. */
  lemma MoreThanOneKey(rows: seq<Trade>, key: Trade -> string)
    requires |rows| >= 1
    ensures |Keys(rows, key)| > 1 <==> !AllAgree(rows, key)
  {
    SingleKey(rows, key);
    assert key(rows[0]) in Keys(rows, key);
  }

  const DefaultMergeError := "Select 2+ trades with the same symbol and direction"

  /** One key among the selected rows exactly when every selected row has the first one's key. */
  lemma SelectedSameKey(trades: seq<Trade>, sel: seq<int>, key: Trade -> string)
    requires forall i :: 0 <= i < |sel| ==> 0 <= sel[i] < |trades|
    requires |sel| >= 1
    ensures |Keys(SelectedTrades(trades, sel), key)| >= 1
    ensures |Keys(SelectedTrades(trades, sel), key)| == 1 <==>
      forall i :: 0 <= i < |sel| ==> key(trades[sel[i]]) == key(trades[sel[0]])
  {
    var picked := SelectedTrades(trades, sel);
    SingleKey(picked, key);
    assert key(picked[0]) in Keys(picked, key);
    assert forall i :: 0 <= i < |sel| ==> picked[i] == trades[sel[i]];
  }

  lemma DirectionNameInjective(a: Direction, b: Direction)
    ensures DirectionName(a) == DirectionName(b) <==> a == b
  {
    if a != b {
      assert DirectionName(a)[0] != DirectionName(b)[0];
    }
  }

  /** The selected rows agree on direction exactly when their direction names do. */
  lemma SameDirectionNames(trades: seq<Trade>, sel: seq<int>)
    requires forall i :: 0 <= i < |sel| ==> 0 <= sel[i] < |trades|
    requires |sel| >= 1
    ensures (forall i :: 0 <= i < |sel| ==> DirectionOf(trades[sel[i]]) == DirectionOf(trades[sel[0]])) <==>
      (forall i :: 0 <= i < |sel| ==> trades[sel[i]].direction == trades[sel[0]].direction)
  {
    forall i | 0 <= i < |sel|
      ensures DirectionOf(trades[sel[i]]) == DirectionOf(trades[sel[0]]) <==>
        trades[sel[i]].direction == trades[sel[0]].direction
    {
      DirectionNameInjective(trades[sel[i]].direction, trades[sel[0]].direction);
    }
  }

  /** The selected rows show one symbol exactly when they all have the first row's. */
  lemma OneSymbolIff(trades: seq<Trade>, sel: seq<int>)
    requires forall i :: 0 <= i < |sel| ==> 0 <= sel[i] < |trades|
    requires |sel| >= 1
    ensures |Keys(SelectedTrades(trades, sel), SymbolOf)| == 1 <==>
      forall i :: 0 <= i < |sel| ==> trades[sel[i]].symbol == trades[sel[0]].symbol
  {
    SelectedSameKey(trades, sel, SymbolOf);
  }

  /** The selected rows show one direction exactly when they all have the first row's. */
  lemma OneDirectionIff(trades: seq<Trade>, sel: seq<int>)
    requires forall i :: 0 <= i < |sel| ==> 0 <= sel[i] < |trades|
    requires |sel| >= 1
    ensures |Keys(SelectedTrades(trades, sel), DirectionOf)| == 1 <==>
      forall i :: 0 <= i < |sel| ==> trades[sel[i]].direction == trades[sel[0]].direction
  {
    SelectedSameKey(trades, sel, DirectionOf);
    SameDirectionNames(trades, sel);
  }

  /** `canMerge` holds exactly when two or more rows share the first row's symbol and direction. */
  lemma CanMergeIff(trades: seq<Trade>, sel: seq<int>)
    requires forall i :: 0 <= i < |sel| ==> 0 <= sel[i] < |trades|
    ensures CanMerge(trades, sel) <==> Mergeable(trades, sel)
  {
    if |sel| >= 2 {
      OneSymbolIff(trades, sel);
      OneDirectionIff(trades, sel);
    }
  }

  /** The selected rows agree on symbol, and on direction, as the fields say. */
  lemma AgreeOnFields(trades: seq<Trade>, sel: seq<int>)
    requires forall i :: 0 <= i < |sel| ==> 0 <= sel[i] < |trades|
    requires |sel| >= 1
    ensures AllAgree(SelectedTrades(trades, sel), SymbolOf) <==>
      forall i :: 0 <= i < |sel| ==> trades[sel[i]].symbol == trades[sel[0]].symbol
    ensures AllAgree(SelectedTrades(trades, sel), DirectionOf) <==>
      forall i :: 0 <= i < |sel| ==> trades[sel[i]].direction == trades[sel[0]].direction
  {
    var rows := SelectedTrades(trades, sel);
    assert forall i :: 0 <= i < |sel| ==> rows[i] == trades[sel[i]];
    SameDirectionNames(trades, sel);
  }

  /**
   * The message is empty exactly when the selection is too small or mergeable; a
   * symbol mismatch is reported (naming the distinct symbols in selection order)
   * before a direction mismatch is.
   */
  lemma ValidationMessageCases(trades: seq<Trade>, sel: seq<int>)
    requires forall i :: 0 <= i < |sel| ==> 0 <= sel[i] < |trades|
    ensures ValidationMessage(trades, sel).None? <==> |sel| < 2 || Mergeable(trades, sel)
    ensures (|sel| >= 2 && exists i :: 0 <= i < |sel| && trades[sel[i]].symbol != trades[sel[0]].symbol) ==>
      ValidationMessage(trades, sel) == Some(Mismatch("symbols", Keys(SelectedTrades(trades, sel), SymbolOf)))
    ensures (&& |sel| >= 2
             && (forall i :: 0 <= i < |sel| ==> trades[sel[i]].symbol == trades[sel[0]].symbol)
             && (exists i :: 0 <= i < |sel| && trades[sel[i]].direction != trades[sel[0]].direction)) ==>
      ValidationMessage(trades, sel) == Some(Mismatch("directions", Keys(SelectedTrades(trades, sel), DirectionOf)))
  {
    KeyCheckCases(SelectedTrades(trades, sel), SymbolOf, "symbols", DirectionOf, "directions");
    if |sel| >= 1 {
      AgreeOnFields(trades, sel);
    }
  }

  // ---------------------------------------------------------------------------
  // The merged trade

  /** `mergeTrades(trades)`: the shared merge rule, marked as merged and holding its inputs. */
  function MergeTrades(env: Env, trades: seq<Trade>): (m: Trade)
    requires |trades| >= 1
    ensures m.(merged := false, originals := None) == MergeGroup(env, trades)
    ensures m.merged && m.originals == Some(trades)
  {
    MergeGroup(env, trades).(merged := true, originals := Some(trades))
  }

  /** `[...selected].sort((a, b) => a - b)`. */
  function IndexKey(i: int): real {
    i as real
  }

  function SortedIndices(sel: seq<int>): (r: seq<int>)
    ensures |r| == |sel| && forall i :: 0 <= i < |r| ==> r[i] in sel
  {
    var r := SortBy(sel, IndexKey);
    assert forall i :: 0 <= i < |r| ==> r[i] in multiset(sel);
    r
  }

  // ---------------------------------------------------------------------------
  // handleMerge

  /** Whether a selected index lies below `i`. */
  predicate HasBelow(s: set<int>, i: int) {
    exists j :: j in s && 0 <= j < i
  }

  /**
   * The list the merge loop builds from the first `n` rows: unselected rows are
   * copied, the first selected row is replaced by the merged trade and the other
   * selected rows are dropped.
   */
  function Rebuilt(trades: seq<Trade>, s: set<int>, merged: Trade, n: nat): seq<Trade>
    requires n <= |trades|
  {
    if n == 0 then []
    else
      Rebuilt(trades, s, merged, n - 1)
        + (if n - 1 in s then (if HasBelow(s, n - 1) then [] else [merged]) else [trades[n - 1]])
  }

  /** `mergeTrades(indices.map((i) => trades[i]))`: the merge of the selected rows in index order. */
  function MergedTradeOf(env: Env, trades: seq<Trade>, sel: seq<int>): (m: Trade)
    requires ValidSelection(sel, |trades|) && |sel| >= 1
    ensures m.merged && m.originals == Some(SelectedTrades(trades, SortedIndices(sel)))
  {
    MergeTrades(env, SelectedTrades(trades, SortedIndices(sel)))
  }

  /** The list after `handleMerge`. */
  function MergedList(env: Env, trades: seq<Trade>, sel: seq<int>): seq<Trade>
    requires ValidSelection(sel, |trades|)
  {
    if !Mergeable(trades, sel) then trades
    else Rebuilt(trades, IndexSet(sel), MergedTradeOf(env, trades, sel), |trades|)
  }

  /** The merge error after `handleMerge`. */
  function MergeErrorOf(trades: seq<Trade>, sel: seq<int>): Option<string>
    requires ValidSelection(sel, |trades|)
  {
    if Mergeable(trades, sel) then None else Some(ValidationMessage(trades, sel).GetOr(DefaultMergeError))
  }

  /** `handleMerge`: refuse with a message, or rebuild the list around the merged trade. */
  method HandleMerge(env: Env, trades: seq<Trade>, selected: seq<int>) returns (newTrades: seq<Trade>, mergeError: Option<string>)
    requires ValidSelection(selected, |trades|)
    ensures newTrades == MergedList(env, trades, selected)
    ensures mergeError == MergeErrorOf(trades, selected)
    ensures !Mergeable(trades, selected) ==>
      newTrades == trades && mergeError == Some(ValidationMessage(trades, selected).GetOr(DefaultMergeError))
  {
    CanMergeIff(trades, selected);
    if !CanMerge(trades, selected) {
      mergeError := Some(ValidationMessage(trades, selected).GetOr(DefaultMergeError));
      newTrades := trades;
      return;
    }
    var indices := SortedIndices(selected);
    SortedIndicesFacts(selected, |trades|);
    var toMerge := SelectedTrades(trades, indices);
    var merged := MergeTrades(env, toMerge);
    newTrades := Splice(trades, IndexSet(indices), merged);
    mergeError := None;
  }

  /** The index loop of `handleMerge`, with its `inserted` flag. */
  method Splice(trades: seq<Trade>, indexSet: set<int>, merged: Trade) returns (newTrades: seq<Trade>)
    ensures newTrades == Rebuilt(trades, indexSet, merged, |trades|)
  {
    newTrades := [];
    var inserted := false;
    var i := 0;
    while i < |trades|
      invariant 0 <= i <= |trades|
      invariant newTrades == Rebuilt(trades, indexSet, merged, i)
      invariant inserted <==> HasBelow(indexSet, i)
    {
      ghost var step := if i in indexSet then (if HasBelow(indexSet, i) then [] else [merged]) else [trades[i]];
      assert Rebuilt(trades, indexSet, merged, i + 1) == Rebuilt(trades, indexSet, merged, i) + step;
      if i in indexSet {
        if !inserted {
          newTrades := newTrades + [merged];
          inserted := true;
        }
        assert HasBelow(indexSet, i + 1) by {
          assert i in indexSet && 0 <= i < i + 1;
        }
      } else {
        newTrades := newTrades + [trades[i]];
        assert HasBelow(indexSet, i + 1) <==> HasBelow(indexSet, i);
      }
      i := i + 1;
    }
  }

  // ---------------------------------------------------------------------------
  // handleUnmerge

  /** Whether `handleUnmerge` acts on a trade: `_merged` set and `_originalTrades` present (even empty). */
  predicate Unmergeable(t: Trade) {
    t.merged && t.originals.Some?
  }

  /** The list after `handleUnmerge(idx)`. */
  function Unmerged(trades: seq<Trade>, idx: nat): (r: seq<Trade>)
    requires idx < |trades|
    ensures !Unmergeable(trades[idx]) ==> r == trades
    ensures Unmergeable(trades[idx]) ==> |r| == |trades| - 1 + |trades[idx].originals.value|
  {
    if !Unmergeable(trades[idx]) then trades
    else trades[..idx] + trades[idx].originals.value + trades[idx + 1..]
  }

  /** `handleUnmerge(idx)`, with its index loop. */
  method HandleUnmerge(trades: seq<Trade>, idx: nat) returns (newTrades: seq<Trade>)
    requires idx < |trades|
    ensures newTrades == Unmerged(trades, idx)
  {
    var trade := trades[idx];
    if !(trade.merged && trade.originals.Some?) {
      return trades;
    }
    newTrades := [];
    var i := 0;
    while i < |trades|
      invariant 0 <= i <= |trades|
      invariant i <= idx ==> newTrades == trades[..i]
      invariant idx < i ==> newTrades == trades[..idx] + trade.originals.value + trades[idx + 1..i]
    {
      if i == idx {
        newTrades := newTrades + trade.originals.value;
      } else {
        newTrades := newTrades + [trades[i]];
      }
      i := i + 1;
    }
  }

  // ---------------------------------------------------------------------------
  // Layout of the merged list

  /** The rows of `[a, b)` that are not selected, in order. */
  function Kept(trades: seq<Trade>, s: set<int>, a: nat, b: nat): seq<Trade>
    requires a <= b <= |trades|
    decreases b - a
  {
    if a == b then [] else Kept(trades, s, a, b - 1) + (if b - 1 in s then [] else [trades[b - 1]])
  }

  /** The number of selected indices in `[a, b)`. */
  function Hits(s: set<int>, a: nat, b: nat): nat
    requires a <= b
    decreases b - a
  {
    if a == b then 0 else Hits(s, a, b - 1) + (if b - 1 in s then 1 else 0)
  }

  lemma {:induction false} KeptLength(trades: seq<Trade>, s: set<int>, a: nat, b: nat)
    requires a <= b <= |trades|
    ensures |Kept(trades, s, a, b)| + Hits(s, a, b) == b - a
    decreases b - a
  {
    if a < b {
      KeptLength(trades, s, a, b - 1);
    }
  }

  lemma {:induction false} KeptSplit(trades: seq<Trade>, s: set<int>, a: nat, c: nat, b: nat)
    requires a <= c <= b <= |trades|
    ensures Kept(trades, s, a, b) == Kept(trades, s, a, c) + Kept(trades, s, c, b)
    ensures Hits(s, a, b) == Hits(s, a, c) + Hits(s, c, b)
    decreases b - c
  {
    if c < b {
      KeptSplit(trades, s, a, c, b - 1);
    }
  }

  lemma {:induction false} KeptUnselected(trades: seq<Trade>, s: set<int>, a: nat, b: nat)
    requires a <= b <= |trades|
    requires forall j :: a <= j < b ==> j !in s
    ensures Kept(trades, s, a, b) == trades[a..b] && Hits(s, a, b) == 0
    decreases b - a
  {
    if a < b {
      KeptUnselected(trades, s, a, b - 1);
      assert trades[a..b] == trades[a..b - 1] + [trades[b - 1]];
    }
  }

  lemma {:induction false} KeptSelected(trades: seq<Trade>, s: set<int>, a: nat, b: nat)
    requires a <= b <= |trades|
    requires forall j :: a <= j < b ==> j in s
    ensures Kept(trades, s, a, b) == []
    decreases b - a
  {
    if a < b {
      KeptSelected(trades, s, a, b - 1);
    }
  }

  /** The selected indices below `b`, as a set. */
  function Below(s: set<int>, b: int): set<int> {
    set j | j in s && j < b
  }

  lemma {:induction false} HitsCount(s: set<int>, b: nat)
    requires forall j :: j in s ==> 0 <= j
    ensures Hits(s, 0, b) == |Below(s, b)|
    decreases b
  {
    if b > 0 {
      HitsCount(s, b - 1);
      if b - 1 in s {
        assert Below(s, b) == Below(s, b - 1) + {b - 1};
      } else {
        assert Below(s, b) == Below(s, b - 1);
      }
    } else {
      assert Below(s, 0) == {};
    }
  }

  lemma {:induction false} DistinctSize(sel: seq<int>)
    requires Distinct(sel)
    ensures |IndexSet(sel)| == |sel|
    decreases |sel|
  {
    if sel != [] {
      var init := sel[..|sel| - 1];
      DistinctSize(init);
      assert IndexSet(sel) == IndexSet(init) + {sel[|sel| - 1]};
      assert sel[|sel| - 1] !in IndexSet(init);
    }
  }

  /**
   * The loop's list in closed form, for the least selected index `lo`: the rows
   * before `lo`, then the merged trade, then the unselected rows after it.
   */
  lemma {:induction false} RebuiltLayout(trades: seq<Trade>, s: set<int>, merged: Trade, lo: nat, n: nat)
    requires n <= |trades|
    requires lo in s && forall j :: j in s ==> lo <= j
    ensures n <= lo ==> Rebuilt(trades, s, merged, n) == Kept(trades, s, 0, n)
    ensures lo < n ==> Rebuilt(trades, s, merged, n) == Kept(trades, s, 0, lo) + [merged] + Kept(trades, s, lo + 1, n)
    decreases n
  {
    if n > 0 {
      RebuiltLayout(trades, s, merged, lo, n - 1);
      if n - 1 == lo {
        assert !HasBelow(s, n - 1);
      } else if lo < n - 1 && n - 1 in s {
        assert HasBelow(s, n - 1) by {
          assert lo in s && 0 <= lo < n - 1;
        }
      }
    }
  }

  /** Multiset equality carries distinctness. */
  lemma DistinctPermutation(a: seq<int>, b: seq<int>)
    requires Distinct(a) && multiset(a) == multiset(b)
    ensures Distinct(b)
  {
    forall i, j | 0 <= i < j < |b| ensures b[i] != b[j] {
      if b[i] == b[j] {
        TwoCopies(b, i, j);
        DistinctCount(a, b[i]);
        assert false;
      }
    }
  }

  lemma TwoCopies(b: seq<int>, i: nat, j: nat)
    requires i < j < |b| && b[i] == b[j]
    ensures multiset(b)[b[i]] >= 2
  {
    assert b == b[..j] + [b[j]] + b[j + 1..];
    assert b[i] in b[..j];
  }

  lemma {:induction false} DistinctCount(a: seq<int>, x: int)
    requires Distinct(a)
    ensures multiset(a)[x] <= 1
    decreases |a|
  {
    if a != [] {
      var init := a[..|a| - 1];
      assert a == init + [a[|a| - 1]];
      DistinctCount(init, x);
      if a[|a| - 1] == x {
        assert x !in init;
      }
    }
  }

  /** The sorted indices are the selection, in increasing order. */
  lemma SortedIndicesFacts(sel: seq<int>, n: nat)
    requires ValidSelection(sel, n)
    ensures var idx := SortedIndices(sel);
      && ValidSelection(idx, n) && IndexSet(idx) == IndexSet(sel) && |idx| == |sel|
      && forall i, j :: 0 <= i < j < |idx| ==> idx[i] < idx[j]
  {
    var idx := SortedIndices(sel);
    SortBySorted(sel, IndexKey);
    DistinctPermutation(sel, idx);
    assert forall i :: 0 <= i < |idx| ==> idx[i] in multiset(sel);
    assert forall x :: x in sel <==> x in multiset(idx);
  }

  /** The first sorted index is the lowest selected index. */
  lemma LowestIndex(sel: seq<int>, n: nat)
    requires ValidSelection(sel, n) && |sel| >= 1
    ensures var idx := SortedIndices(sel);
      && ValidSelection(idx, n) && IndexSet(idx) == IndexSet(sel) && |IndexSet(sel)| == |sel|
      && idx[0] in sel && forall j :: j in sel ==> idx[0] <= j
  {
    var idx := SortedIndices(sel);
    SortedIndicesFacts(sel, n);
    DistinctSize(idx);
    assert idx[0] in IndexSet(idx);
    forall j | j in sel ensures idx[0] <= j {
      assert j in IndexSet(idx);
      var p :| 0 <= p < |idx| && idx[p] == j;
      if p > 0 {
        assert idx[0] < idx[p];
      }
    }
  }

  /**
   * The loop's list for a set of `k` selected rows of `n` whose lowest is `lo`, in
   * closed form: `n - k + 1` rows, namely the rows before `lo`, the given trade,
   * and the unselected rows after `lo` in their order.
   */
  lemma SpliceLayout(trades: seq<Trade>, s: set<int>, m: Trade, lo: nat)
    requires lo in s && forall j :: j in s ==> lo <= j < |trades|
    ensures var r := Rebuilt(trades, s, m, |trades|);
      && |r| == |trades| - |s| + 1
      && r == trades[..lo] + [m] + Kept(trades, s, lo + 1, |trades|)
  {
    var n := |trades|;
    RebuiltLayout(trades, s, m, lo, n);
    KeptUnselected(trades, s, 0, lo);
    KeptSplit(trades, s, 0, lo, n);
    KeptSplit(trades, s, lo, lo + 1, n);
    KeptLength(trades, s, lo + 1, n);
    HitsCount(s, n);
    assert Below(s, n) == s;
    assert Hits(s, lo, lo + 1) == 1;
  }

  /** The lowest selected index, where the merged trade lands. */
  function Lowest(sel: seq<int>): int
    requires |sel| >= 1
  {
    SortedIndices(sel)[0]
  }

  /**
   * `handleMerge` on a mergeable selection of `k` rows of `n`: the list has
   * `n - k + 1` rows, the rows before the lowest selected index `lo` are unchanged,
   * the merged trade (of the selected rows in index order) sits at `lo`, and the
   * unselected rows after it follow in their order.
   */
  lemma MergedListLayout(env: Env, trades: seq<Trade>, sel: seq<int>)
    requires ValidSelection(sel, |trades|)
    requires Mergeable(trades, sel)
    ensures Lowest(sel) in sel && forall j :: j in sel ==> Lowest(sel) <= j
    ensures var lo, r := Lowest(sel), MergedList(env, trades, sel);
      && |r| == |trades| - |sel| + 1
      && r == trades[..lo] + [MergedTradeOf(env, trades, sel)] + Kept(trades, IndexSet(sel), lo + 1, |trades|)
      && r[lo] == MergedTradeOf(env, trades, sel)
  {
    LowestIndex(sel, |trades|);
    SpliceLayout(trades, IndexSet(sel), MergedTradeOf(env, trades, sel), Lowest(sel));
  }

  // ---------------------------------------------------------------------------
  // Merge then unmerge

  /** A selection that is exactly the rows `lo .. lo + k - 1`. */
  predicate Contiguous(sel: seq<int>, lo: nat) {
    forall i :: 0 <= i < |sel| ==> lo <= sel[i] < lo + |sel|
  }

  /** Increasing indices inside a window of their own length are the window. */
  lemma {:induction false} IncreasingWindow(idx: seq<int>, lo: int)
    requires forall i, j :: 0 <= i < j < |idx| ==> idx[i] < idx[j]
    requires forall i :: 0 <= i < |idx| ==> lo <= idx[i] < lo + |idx|
    ensures forall i :: 0 <= i < |idx| ==> idx[i] == lo + i
  {
    forall i | 0 <= i < |idx| ensures idx[i] == lo + i {
      Gap(idx, 0, i);
      Gap(idx, i, |idx| - 1);
    }
  }

  lemma {:induction false} Gap(idx: seq<int>, i: nat, j: nat)
    requires forall a, b :: 0 <= a < b < |idx| ==> idx[a] < idx[b]
    requires i <= j < |idx|
    ensures idx[j] - idx[i] >= j - i
    decreases j - i
  {
    if i < j {
      Gap(idx, i, j - 1);
    }
  }

  /**
   * Merging a contiguous mergeable selection and then unmerging the merged row
   * gives back exactly the original list.
   */
  lemma MergeThenUnmerge(env: Env, trades: seq<Trade>, sel: seq<int>, lo: nat)
    requires ValidSelection(sel, |trades|)
    requires Contiguous(sel, lo)
    requires Mergeable(trades, sel)
    ensures lo < |MergedList(env, trades, sel)|
    ensures Unmerged(MergedList(env, trades, sel), lo) == trades
  {
    var k := |sel|;
    ContiguousIndices(sel, lo, |trades|);
    MergedListLayout(env, trades, sel);
    ContiguousPicked(trades, SortedIndices(sel), lo, k);
    BlockTail(trades, IndexSet(sel), lo, k);
    var m := MergedTradeOf(env, trades, sel);
    assert m.originals.value == trades[lo..lo + k];
    Reassemble(trades, lo, k, m);
  }

  /** A contiguous selection, sorted, is `lo, lo + 1, ..., lo + k - 1`. */
  lemma ContiguousIndices(sel: seq<int>, lo: nat, n: nat)
    requires ValidSelection(sel, n) && |sel| >= 1
    requires Contiguous(sel, lo)
    ensures lo + |sel| <= n
    ensures forall i :: 0 <= i < |sel| ==> SortedIndices(sel)[i] == lo + i
    ensures forall j :: lo <= j < lo + |sel| ==> j in IndexSet(sel)
    ensures forall j :: j in IndexSet(sel) ==> lo <= j < lo + |sel|
    ensures Lowest(sel) == lo
  {
    var k := |sel|;
    var idx := SortedIndices(sel);
    SortedIndicesFacts(sel, n);
    assert forall i :: 0 <= i < k ==> idx[i] in IndexSet(sel);
    IncreasingWindow(idx, lo);
    assert idx[k - 1] == lo + k - 1;
    forall j | lo <= j < lo + k ensures j in IndexSet(sel) {
      assert idx[j - lo] == j;
      assert idx[j - lo] in IndexSet(idx);
    }
  }

  /** The rows at consecutive indices are a slice. */
  lemma ContiguousPicked(trades: seq<Trade>, idx: seq<int>, lo: nat, k: nat)
    requires |idx| == k && lo + k <= |trades|
    requires forall i :: 0 <= i < k ==> idx[i] == lo + i
    ensures SelectedTrades(trades, idx) == trades[lo..lo + k]
  {
  }

  /** With exactly `[lo, lo + k)` selected, the unselected rows after `lo` are the rows from `lo + k`. */
  lemma BlockTail(trades: seq<Trade>, s: set<int>, lo: nat, k: nat)
    requires 1 <= k && lo + k <= |trades|
    requires forall j :: lo <= j < lo + k ==> j in s
    requires forall j :: j in s ==> lo <= j < lo + k
    ensures Kept(trades, s, lo + 1, |trades|) == trades[lo + k..]
  {
    var n := |trades|;
    KeptSplit(trades, s, lo + 1, lo + k, n);
    KeptSelected(trades, s, lo + 1, lo + k);
    KeptUnselected(trades, s, lo + k, n);
  }

  /** Putting a block back where one element replaced it restores the sequence. */
  lemma Reassemble<T>(s: seq<T>, lo: nat, k: nat, mid: T)
    requires lo + k <= |s|
    ensures var r := s[..lo] + [mid] + s[lo + k..];
      && lo < |r| && r[lo] == mid
      && r[..lo] + s[lo..lo + k] + r[lo + 1..] == s
  {
    var r := s[..lo] + [mid] + s[lo + k..];
    assert r[..lo] == s[..lo];
    assert r[lo + 1..] == s[lo + k..];
    assert s == s[..lo] + s[lo..lo + k] + s[lo + k..];
  }

  /**
   * Without contiguity the round trip reorders: merging rows 0 and 2 of
   * `[a, b, c]` and unmerging the merged row gives `[a, c, b]`, which is not the
   * original list unless `b` and `c` are the same trade.
   */
  lemma GappedSelectionReorders(env: Env, a: Trade, b: Trade, c: Trade)
    requires a.symbol == c.symbol && a.direction == c.direction
    requires b != c
    ensures var merged := MergedList(env, [a, b, c], [0, 2]);
      && |merged| == 2
      && Unmerged(merged, 0) == [a, c, b]
      && Unmerged(merged, 0) != [a, b, c]
  {
    var trades := [a, b, c];
    var sel := [0, 2];
    GappedIndices();
    assert Mergeable(trades, sel);
    var m := MergedTradeOf(env, trades, sel);
    GappedSplice(a, b, c, m);
    assert MergedList(env, trades, sel) == Rebuilt(trades, {0, 2}, m, 3);
  }

  lemma GappedIndices()
    ensures SortedIndices([0, 2]) == [0, 2] && IndexSet([0, 2]) == {0, 2}
  {
    assert [0, 2][..1] == [0];
    assert [0][..0] == [];
    assert SortBy([0], IndexKey) == [0];
    assert forall x :: x in IndexSet([0, 2]) <==> x == 0 || x == 2;
  }

  /** The merge loop on rows `[a, b, c]` with rows 0 and 2 selected, and its undoing. */
  lemma GappedSplice(a: Trade, b: Trade, c: Trade, m: Trade)
    requires m.merged && m.originals == Some(SelectedTrades([a, b, c], [0, 2]))
    ensures Rebuilt([a, b, c], {0, 2}, m, 3) == [m, b]
    ensures Unmerged([m, b], 0) == [a, c, b]
    ensures b != c ==> [a, c, b] != [a, b, c]
  {
    var trades, s := [a, b, c], {0, 2};
    assert SelectedTrades(trades, [0, 2]) == [a, c];
    assert !HasBelow(s, 0);
    assert HasBelow(s, 2) by {
      assert 0 in s && 0 <= 0 < 2;
    }
    assert Rebuilt(trades, s, m, 1) == [m];
    assert Rebuilt(trades, s, m, 2) == [m, b];
    assert [m, b][1..] == [b];
    if b != c {
      assert [a, c, b][1] != [a, b, c][1];
    }
  }

  // ---------------------------------------------------------------------------
  // handleImport

  /** `{ _tradeDay, _account, _merged, _originalTrades, ...rest }` then `{ ...rest, accountId }`. */
  function CleanForImport(t: Trade, accountId: string): (c: Trade)
    ensures NoBookkeeping(c) && c.accountId == Some(accountId)
  {
    t.(tradeDay := None, account := None, merged := false, originals := None, accountId := Some(accountId))
  }

  /** `handleImport`: nothing for an empty list, otherwise every trade cleaned. */
  function HandleImport(trades: seq<Trade>, accountId: string): (r: Option<seq<Trade>>)
    ensures r.None? <==> trades == []
  {
    if trades == [] then None
    else Some(seq(|trades|, i requires 0 <= i < |trades| => CleanForImport(trades[i], accountId)))
  }

  /**
   * The import keeps every trade, in order, removes all four bookkeeping keys, sets
   * the chosen account, leaves every other field alone, and cleaning twice is
   * cleaning once.
   */
  lemma HandleImportFacts(trades: seq<Trade>, accountId: string)
    requires trades != []
    ensures var r := HandleImport(trades, accountId).value;
      && |r| == |trades|
      && (forall i :: 0 <= i < |r| ==> NoBookkeeping(r[i]) && r[i].accountId == Some(accountId))
      && (forall i :: 0 <= i < |r| ==>
            r[i].(accountId := trades[i].accountId) == trades[i].(tradeDay := None, account := None, merged := false, originals := None))
      && HandleImport(r, accountId) == Some(r)
  {
    var r := HandleImport(trades, accountId).value;
    forall i | 0 <= i < |r| ensures CleanForImport(r[i], accountId) == r[i] {
    }
    assert HandleImport(r, accountId).value == r;
  }
}

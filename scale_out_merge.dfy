/**
 * `mergeScaleOuts(trades)` of `src/lib/merge-scale-outs.js`: the trades of one
 * symbol, direction and trading day are one scaled-out position and become one
 * trade; a trade alone in its group passes through without its parse hints.
 */
module ScaleOutMerge {
  import opened Js
  import opened Grouping
  import opened TradeModel
  import opened TradeMerge

  /** `trade._tradeDay || trade.entryDate?.split('T')[0] || 'unknown'`. */
  function Day(t: Trade): string {
    Or(t.tradeDay.GetOr(""), Or(DatePart(t.entryDate), "unknown"))
  }

  /** `${a}|${b}|${c}`. */
  function KeyText(a: string, b: string, c: string): string {
    a + "|" + b + "|" + c
  }

  /** The group key `${symbol}|${direction}|${day}`. */
  function GroupKey(t: Trade): string {
    KeyText(t.symbol, DirectionName(t.direction), Day(t))
  }

  /** The copy of a lone trade with `_tradeDay` and `_account` deleted. */
  function StripHints(t: Trade): Trade {
    t.(tradeDay := None, account := None)
  }

  /** What one group contributes to the output. */
  function GroupResult(env: Env, group: seq<Trade>): Trade
    requires |group| >= 1
  {
    if |group| == 1 then StripHints(group[0]) else MergeGroup(env, group)
  }

  /** Whether a group adds one to `scaleOutCount`. */
  predicate CountsAsScaleOut(group: seq<Trade>) {
    |group| > 1 || (|group| == 1 && |group[0].takeProfits| > 1)
  }

  // The grouping steps below take the key as a parameter; `MergeScaleOuts` and
  // the properties stated for it use `GroupKey`.

  /** The output for the groups of `ks`, in the order of `ks`. */
  function MergedOf(env: Env, trades: seq<Trade>, key: Trade -> string, ks: seq<string>): (r: seq<Trade>)
    requires forall i :: 0 <= i < |ks| ==> ks[i] in Keys(trades, key)
    ensures |r| == |ks|
  {
    seq(|ks|, i requires 0 <= i < |ks| =>
      MembersNonEmpty(trades, key, ks[i]);
      GroupResult(env, Members(trades, key, ks[i])))
  }

  /** The number of groups of `ks` that count as scale-outs. */
  function CountOf(trades: seq<Trade>, key: Trade -> string, ks: seq<string>): nat {
    if ks == [] then 0
    else
      CountOf(trades, key, ks[..|ks| - 1])
        + (if CountsAsScaleOut(Members(trades, key, ks[|ks| - 1])) then 1 else 0)
  }

  /**
   * The source's two loops, for a given key: group in first-appearance order,
   * then emit one trade per group and count the scale-outs.
   */
  method MergeGroups(env: Env, trades: seq<Trade>, key: Trade -> string) returns (merged: seq<Trade>, scaleOutCount: nat)
    ensures merged == MergedOf(env, trades, key, Keys(trades, key))
    ensures scaleOutCount == CountOf(trades, key, Keys(trades, key))
  {
    var keys, groups := GroupBy(trades, key);
    merged := [];
    scaleOutCount := 0;
    var i := 0;
    while i < |keys|
      invariant 0 <= i <= |keys|
      invariant merged == MergedOf(env, trades, key, keys[..i])
      invariant scaleOutCount == CountOf(trades, key, keys[..i])
    {
      merged, scaleOutCount := EmitNext(env, trades, key, keys, groups, i, merged, scaleOutCount);
      i := i + 1;
    }
    assert keys[..|keys|] == keys;
  }

  /** One pass of the second loop: the output of the group of `keys[i]` is appended and counted. */
  method EmitNext(env: Env, trades: seq<Trade>, key: Trade -> string, keys: seq<string>, groups: map<string, seq<Trade>>,
                  i: nat, merged: seq<Trade>, scaleOutCount: nat)
    returns (merged': seq<Trade>, scaleOutCount': nat)
    requires keys == Keys(trades, key) && i < |keys|
    requires forall k :: k in groups <==> k in keys
    requires forall k :: k in groups ==> groups[k] == Members(trades, key, k)
    requires merged == MergedOf(env, trades, key, keys[..i])
    requires scaleOutCount == CountOf(trades, key, keys[..i])
    ensures merged' == MergedOf(env, trades, key, keys[..i + 1])
    ensures scaleOutCount' == CountOf(trades, key, keys[..i + 1])
  {
    var group := groups[keys[i]];
    OutputStep(env, trades, key, keys, i);
    var t, counts := EmitGroup(env, group);
    merged' := merged + [t];
    scaleOutCount' := if counts then scaleOutCount + 1 else scaleOutCount;
  }

  /**
   * The body of the second loop for one group: a single trade passes through
   * without its hints (a scale-out when it already has several take-profit legs),
   * a larger group is merged and always counts.
   */
  method EmitGroup(env: Env, group: seq<Trade>) returns (t: Trade, counts: bool)
    requires |group| >= 1
    ensures t == GroupResult(env, group)
    ensures counts == CountsAsScaleOut(group)
  {
    if |group| == 1 {
      t := StripHints(group[0]);
      counts := |t.takeProfits| > 1;
    } else {
      counts := true;
      t := MergeGroup(env, group);
    }
  }

  /** `mergeScaleOuts(trades)`: `{ trades: merged, scaleOutCount }`. */
  method MergeScaleOuts(env: Env, trades: seq<Trade>) returns (merged: seq<Trade>, scaleOutCount: nat)
    ensures merged == MergedOf(env, trades, GroupKey, Keys(trades, GroupKey))
    ensures scaleOutCount == CountOf(trades, GroupKey, Keys(trades, GroupKey))
  {
    merged, scaleOutCount := MergeGroups(env, trades, GroupKey);
  }

  // ---------------------------------------------------------------------------
  // Properties

  /** One more key of the list: its group's output is appended and the count grows by its share. */
  lemma OutputStep(env: Env, trades: seq<Trade>, key: Trade -> string, ks: seq<string>, i: nat)
    requires forall j :: 0 <= j < |ks| ==> ks[j] in Keys(trades, key)
    requires i < |ks|
    ensures |Members(trades, key, ks[i])| >= 1
    ensures MergedOf(env, trades, key, ks[..i + 1]) ==
      MergedOf(env, trades, key, ks[..i]) + [GroupResult(env, Members(trades, key, ks[i]))]
    ensures CountOf(trades, key, ks[..i + 1]) ==
      CountOf(trades, key, ks[..i]) + (if CountsAsScaleOut(Members(trades, key, ks[i])) then 1 else 0)
  {
    MembersNonEmpty(trades, key, ks[i]);
    PrefixSnoc(ks, i);
    var l := MergedOf(env, trades, key, ks[..i + 1]);
    var r := MergedOf(env, trades, key, ks[..i]) + [GroupResult(env, Members(trades, key, ks[i]))];
    forall j | 0 <= j < |l| ensures l[j] == r[j] {
      if j < i {
        assert ks[..i + 1][j] == ks[..i][j];
      }
    }
  }

  /** Each key names a group with at least one member. */
  lemma KeysHaveMembers(trades: seq<Trade>, key: Trade -> string, ks: seq<string>)
    requires forall i :: 0 <= i < |ks| ==> ks[i] in Keys(trades, key)
    ensures forall i :: 0 <= i < |ks| ==> |Members(trades, key, ks[i])| >= 1
  {
    forall i | 0 <= i < |ks| ensures |Members(trades, key, ks[i])| >= 1 {
      MembersNonEmpty(trades, key, ks[i]);
    }
  }

  lemma GroupedCount(env: Env, trades: seq<Trade>, key: Trade -> string)
    ensures var ks := Keys(trades, key);
      var r := MergedOf(env, trades, key, ks);
      |r| == |ks| <= |trades| && (trades == [] <==> r == [])
  {
    if trades != [] {
      assert key(trades[0]) in Keys(trades, key);
    }
  }

  lemma GroupedNoHints(env: Env, trades: seq<Trade>, key: Trade -> string)
    ensures var ks := Keys(trades, key);
      var r := MergedOf(env, trades, key, ks);
      forall i :: 0 <= i < |r| ==> r[i].tradeDay.None? && r[i].account.None?
  {
    var ks := Keys(trades, key);
    KeysHaveMembers(trades, key, ks);
    forall i | 0 <= i < |ks|
      ensures MergedOf(env, trades, key, ks)[i].tradeDay.None? && MergedOf(env, trades, key, ks)[i].account.None?
    {
      var g := Members(trades, key, ks[i]);
      if |g| > 1 {
        MergeGroupFacts(env, g);
      }
    }
  }

  /**
   * One output trade per group, in first-appearance order of the groups, so never
   * more trades than came in and none for no input; a lone trade passes through
   * with only its hints removed, and no output trade keeps a hint.
   */
  lemma MergeScaleOutsShape(env: Env, trades: seq<Trade>)
    ensures var ks := Keys(trades, GroupKey);
      var r := MergedOf(env, trades, GroupKey, ks);
      && |r| == |ks| <= |trades|
      && (trades == [] <==> r == [])
      && (forall i :: 0 <= i < |r| ==>
            |Members(trades, GroupKey, ks[i])| >= 1 && r[i] == GroupResult(env, Members(trades, GroupKey, ks[i])))
      && (forall i :: 0 <= i < |r| ==> |Members(trades, GroupKey, ks[i])| == 1 ==>
            r[i] == Members(trades, GroupKey, ks[i])[0].(tradeDay := None, account := None))
      && (forall i :: 0 <= i < |r| ==> r[i].tradeDay.None? && r[i].account.None?)
  {
    var ks := Keys(trades, GroupKey);
    KeysHaveMembers(trades, GroupKey, ks);
    GroupedCount(env, trades, GroupKey);
    GroupedNoHints(env, trades, GroupKey);
  }

  lemma {:induction false} MergedSize(env: Env, trades: seq<Trade>, key: Trade -> string, ks: seq<string>)
    requires forall i :: 0 <= i < |ks| ==> ks[i] in Keys(trades, key)
    ensures SumInt(MergedOf(env, trades, key, ks), Size) == GroupTotal(trades, key, ks, Size)
    decreases |ks|
  {
    if ks != [] {
      var init := ks[..|ks| - 1];
      var g := Members(trades, key, ks[|ks| - 1]);
      MembersNonEmpty(trades, key, ks[|ks| - 1]);
      MergedSize(env, trades, key, init);
      var r := MergedOf(env, trades, key, ks);
      assert r[..|r| - 1] == MergedOf(env, trades, key, init);
      if |g| == 1 {
        assert g == [g[0]];
        assert g[..0] == [];
        assert SumInt(g, Size) == g[0].positionSize;
      } else {
        MergeGroupFacts(env, g);
      }
    }
  }

  /** No contract is lost or invented: the sizes of the output add up to the sizes of the input. */
  lemma SizeConserved(env: Env, trades: seq<Trade>)
    ensures var merged := MergedOf(env, trades, GroupKey, Keys(trades, GroupKey));
      SumInt(merged, Size) == SumInt(trades, Size)
  {
    MergedSize(env, trades, GroupKey, Keys(trades, GroupKey));
    GroupTotalIsSum(trades, GroupKey, Size);
  }

  lemma {:induction false} CountBounds(trades: seq<Trade>, key: Trade -> string, ks: seq<string>)
    ensures CountOf(trades, key, ks) <= |ks|
    ensures CountOf(trades, key, ks) == 0 <==>
      forall i :: 0 <= i < |ks| ==> !CountsAsScaleOut(Members(trades, key, ks[i]))
    decreases |ks|
  {
    if ks != [] {
      var init := ks[..|ks| - 1];
      CountBounds(trades, key, init);
      assert forall i :: 0 <= i < |init| ==> init[i] == ks[i];
    }
  }

  /**
   * The count is at most the number of output trades, and it is zero exactly when
   * every group is a lone trade with at most one take-profit.
   */
  lemma ScaleOutCountBounds(trades: seq<Trade>)
    ensures var ks := Keys(trades, GroupKey);
      && CountOf(trades, GroupKey, ks) <= |ks|
      && (CountOf(trades, GroupKey, ks) == 0 <==>
            forall i :: 0 <= i < |ks| ==> !CountsAsScaleOut(Members(trades, GroupKey, ks[i])))
  {
    CountBounds(trades, GroupKey, Keys(trades, GroupKey));
  }

  /** Every member of a group is one of the input trades. */
  lemma {:induction false} MembersIn(trades: seq<Trade>, key: Trade -> string, k: string)
    ensures forall t :: t in Members(trades, key, k) ==> t in trades
    decreases |trades|
  {
    if trades != [] {
      MembersIn(trades[..|trades| - 1], key, k);
    }
  }

  /** Where the first two `|` of a key stand. */
  lemma KeyTextParts(a: string, b: string, c: string)
    ensures var l := KeyText(a, b, c);
      && |l| == |a| + |b| + |c| + 2
      && l[..|a|] == a && l[|a|] == '|'
      && l[|a| + 1..|a| + 1 + |b|] == b && l[|a| + 1 + |b|] == '|'
      && l[|a| + |b| + 2..] == c
  {
    var l := KeyText(a, b, c);
    assert l == a + ("|" + (b + ("|" + c)));
  }

  /** Two `|`-free prefixes each followed by a `|` in the same text are the same prefix. */
  lemma SameFirstBar(l: string, lo: nat, a: string, b: string)
    requires '|' !in a && '|' !in b
    requires lo + |a| < |l| && lo + |b| < |l|
    requires l[lo..lo + |a|] == a && l[lo..lo + |b|] == b
    requires l[lo + |a|] == '|' && l[lo + |b|] == '|'
    ensures a == b
  {
    assert |a| == |b|;
  }

  /** With `|`-free symbols, equal group keys mean equal symbols and equal directions. */
  lemma KeyDetermines(s: Trade, t: Trade)
    requires '|' !in s.symbol && '|' !in t.symbol
    requires GroupKey(s) == GroupKey(t)
    ensures s.symbol == t.symbol && s.direction == t.direction
  {
    var ds, dt := DirectionName(s.direction), DirectionName(t.direction);
    var l := GroupKey(s);
    KeyTextParts(s.symbol, ds, Day(s));
    KeyTextParts(t.symbol, dt, Day(t));
    SameFirstBar(l, 0, s.symbol, t.symbol);
    DirectionNamePlain(s.direction);
    DirectionNamePlain(t.direction);
    SameFirstBar(l, |s.symbol| + 1, ds, dt);
  }

  /** The direction names hold no `|` and tell the directions apart by length. */
  lemma DirectionNamePlain(d: Direction)
    ensures '|' !in DirectionName(d)
    ensures |DirectionName(d)| == if d.Long? then 4 else 5
  {
  }

  /**
   * As long as no symbol contains `|`, every output trade has the symbol and the
   * direction of each trade of its group: a merge never mixes instruments or sides.
   */
  lemma GroupsAreHomogeneous(env: Env, trades: seq<Trade>)
    requires forall i :: 0 <= i < |trades| ==> '|' !in trades[i].symbol
    ensures var ks := Keys(trades, GroupKey);
      var r := MergedOf(env, trades, GroupKey, ks);
      forall i, t :: 0 <= i < |r| && t in Members(trades, GroupKey, ks[i]) ==>
        r[i].symbol == t.symbol && r[i].direction == t.direction
  {
    var ks := Keys(trades, GroupKey);
    var r := MergedOf(env, trades, GroupKey, ks);
    KeysHaveMembers(trades, GroupKey, ks);
    forall i, t | 0 <= i < |r| && t in Members(trades, GroupKey, ks[i])
      ensures r[i].symbol == t.symbol && r[i].direction == t.direction
    {
      var g := Members(trades, GroupKey, ks[i]);
      MembersIn(trades, GroupKey, ks[i]);
      var lead := LeadOf(env, g);
      assert GroupKey(lead) == ks[i] == GroupKey(t);
      KeyDetermines(lead, t);
    }
  }

  /** The member whose symbol and direction a group's output copies. */
  function LeadOf(env: Env, g: seq<Trade>): (lead: Trade)
    requires |g| >= 1
    ensures lead in g
    ensures GroupResult(env, g).symbol == lead.symbol && GroupResult(env, g).direction == lead.direction
  {
    if |g| == 1 then g[0]
    else
      MergeGroupFacts(env, g);
      var lead := ByEntry(env, g)[0];
      assert lead in multiset(g);
      lead
  }
}

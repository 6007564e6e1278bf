/**
 * Grouping and ordering shared by the parsers and the merge steps.
 *
 * The source groups records in a plain JavaScript object (`byContract`,
 * `groups`, the symbol map). Its keys are never integer-like strings, so the
 * object iterates in insertion order: that is an association list, modelled
 * here by Keys (the distinct keys in first-appearance order) and Members (the
 * records of one key, in input order). `Array.prototype.sort` is stable; SortBy
 * is a stable insertion sort on a numeric key.
 */
module Grouping {

  // ---------------------------------------------------------------------------
  // Insertion-ordered grouping

  /** The distinct keys of `s`, in the order in which each first appears. */
  function Keys<T>(s: seq<T>, key: T -> string): (r: seq<string>)
    ensures |r| <= |s|
    ensures forall i, j :: 0 <= i < j < |r| ==> r[i] != r[j]
    ensures forall i :: 0 <= i < |s| ==> key(s[i]) in r
    ensures forall k :: k in r ==> exists i :: 0 <= i < |s| && key(s[i]) == k
  {
    if s == [] then []
    else
      var p := Keys(s[..|s| - 1], key);
      var k := key(s[|s| - 1]);
      assert forall i :: 0 <= i < |s| - 1 ==> s[..|s| - 1][i] == s[i];
      if k in p then p else p + [k]
  }

  /** The elements of `s` whose key is `k`, in input order. */
  function Members<T>(s: seq<T>, key: T -> string, k: string): (r: seq<T>)
    ensures |r| <= |s|
    ensures forall i :: 0 <= i < |r| ==> key(r[i]) == k
  {
    if s == [] then []
    else Members(s[..|s| - 1], key, k) + (if key(s[|s| - 1]) == k then [s[|s| - 1]] else [])
  }

  /** Extending a prefix by one element; the step of every left-to-right loop over a sequence. */
  lemma PrefixSnoc<T>(s: seq<T>, i: nat)
    requires i < |s|
    ensures s[..i + 1] == s[..i] + [s[i]]
    ensures s[..i + 1][..i] == s[..i]
  {
    assert s[..i + 1] == s[..i] + [s[i]];
  }

  /** One more element: its key is added to the keys if new, and the element to its own group only. */
  lemma GroupSnoc<T>(s: seq<T>, key: T -> string, x: T)
    ensures key(x) in Keys(s, key) ==> Keys(s + [x], key) == Keys(s, key)
    ensures key(x) !in Keys(s, key) ==> Keys(s + [x], key) == Keys(s, key) + [key(x)]
    ensures Members(s + [x], key, key(x)) == Members(s, key, key(x)) + [x]
    ensures forall k :: k != key(x) ==> Members(s + [x], key, k) == Members(s, key, k)
  {
    assert (s + [x])[..|s|] == s;
    forall k | k != key(x) ensures Members(s + [x], key, k) == Members(s, key, k) {
      assert Members(s, key, k) + [] == Members(s, key, k);
    }
  }

  /** A key has members exactly when it is one of the keys. */
  lemma {:induction false} MembersNonEmpty<T>(s: seq<T>, key: T -> string, k: string)
    ensures |Members(s, key, k)| > 0 <==> k in Keys(s, key)
    decreases |s|
  {
    if s != [] {
      MembersNonEmpty(s[..|s| - 1], key, k);
    }
  }

  /**
   * The imperative grouping loop of the source (`for (...) { if (!g[k]) g[k] = []; g[k].push(x) }`):
   * the keys in first-appearance order and, for each key, its members in input order.
   */
  method GroupBy<T>(s: seq<T>, key: T -> string) returns (keys: seq<string>, groups: map<string, seq<T>>)
    ensures keys == Keys(s, key)
    ensures forall k :: k in groups <==> k in keys
    ensures forall k :: k in groups ==> groups[k] == Members(s, key, k)
  {
    keys := [];
    groups := map[];
    var i := 0;
    while i < |s|
      invariant 0 <= i <= |s|
      invariant Grouped(s[..i], key, keys, groups)
    {
      var k := key(s[i]);
      PrefixSnoc(s, i);
      GroupedSnoc(s[..i], key, keys, groups, s[i]);
      var members: seq<T> := [];
      if k in groups {
        members := groups[k];
      } else {
        keys := keys + [k];
      }
      groups := groups[k := members + [s[i]]];
      i := i + 1;
    }
    assert s[..i] == s;
  }

  /** The keys seen so far in first-appearance order, and for each its members so far. */
  ghost predicate Grouped<T>(s: seq<T>, key: T -> string, keys: seq<string>, groups: map<string, seq<T>>) {
    && keys == Keys(s, key)
    && (forall k :: k in groups <==> k in keys)
    && (forall k :: k in groups ==> groups[k] == Members(s, key, k))
  }

  /** The loop body: `if (!g[k]) g[k] = []; g[k].push(x)`. */
  lemma GroupedSnoc<T>(s: seq<T>, key: T -> string, keys: seq<string>, groups: map<string, seq<T>>, x: T)
    requires Grouped(s, key, keys, groups)
    ensures var k := key(x);
      Grouped(s + [x], key, if k in groups then keys else keys + [k],
        groups[k := (if k in groups then groups[k] else []) + [x]])
  {
    var k := key(x);
    GroupSnoc(s, key, x);
    var members: seq<T> := if k in groups then groups[k] else [];
    var keys' := if k in groups then keys else keys + [k];
    if k !in groups {
      MembersNonEmpty(s, key, k);
    }
    assert members == Members(s, key, k);
    assert keys' == Keys(s + [x], key);
    var groups' := groups[k := members + [x]];
    assert forall j :: j in groups' <==> j in keys';
    forall j | j in groups' ensures groups'[j] == Members(s + [x], key, j) {
      if j != k {
        GroupUnchanged(s, key, groups, x, j);
      }
    }
  }

  lemma GroupUnchanged<T>(s: seq<T>, key: T -> string, groups: map<string, seq<T>>, x: T, j: string)
    requires j in groups && j != key(x) && groups[j] == Members(s, key, j)
    ensures groups[j] == Members(s + [x], key, j)
  {
    GroupSnoc(s, key, x);
  }

  /** The keys form a single class exactly when all elements share one key. */
  lemma {:induction false} SingleKey<T>(s: seq<T>, key: T -> string)
    ensures |Keys(s, key)| == 1 <==> (|s| > 0 && forall i :: 0 <= i < |s| ==> key(s[i]) == key(s[0]))
    decreases |s|
  {
    if s != [] {
      var init := s[..|s| - 1];
      SingleKey(init, key);
      if |Keys(s, key)| == 1 {
        var k := Keys(s, key)[0];
        forall i | 0 <= i < |s| ensures key(s[i]) == key(s[0]) {
          assert key(s[i]) in Keys(s, key);
          assert key(s[0]) in Keys(s, key);
        }
      }
      if forall i :: 0 <= i < |s| ==> key(s[i]) == key(s[0]) {
        if init != [] {
          assert forall i :: 0 <= i < |init| ==> key(init[i]) == key(init[0]) by {
            forall i | 0 <= i < |init| ensures key(init[i]) == key(init[0]) {
              assert init[i] == s[i];
              assert init[0] == s[0];
            }
          }
          assert key(s[|s| - 1]) == key(init[0]);
          assert key(init[0]) in Keys(init, key);
        }
      }
    }
  }

  // ---------------------------------------------------------------------------
  // Stable sort

  predicate SortedBy<T>(s: seq<T>, key: T -> real) {
    forall i, j :: 0 <= i < j < |s| ==> key(s[i]) <= key(s[j])
  }

  /** Places `x` after every element whose key is at most its own. */
  function Insert<T>(t: seq<T>, x: T, key: T -> real): (r: seq<T>)
    ensures |r| == |t| + 1
    ensures multiset(r) == multiset(t) + multiset{x}
  {
    if t == [] then [x]
    else if key(x) < key(t[0]) then [x] + t
    else
      assert t == [t[0]] + t[1..];
      [t[0]] + Insert(t[1..], x, key)
  }

  /** `[...s].sort((a, b) => key(a) - key(b))`: stable, so equal keys keep their input order. */
  function SortBy<T>(s: seq<T>, key: T -> real): (r: seq<T>)
    ensures |r| == |s|
    ensures multiset(r) == multiset(s)
  {
    if s == [] then []
    else
      assert s == s[..|s| - 1] + [s[|s| - 1]];
      Insert(SortBy(s[..|s| - 1], key), s[|s| - 1], key)
  }

  lemma {:induction false} InsertAbove<T>(t: seq<T>, x: T, key: T -> real, lo: real)
    requires lo <= key(x)
    requires forall i :: 0 <= i < |t| ==> lo <= key(t[i])
    ensures forall i :: 0 <= i < |Insert(t, x, key)| ==> lo <= key(Insert(t, x, key)[i])
    decreases |t|
  {
    if t != [] && key(t[0]) <= key(x) {
      InsertAbove(t[1..], x, key, lo);
    }
  }

  lemma {:induction false} InsertSorted<T>(t: seq<T>, x: T, key: T -> real)
    requires SortedBy(t, key)
    ensures SortedBy(Insert(t, x, key), key)
    decreases |t|
  {
    if t != [] && key(t[0]) <= key(x) {
      InsertSorted(t[1..], x, key);
      InsertAbove(t[1..], x, key, key(t[0]));
    }
  }

  /** The result of SortBy is ordered by the key. */
  lemma {:induction false} SortBySorted<T>(s: seq<T>, key: T -> real)
    ensures SortedBy(SortBy(s, key), key)
    decreases |s|
  {
    if s != [] {
      SortBySorted(s[..|s| - 1], key);
      InsertSorted(SortBy(s[..|s| - 1], key), s[|s| - 1], key);
    }
  }

  /** The elements with key `k`, in order. */
  function WithKey<T>(s: seq<T>, key: T -> real, k: real): seq<T> {
    if s == [] then [] else WithKey(s[..|s| - 1], key, k) + (if key(s[|s| - 1]) == k then [s[|s| - 1]] else [])
  }

  lemma {:induction false} WithKeyAppend<T>(a: seq<T>, b: seq<T>, key: T -> real, k: real)
    ensures WithKey(a + b, key, k) == WithKey(a, key, k) + WithKey(b, key, k)
    decreases |b|
  {
    if b == [] {
      assert a + b == a;
    } else {
      assert (a + b)[..|a + b| - 1] == a + b[..|b| - 1];
      WithKeyAppend(a, b[..|b| - 1], key, k);
    }
  }

  lemma {:induction false} WithKeyAbove<T>(t: seq<T>, key: T -> real, k: real)
    requires forall i :: 0 <= i < |t| ==> k < key(t[i])
    ensures WithKey(t, key, k) == []
    decreases |t|
  {
    if t != [] {
      WithKeyAbove(t[..|t| - 1], key, k);
    }
  }

  lemma {:induction false} WithKeyInsert<T>(t: seq<T>, x: T, key: T -> real, k: real)
    requires SortedBy(t, key)
    ensures WithKey(Insert(t, x, key), key, k) == WithKey(t, key, k) + WithKey([x], key, k)
    decreases |t|
  {
    assert [x][..0] == [];
    var wx := WithKey([x], key, k);
    if t == [] {
      assert [] + wx == wx;
    } else if key(x) < key(t[0]) {
      InsertFront(t, x, key, k);
    } else {
      var t0, rest := [t[0]], t[1..];
      assert t == t0 + rest;
      SortedTail(t, key);
      WithKeyInsert(rest, x, key, k);
      WithKeyAppend(t0, Insert(rest, x, key), key, k);
      WithKeyAppend(t0, rest, key, k);
      var w0, wr := WithKey(t0, key, k), WithKey(rest, key, k);
      assert w0 + (wr + wx) == (w0 + wr) + wx;
    }
  }

  lemma InsertFront<T>(t: seq<T>, x: T, key: T -> real, k: real)
    requires t != [] && SortedBy(t, key) && key(x) < key(t[0])
    ensures WithKey([x] + t, key, k) == WithKey(t, key, k) + WithKey([x], key, k)
  {
    assert [x][..0] == [];
    var wx := WithKey([x], key, k);
    WithKeyAppend([x], t, key, k);
    SortedTail(t, key);
    if key(x) == k {
      WithKeyAbove(t, key, k);
      assert wx + [] == [] + wx;
    } else {
      assert wx == [];
      assert [] + WithKey(t, key, k) == WithKey(t, key, k) + [];
    }
  }

  /** The tail of a sorted sequence is sorted, and its head carries the least key. */
  lemma SortedTail<T>(t: seq<T>, key: T -> real)
    requires t != [] && SortedBy(t, key)
    ensures SortedBy(t[1..], key)
    ensures forall i :: 0 <= i < |t| ==> key(t[0]) <= key(t[i])
  {
    assert forall i :: 0 <= i < |t| - 1 ==> t[1..][i] == t[i + 1];
  }

  /** Stability: for every key value, SortBy keeps the elements carrying it in input order. */
  lemma {:induction false} SortByStable<T>(s: seq<T>, key: T -> real, k: real)
    ensures WithKey(SortBy(s, key), key, k) == WithKey(s, key, k)
    decreases |s|
  {
    if s != [] {
      var init := s[..|s| - 1];
      SortBySorted(init, key);
      SortByStable(init, key, k);
      WithKeyInsert(SortBy(init, key), s[|s| - 1], key, k);
      assert [s[|s| - 1]][..0] == [];
    }
  }

  /** The first element of a sorted permutation carries the least key. */
  lemma SortByFirstIsLeast<T>(s: seq<T>, key: T -> real)
    requires s != []
    ensures forall i :: 0 <= i < |s| ==> key(SortBy(s, key)[0]) <= key(s[i])
  {
    var r := SortBy(s, key);
    SortBySorted(s, key);
    forall i | 0 <= i < |s| ensures key(r[0]) <= key(s[i]) {
      assert s[i] in multiset(s);
      assert s[i] in multiset(r);
      var j :| 0 <= j < |r| && r[j] == s[i];
    }
  }

  /** Sorting adds no element. */
  lemma SortByMember<T>(s: seq<T>, key: T -> real, x: T)
    requires x in SortBy(s, key)
    ensures x in s
  {
    assert x in multiset(SortBy(s, key));
    assert x in multiset(s);
  }

  /** The last element of a sorted permutation carries the greatest key. */
  lemma SortByLastIsGreatest<T>(s: seq<T>, key: T -> real)
    requires s != []
    ensures forall i :: 0 <= i < |s| ==> key(s[i]) <= key(SortBy(s, key)[|s| - 1])
  {
    var r := SortBy(s, key);
    SortBySorted(s, key);
    forall i | 0 <= i < |s| ensures key(s[i]) <= key(r[|r| - 1]) {
      assert s[i] in multiset(s);
      assert s[i] in multiset(r);
      var j :| 0 <= j < |r| && r[j] == s[i];
    }
  }

  // ---------------------------------------------------------------------------
  // Sums (the source's `reduce((s, t) => s + f(t), 0)`)

  function SumInt<T>(s: seq<T>, f: T -> int): int {
    if s == [] then 0 else SumInt(s[..|s| - 1], f) + f(s[|s| - 1])
  }

  function SumReal<T>(s: seq<T>, f: T -> real): real {
    if s == [] then 0.0 else SumReal(s[..|s| - 1], f) + f(s[|s| - 1])
  }

  lemma {:induction false} SumIntAppend<T>(a: seq<T>, b: seq<T>, f: T -> int)
    ensures SumInt(a + b, f) == SumInt(a, f) + SumInt(b, f)
    decreases |b|
  {
    if b == [] {
      assert a + b == a;
    } else {
      assert (a + b)[..|a + b| - 1] == a + b[..|b| - 1];
      SumIntAppend(a, b[..|b| - 1], f);
    }
  }

  lemma {:induction false} SumRealAppend<T>(a: seq<T>, b: seq<T>, f: T -> real)
    ensures SumReal(a + b, f) == SumReal(a, f) + SumReal(b, f)
    decreases |b|
  {
    if b == [] {
      assert a + b == a;
    } else {
      assert (a + b)[..|a + b| - 1] == a + b[..|b| - 1];
      SumRealAppend(a, b[..|b| - 1], f);
    }
  }

  lemma {:induction false} SumIntInsert<T>(t: seq<T>, x: T, key: T -> real, f: T -> int)
    ensures SumInt(Insert(t, x, key), f) == SumInt(t, f) + f(x)
    decreases |t|
  {
    assert [x][..0] == [];
    if t == [] {
    } else if key(x) < key(t[0]) {
      SumIntAppend([x], t, f);
    } else {
      assert t == [t[0]] + t[1..];
      assert [t[0]][..0] == [];
      SumIntInsert(t[1..], x, key, f);
      SumIntAppend([t[0]], Insert(t[1..], x, key), f);
      SumIntAppend([t[0]], t[1..], f);
    }
  }

  lemma {:induction false} SumRealInsert<T>(t: seq<T>, x: T, key: T -> real, f: T -> real)
    ensures SumReal(Insert(t, x, key), f) == SumReal(t, f) + f(x)
    decreases |t|
  {
    assert [x][..0] == [];
    if t == [] {
    } else if key(x) < key(t[0]) {
      SumRealAppend([x], t, f);
    } else {
      assert t == [t[0]] + t[1..];
      assert [t[0]][..0] == [];
      SumRealInsert(t[1..], x, key, f);
      SumRealAppend([t[0]], Insert(t[1..], x, key), f);
      SumRealAppend([t[0]], t[1..], f);
    }
  }

  /** Sorting does not change an integer sum. */
  lemma {:induction false} SumIntSortBy<T>(s: seq<T>, key: T -> real, f: T -> int)
    ensures SumInt(SortBy(s, key), f) == SumInt(s, f)
    decreases |s|
  {
    if s != [] {
      SumIntSortBy(s[..|s| - 1], key, f);
      SumIntInsert(SortBy(s[..|s| - 1], key), s[|s| - 1], key, f);
    }
  }

  /** Sorting does not change a sum of exact reals. */
  lemma {:induction false} SumRealSortBy<T>(s: seq<T>, key: T -> real, f: T -> real)
    ensures SumReal(SortBy(s, key), f) == SumReal(s, f)
    decreases |s|
  {
    if s != [] {
      SumRealSortBy(s[..|s| - 1], key, f);
      SumRealInsert(SortBy(s[..|s| - 1], key), s[|s| - 1], key, f);
    }
  }

  // ---------------------------------------------------------------------------
  // The groups partition the input

  /** The sum of `f` over the members of each key of `ks`, added up. */
  function GroupTotal<T>(s: seq<T>, key: T -> string, ks: seq<string>, f: T -> int): int {
    if ks == [] then 0
    else GroupTotal(s, key, ks[..|ks| - 1], f) + SumInt(Members(s, key, ks[|ks| - 1]), f)
  }

  lemma {:induction false} GroupTotalSnoc<T>(s: seq<T>, x: T, key: T -> string, ks: seq<string>, f: T -> int)
    requires forall i, j :: 0 <= i < j < |ks| ==> ks[i] != ks[j]
    ensures GroupTotal(s + [x], key, ks, f) == GroupTotal(s, key, ks, f) + (if key(x) in ks then f(x) else 0)
    decreases |ks|
  {
    assert (s + [x])[..|s + [x]| - 1] == s;
    if ks != [] {
      var init := ks[..|ks| - 1];
      var k := ks[|ks| - 1];
      GroupTotalSnoc(s, x, key, init, f);
      assert ks == init + [k];
      assert (key(x) in ks) == (key(x) in init || key(x) == k);
      assert [x][..0] == [];
      if key(x) == k {
        assert key(x) !in init;
        assert Members(s + [x], key, k) == Members(s, key, k) + [x];
        SumIntAppend(Members(s, key, k), [x], f);
      } else {
        assert Members(s + [x], key, k) == Members(s, key, k);
      }
    }
  }

  /** Adding up a quantity group by group gives its total over the whole input. */
  lemma {:induction false} GroupTotalIsSum<T>(s: seq<T>, key: T -> string, f: T -> int)
    ensures GroupTotal(s, key, Keys(s, key), f) == SumInt(s, f)
    decreases |s|
  {
    if s != [] {
      var init := s[..|s| - 1];
      var x := s[|s| - 1];
      var ks := Keys(init, key);
      assert s == init + [x];
      GroupTotalIsSum(init, key, f);
      GroupTotalSnoc(init, x, key, ks, f);
      if key(x) !in ks {
        assert Keys(s, key) == ks + [key(x)];
        GroupTotalNewKey(init, x, key, f);
      } else {
        assert Keys(s, key) == ks;
      }
    }
  }

  lemma GroupTotalNewKey<T>(init: seq<T>, x: T, key: T -> string, f: T -> int)
    requires key(x) !in Keys(init, key)
    ensures var ks := Keys(init, key);
      GroupTotal(init + [x], key, ks + [key(x)], f) == GroupTotal(init + [x], key, ks, f) + f(x)
  {
    var ks := Keys(init, key);
    var ks' := ks + [key(x)];
    assert ks'[..|ks'| - 1] == ks;
    MembersNonEmpty(init, key, key(x));
    assert (init + [x])[..|init|] == init;
    assert Members(init + [x], key, key(x)) == [x];
    assert [x][..0] == [];
    assert SumInt([x], f) == f(x);
    assert GroupTotal(init + [x], key, ks', f) ==
      GroupTotal(init + [x], key, ks, f) + SumInt(Members(init + [x], key, key(x)), f);
  }
}

/**
 * The small part of JavaScript's runtime that the import pipeline leans on:
 * `String.prototype.trim`, `split` and `join` on a one-character separator,
 * `Math.round`, decimal printing of integers, and the host functions the model
 * treats as abstract (date parsing, number parsing and number printing).
 */
module Js {

  datatype Option<+T> = None | Some(value: T) {
    /** JavaScript's `x ?? d` on a value that is either present or absent. */
    function GetOr(default: T): T {
      match this
      case Some(v) => v
      case None => default
    }
  }

  /**
   * The host functions the core calls but whose bodies are not part of the model.
   * - dateMs(s):     `new Date(s).getTime()`, the instant as milliseconds
   * - isoOf(s):      `new Date(s).toISOString().slice(0, 19)`, None for an invalid date
   * - parseFloat(s): `parseFloat(s)`, None when the result is NaN
   * - parseInt(s):   `parseInt(s)`, None when the result is NaN
   * - numStr(x):     `String(x)` for a number
   * - fixed2(x):     `x.toFixed(2)`
   * - fixed1(x):     `x.toFixed(1)`
   */
  datatype Env = Env(
    dateMs: string -> int,
    isoOf: string -> Option<string>,
    parseFloat: string -> Option<real>,
    parseInt: string -> Option<int>,
    numStr: real -> string,
    fixed2: real -> string,
    fixed1: real -> string)

  /** `a || b` on strings: the empty string is falsy. */
  function Or(a: string, b: string): (r: string)
    ensures r == "" <==> a == "" && b == ""
    ensures a != "" ==> r == a
  {
    if a != "" then a else b
  }

  // ---------------------------------------------------------------------------
  // Whitespace and trim

  /** The characters `String.prototype.trim` removes: WhiteSpace and LineTerminator. */
  predicate IsSpace(c: char) {
    || c == ' ' || c == '\t' || c == '\n' || c == '\r'
    || c == '\U{B}' || c == '\U{C}' || c == '\U{A0}' || c == '\U{1680}'
    || ('\U{2000}' <= c <= '\U{200A}')
    || c == '\U{2028}' || c == '\U{2029}' || c == '\U{202F}' || c == '\U{205F}'
    || c == '\U{3000}' || c == '\U{FEFF}'
  }

  function TrimStart(s: string): string {
    if s != [] && IsSpace(s[0]) then TrimStart(s[1..]) else s
  }

  function TrimEnd(s: string): string {
    if s != [] && IsSpace(s[|s| - 1]) then TrimEnd(s[..|s| - 1]) else s
  }

  /** `s.trim()`: the longest sub-string with no whitespace at either end. */
  function Trim(s: string): string {
    TrimEnd(TrimStart(s))
  }

  /** TrimStart removes a prefix of whitespace and stops at the first other character. */
  lemma {:induction false} TrimStartFacts(s: string)
    ensures var r := TrimStart(s); |r| <= |s| && r == s[|s| - |r|..]
    ensures var r := TrimStart(s); r != [] ==> !IsSpace(r[0])
    ensures var r := TrimStart(s); forall i :: 0 <= i < |s| - |r| ==> IsSpace(s[i])
    decreases |s|
  {
    if s != [] && IsSpace(s[0]) {
      TrimStartFacts(s[1..]);
    }
  }

  /** TrimEnd removes a suffix of whitespace and stops at the last other character. */
  lemma {:induction false} TrimEndFacts(s: string)
    ensures var r := TrimEnd(s); |r| <= |s| && r == s[..|r|]
    ensures var r := TrimEnd(s); r != [] ==> !IsSpace(r[|r| - 1])
    ensures var r := TrimEnd(s); forall i :: |r| <= i < |s| ==> IsSpace(s[i])
    decreases |s|
  {
    if s != [] && IsSpace(s[|s| - 1]) {
      TrimEndFacts(s[..|s| - 1]);
    }
  }

  /** Trim returns a contiguous piece of its input: every character it keeps was there. */
  lemma TrimSubstring(s: string)
    ensures |Trim(s)| <= |s|
    ensures forall c :: c in Trim(s) ==> c in s
  {
    TrimStartFacts(s);
    TrimEndFacts(TrimStart(s));
    var a := TrimStart(s);
    var t := TrimEnd(a);
    forall c | c in t ensures c in s {
      var k :| 0 <= k < |t| && t[k] == c;
      assert t[k] == a[k];
      assert a[k] == s[|s| - |a| + k];
    }
  }

  predicate Trimmed(s: string) {
    s == [] || (!IsSpace(s[0]) && !IsSpace(s[|s| - 1]))
  }

  lemma TrimIsTrimmed(s: string)
    ensures Trimmed(Trim(s))
    ensures Trim(Trim(s)) == Trim(s)
  {
    var a := TrimStart(s);
    var r := TrimEnd(a);
    TrimStartFacts(s);
    TrimEndFacts(a);
    if r != [] {
      assert r[0] == a[0];
    }
    TrimOfTrimmed(r);
  }

  lemma TrimOfTrimmed(s: string)
    requires Trimmed(s)
    ensures Trim(s) == s
  {
  }

  // ---------------------------------------------------------------------------
  // Counting, split and join on one character

  function Count(s: string, c: char): nat {
    if s == [] then 0 else Count(s[..|s| - 1], c) + (if s[|s| - 1] == c then 1 else 0)
  }

  lemma CountAppend(a: string, b: string, c: char)
    ensures Count(a + b, c) == Count(a, c) + Count(b, c)
    decreases |b|
  {
    if b != [] {
      assert (a + b)[..|a + b| - 1] == a + b[..|b| - 1];
      CountAppend(a, b[..|b| - 1], c);
    } else {
      assert a + b == a;
    }
  }

  lemma CountZero(s: string, c: char)
    ensures Count(s, c) == 0 <==> c !in s
  {
    if s != [] {
      CountZero(s[..|s| - 1], c);
      assert s == s[..|s| - 1] + [s[|s| - 1]];
    }
  }

  /** `s.split(sep)` for a one-character separator: the pieces between separators. */
  function Split(s: string, sep: char): (r: seq<string>)
    ensures |r| == Count(s, sep) + 1
    ensures forall i :: 0 <= i < |r| ==> sep !in r[i]
  {
    if s == [] then [""]
    else SplitStep(Split(s[..|s| - 1], sep), s[|s| - 1], sep)
  }

  /** One more character: a separator opens a new piece, anything else extends the last. */
  function SplitStep(p: seq<string>, c: char, sep: char): seq<string>
    requires |p| >= 1
  {
    if c == sep then p + [""] else p[..|p| - 1] + [p[|p| - 1] + [c]]
  }

  lemma SplitStepAppend(p: seq<string>, q: seq<string>, c: char, sep: char)
    requires |q| >= 1
    ensures SplitStep(p + q, c, sep) == p + SplitStep(q, c, sep)
  {
    if c != sep {
      assert (p + q)[..|p + q| - 1] == p + q[..|q| - 1];
    }
  }

  /** `parts.join(sep)`. */
  function Join(parts: seq<string>, sep: string): string {
    if parts == [] then ""
    else if |parts| == 1 then parts[0]
    else Join(parts[..|parts| - 1], sep) + sep + parts[|parts| - 1]
  }

  /** Splitting after a separator continues from a fresh piece. */
  lemma SplitAfterSeparator(a: string, b: string, sep: char)
    ensures Split(a + [sep] + b, sep) == Split(a, sep) + Split(b, sep)
    decreases |b|
  {
    if b == [] {
      assert a + [sep] + b == a + [sep];
      assert (a + [sep])[..|a + [sep]| - 1] == a;
    } else {
      var b' := b[..|b| - 1];
      var c := b[|b| - 1];
      assert (a + [sep] + b)[..|a + [sep] + b| - 1] == a + [sep] + b';
      SplitAfterSeparator(a, b', sep);
      assert Split(a + [sep] + b, sep) == SplitStep(Split(a + [sep] + b', sep), c, sep);
      assert Split(b, sep) == SplitStep(Split(b', sep), c, sep);
      SplitStepAppend(Split(a, sep), Split(b', sep), c, sep);
    }
  }

  /** An element of a sequence sits at some index of it. */
  lemma IndexOf<T>(s: seq<T>, x: T) returns (j: nat)
    requires x in s
    ensures j < |s| && s[j] == x
  {
    j :| 0 <= j < |s| && s[j] == x;
  }

  /** A sequence is its prefix followed by its last element. */
  lemma SplitLast<T>(s: seq<T>)
    requires |s| > 0
    ensures s == s[..|s| - 1] + [s[|s| - 1]]
  {
  }

  /** Splitting a joined list gives the pieces back, when no piece holds the separator. */
  lemma {:induction false} SplitJoin(parts: seq<string>, sep: char)
    requires |parts| >= 1
    requires forall i :: 0 <= i < |parts| ==> sep !in parts[i]
    ensures Split(Join(parts, [sep]), sep) == parts
    decreases |parts|
  {
    if |parts| == 1 {
      SplitWithout(parts[0], sep);
    } else {
      var init := parts[..|parts| - 1];
      SplitJoin(init, sep);
      SplitAfterSeparator(Join(init, [sep]), parts[|parts| - 1], sep);
      SplitWithout(parts[|parts| - 1], sep);
      JoinStep(parts, [sep]);
      SplitLast(parts);
    }
  }

  /** A string without the separator is one piece. */
  lemma {:induction false} SplitWithout(s: string, sep: char)
    requires sep !in s
    ensures Split(s, sep) == [s]
  {
    if s != [] {
      var init := s[..|s| - 1];
      assert sep !in init by {
        forall i | 0 <= i < |init| ensures init[i] != sep {
          assert init[i] == s[i];
        }
      }
      SplitWithout(init, sep);
      assert s[|s| - 1] != sep;
      assert s == init + [s[|s| - 1]];
      assert Split(s, sep) == [init + [s[|s| - 1]]];
    }
  }

  /** Joining the pieces of a split gives the string back. */
  lemma {:induction false} JoinSplit(s: string, sep: char)
    ensures Join(Split(s, sep), [sep]) == s
    decreases |s|
  {
    if s != [] {
      var init := s[..|s| - 1];
      var c := s[|s| - 1];
      var p := Split(init, sep);
      JoinSplit(init, sep);
      assert s == init + [c];
      if c == sep {
        assert Split(s, sep) == p + [""];
        assert (p + [""])[..|p + [""]| - 1] == p;
      } else {
        var q := p[..|p| - 1] + [p[|p| - 1] + [c]];
        assert Split(s, sep) == q;
        JoinLastAppend(p, sep, c);
      }
    }
  }

  /** The join of two or more pieces: the join of all but the last, the separator, the last. */
  lemma JoinStep(parts: seq<string>, sep: string)
    requires |parts| > 1
    ensures Join(parts, sep) == Join(parts[..|parts| - 1], sep) + sep + parts[|parts| - 1]
  {
  }

  /** Joining one more empty piece ends the text with a separator. */
  lemma JoinSnocEmpty(p: seq<string>, sep: string)
    requires |p| >= 1
    ensures Join(p + [""], sep) == Join(p, sep) + sep
  {
    assert (p + [""])[..|p|] == p;
    assert Join(p, sep) + sep + "" == Join(p, sep) + sep;
  }

  /** Appending one character to the last piece appends it to the join. */
  lemma JoinLastAppend(p: seq<string>, sep: char, c: char)
    requires |p| >= 1
    ensures Join(p[..|p| - 1] + [p[|p| - 1] + [c]], [sep]) == Join(p, [sep]) + [c]
  {
    var q := p[..|p| - 1] + [p[|p| - 1] + [c]];
    if |p| > 1 {
      assert q[..|q| - 1] == p[..|p| - 1];
    }
  }

  /** The first piece of a join starts it. */
  lemma JoinStartsWithFirst(parts: seq<string>, sep: string)
    requires |parts| >= 1
    ensures |Join(parts, sep)| >= |parts[0]| && Join(parts, sep)[..|parts[0]|] == parts[0]
  {
    if |parts| > 1 {
      JoinStartsWithFirst(parts[..|parts| - 1], sep);
    }
  }

  /** The last piece of a join ends it. */
  lemma JoinEndsWithLast(parts: seq<string>, sep: string)
    requires |parts| >= 1
    ensures var j := Join(parts, sep); var l := parts[|parts| - 1];
      |j| >= |l| && j[|j| - |l|..] == l
  {
  }

  /** `s.split('T')[0]`: everything before the first `T` (the date part of an ISO timestamp). */
  function DatePart(s: string): (r: string)
    ensures 'T' !in r
    ensures |r| <= |s| && r == s[..|r|]
    ensures |r| < |s| ==> s[|r|] == 'T'
  {
    if s == [] then ""
    else if s[0] == 'T' then ""
    else [s[0]] + DatePart(s[1..])
  }

  // ---------------------------------------------------------------------------
  // Numbers

  /** `Math.round(x)`: the nearest integer, halves rounded toward +infinity. */
  function RoundHalfUp(x: real): (r: int)
    ensures x - 0.5 < r as real <= x + 0.5
  {
    (x + 0.5).Floor
  }

  /** `Math.round(x * 100) / 100`. */
  function Round2(x: real): (r: real)
    ensures x - 0.005 < r <= x + 0.005
    ensures (r * 100.0).Floor as real == r * 100.0
  {
    var cents := RoundHalfUp(x * 100.0);
    assert (cents as real / 100.0) * 100.0 == cents as real;
    cents as real / 100.0
  }

  /** A value already in whole cents is left alone by Round2. */
  lemma Round2Cents(k: int)
    ensures Round2(k as real / 100.0) == k as real / 100.0
  {
    assert (k as real / 100.0) * 100.0 == k as real;
    assert (k as real + 0.5).Floor == k;
  }

  /** Round2 is idempotent. */
  lemma Round2Idempotent(x: real)
    ensures Round2(Round2(x)) == Round2(x)
  {
    Round2Cents(RoundHalfUp(x * 100.0));
  }

  function Digit(n: nat): char
    requires n < 10
  {
    "0123456789"[n]
  }

  predicate IsDigit(c: char) {
    '0' <= c <= '9'
  }

  /** The decimal representation of a natural number, as `String(n)` prints it. */
  function Decimal(n: nat): (r: string)
    ensures |r| >= 1
    ensures forall i :: 0 <= i < |r| ==> IsDigit(r[i])
    ensures r[0] == '0' ==> n == 0
  {
    if n < 10 then [Digit(n)] else Decimal(n / 10) + [Digit(n % 10)]
  }

  /** Its value: read back digit by digit, the string Decimal prints denotes n. */
  function DigitsValue(s: string): int
    requires forall i :: 0 <= i < |s| ==> IsDigit(s[i])
  {
    if s == [] then 0 else DigitsValue(s[..|s| - 1]) * 10 + (s[|s| - 1] as int - '0' as int)
  }

  lemma {:induction false} DecimalValue(n: nat)
    ensures DigitsValue(Decimal(n)) == n
  {
    if n >= 10 {
      DecimalValue(n / 10);
      var r := Decimal(n);
      assert r[..|r| - 1] == Decimal(n / 10);
    }
  }
}

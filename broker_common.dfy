/**
 * Helpers shared by the broker parsers of `src/lib/broker-parsers.js`: reading a
 * cell of a parsed row with JavaScript's `||` defaulting, `toISO`, the number
 * parsers with their `|| 0` fallback, and the futures multiplier table.
 */
module BrokerCommon {
  import opened Js
  import opened CsvTokenizer

  /**
   * `r[name]` read in a context that treats it with `||`: a missing header and an
   * empty cell are both falsy, so both read as ''.
   */
  function Field(row: Row, name: string): (v: string)
    ensures name !in row ==> v == ""
    ensures name in row ==> v == row[name]
  {
    if name in row then row[name] else ""
  }

  /**
   * `toISO(dateStr)`: '' for an empty argument, the argument itself when it is not
   * a date, otherwise the first 19 characters of its ISO form.
   */
  function ToIso(env: Env, s: string): (r: string)
    ensures s == "" ==> r == ""
    ensures s != "" && env.isoOf(s).None? ==> r == s
    ensures s != "" && env.isoOf(s).Some? ==> r == env.isoOf(s).value
  {
    if s == "" then ""
    else match env.isoOf(s)
      case None => s
      case Some(iso) => iso
  }

  /** `parseFloat(s) || 0`: NaN (which `parseFloat('')` always is) and 0 both give 0. */
  function ParseFloatOr0(env: Env, s: string): (x: real)
    ensures s == "" ==> x == 0.0
    ensures env.parseFloat(s).None? ==> x == 0.0
  {
    if s == "" then 0.0 else env.parseFloat(s).GetOr(0.0)
  }

  /** `parseInt(s) || 0`. */
  function ParseIntOr0(env: Env, s: string): (n: int)
    ensures s == "" ==> n == 0
    ensures env.parseInt(s).None? ==> n == 0
  {
    if s == "" then 0 else env.parseInt(s).GetOr(0)
  }

  /** `FUTURES_MULTIPLIERS`: dollars per point of the known futures products. */
  const FuturesMultipliers: map<string, real> := map[
    "MNQ" := 2.0, "MES" := 5.0, "MYM" := 0.5, "M2K" := 5.0,
    "NQ" := 20.0, "ES" := 50.0, "YM" := 5.0, "RTY" := 50.0,
    "MCL" := 100.0, "CL" := 1000.0, "GC" := 100.0, "MGC" := 10.0,
    "SI" := 5000.0, "SIL" := 1000.0, "ZB" := 1000.0, "ZN" := 1000.0,
    "ZF" := 1000.0, "HE" := 400.0, "LE" := 400.0, "ZC" := 50.0,
    "ZS" := 50.0, "ZW" := 50.0, "NG" := 10000.0, "MNG" := 1000.0]

  /** `FUTURES_MULTIPLIERS[product] ?? 1`. */
  function Multiplier(product: string): (m: real)
    ensures m > 0.0
    ensures product !in FuturesMultipliers ==> m == 1.0
    ensures product in FuturesMultipliers ==> m == FuturesMultipliers[product]
  {
    if product in FuturesMultipliers then FuturesMultipliers[product] else 1.0
  }

  /** A few entries of the table, and an unknown product falling back to 1. */
  lemma MultiplierExamples()
    ensures Multiplier("MNQ") == 2.0 && Multiplier("ES") == 50.0 && Multiplier("MYM") == 0.5
    ensures Multiplier("NG") == 10000.0 && Multiplier("MNQZ4") == 1.0
  {
  }

  // ---------------------------------------------------------------------------
  // Letter case

  function LowerChar(c: char): char {
    if 'A' <= c <= 'Z' then (c as int + 32) as char else c
  }

  /**
   * `s.toLowerCase()` on ASCII letters. No character outside ASCII lower-cases to
   * `b`, `u` or `y`, so comparing the result with "buy" is exact.
   */
  function LowerAscii(s: string): (r: string)
    ensures |r| == |s|
    ensures forall i :: 0 <= i < |s| ==> r[i] == LowerChar(s[i])
  {
    if s == [] then "" else [LowerChar(s[0])] + LowerAscii(s[1..])
  }

  /** `s.toLowerCase() === 'buy'`: the word "buy" in any letter case. */
  predicate IsBuyWord(s: string) {
    LowerAscii(s) == "buy"
  }

  lemma BuyWordCases(s: string)
    ensures IsBuyWord(s) <==>
      |s| == 3 && (s[0] == 'b' || s[0] == 'B') && (s[1] == 'u' || s[1] == 'U') && (s[2] == 'y' || s[2] == 'Y')
  {
    if |s| == 3 && IsBuyWord(s) {
      assert LowerAscii(s)[0] == 'b' && LowerAscii(s)[1] == 'u' && LowerAscii(s)[2] == 'y';
    }
    if |s| == 3 && (s[0] == 'b' || s[0] == 'B') && (s[1] == 'u' || s[1] == 'U') && (s[2] == 'y' || s[2] == 'Y') {
      assert LowerAscii(s) == "buy";
    }
  }
}

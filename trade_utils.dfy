/**
 * Duration helpers of `src/lib/trade-utils.js`: the gap between two timestamps
 * in whole seconds, and its short human-readable form.
 */
module TradeUtils {
  import opened Js

  /**
   * `computeDurationSeconds(entryDate, exitDate)`: None (null) when either date is
   * empty or the exit is not after the entry; otherwise the gap rounded to whole
   * seconds, half a second rounding up.
   */
  function ComputeDurationSeconds(env: Env, entryDate: string, exitDate: string): (r: Option<int>)
    ensures r.None? <==> (entryDate == "" || exitDate == "" || env.dateMs(exitDate) <= env.dateMs(entryDate))
    ensures r.Some? ==> r.value >= 0
    ensures r.Some? ==> var ms := env.dateMs(exitDate) - env.dateMs(entryDate);
      r.value * 1000 - 500 <= ms < r.value * 1000 + 500
  {
    if entryDate == "" || exitDate == "" then None
    else
      var ms := env.dateMs(exitDate) - env.dateMs(entryDate);
      if ms > 0 then Some(RoundHalfUp(ms as real / 1000.0)) else None
  }

  /** A positive gap under half a second still gives a duration, of zero seconds. */
  lemma SubSecondGapIsZero(env: Env, entryDate: string, exitDate: string)
    requires entryDate != "" && exitDate != ""
    requires 0 < env.dateMs(exitDate) - env.dateMs(entryDate) < 500
    ensures ComputeDurationSeconds(env, entryDate, exitDate) == Some(0)
  {
  }

  /**
   * The string `formatDuration` returns for a missing or non-positive duration. The
   * file holds these three characters (an em dash stored with the wrong encoding).
   */
  const Placeholder: string := "\U{E2}\U{20AC}\U{201D}"

  datatype Units = Units(days: nat, hours: nat, minutes: nat, seconds: nat)

  /** The day/hour/minute/second decomposition of `formatDuration`. */
  function ToUnits(total: nat): (u: Units)
    ensures u.days * 86400 + u.hours * 3600 + u.minutes * 60 + u.seconds == total
    ensures u.hours < 24 && u.minutes < 60 && u.seconds < 60
  {
    var u := Units(total / 86400, (total % 86400) / 3600, (total % 3600) / 60, total % 60);
    UnitsSum(total);
    u
  }

  lemma UnitsSum(total: nat)
    ensures (total / 86400) * 86400 + ((total % 86400) / 3600) * 3600
          + ((total % 3600) / 60) * 60 + total % 60 == total
    ensures (total % 86400) / 3600 < 24
  {
    var d, r := total / 86400, total % 86400;
    assert total == d * 86400 + r;
    var h, r2 := r / 3600, r % 3600;
    assert r == h * 3600 + r2;
    // total % 3600 == r2, because 86400 is a multiple of 3600
    assert total == (d * 24 + h) * 3600 + r2;
    assert total % 3600 == r2 by {
      ModOfMultiplePlus(d * 24 + h, 3600, r2);
    }
    var m, s := r2 / 60, r2 % 60;
    assert r2 == m * 60 + s;
    assert total % 60 == s by {
      assert total == ((d * 24 + h) * 60 + m) * 60 + s;
      ModOfMultiplePlus((d * 24 + h) * 60 + m, 60, s);
    }
  }

  lemma ModOfMultiplePlus(q: int, n: int, r: int)
    requires q >= 0 && n > 0 && 0 <= r < n
    ensures (q * n + r) % n == r && (q * n + r) / n == q
  {
    var a := q * n + r;
    var qq, rr := a / n, a % n;
    assert a == qq * n + rr;
    assert (q - qq) * n == rr - r;
    if q > qq {
      MulAtLeast(q - qq, n);
    } else if q < qq {
      MulAtLeast(qq - q, n);
    }
  }

  lemma MulAtLeast(x: int, n: int)
    requires x >= 1 && n > 0
    ensures x * n >= n
  {
    if x > 1 {
      MulAtLeast(x - 1, n);
      assert x * n == (x - 1) * n + n;
    }
  }

  /**
   * `formatDuration(seconds)`: the placeholder for null or a non-positive value;
   * otherwise the two largest units starting at the first non-zero one.
   */
  function FormatDuration(seconds: Option<int>): (r: string)
    ensures r == Placeholder <==> (seconds.None? || seconds.value <= 0)
  {
    if seconds.None? || seconds.value <= 0 then Placeholder
    else
      var u := ToUnits(seconds.value);
      var r := if u.days > 0 then Decimal(u.days) + "d " + Decimal(u.hours) + "h"
               else if u.hours > 0 then Decimal(u.hours) + "h " + Decimal(u.minutes) + "m"
               else if u.minutes > 0 then Decimal(u.minutes) + "m " + Decimal(u.seconds) + "s"
               else Decimal(u.seconds) + "s";
      assert IsDigit(r[0]);
      assert !IsDigit(Placeholder[0]);
      r
  }

  /** The first unit printed is the largest non-zero one, so its count is never zero. */
  lemma FormatLeadingUnit(seconds: int)
    requires seconds > 0
    ensures var u := ToUnits(seconds);
      var f := FormatDuration(Some(seconds));
      if u.days > 0 then f == Decimal(u.days) + "d " + Decimal(u.hours) + "h"
      else if u.hours > 0 then f == Decimal(u.hours) + "h " + Decimal(u.minutes) + "m"
      else if u.minutes > 0 then f == Decimal(u.minutes) + "m " + Decimal(u.seconds) + "s"
      else f == Decimal(u.seconds) + "s" && u.seconds == seconds && 0 < seconds < 60
  {
  }
}

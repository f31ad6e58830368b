/**
 * The numbers the widget shows: seconds elapsed, words per minute and
 * accuracy. The source computes them in floating point and rounds with
 * `Math.round`; here they are exact integer formulas, `Math.round(p / q)`
 * being the integer nearest `p / q` with a half rounding up.
 */
module Stats {
  import opened Wrappers

  /** Characters per word in the words-per-minute formula. */
  const CharsPerWord := 5

  datatype Stats = Stats(wpm: int, accuracy: int)

  /** `Math.round(p / q)` for a positive `q`: `r - 1/2 <= p/q < r + 1/2`. */
  function RoundDiv(p: int, q: int): (r: int)
    requires q > 0
    ensures 2 * q * r <= 2 * p + q < 2 * q * (r + 1)
  {
    DivBounds(2 * p + q, 2 * q);
    (2 * p + q) / (2 * q)
  }

  lemma DivBounds(n: int, d: int)
    requires d > 0
    ensures d * (n / d) <= n < d * (n / d + 1)
  {
  }

  /** A non-negative ratio never rounds below zero. */
  lemma RoundDivNonNegative(p: int, q: int)
    requires q > 0 && p >= 0
    ensures RoundDiv(p, q) >= 0
  {
    var r := RoundDiv(p, q);
    if r < 0 {
      assert 2 * q * (r + 1) <= 0 by { MulNonPositive(2 * q, r + 1); }
    }
  }

  lemma MulNonPositive(a: int, b: int)
    requires a > 0 && b <= 0
    ensures a * b <= 0
  {
  }

  /** `a <= b` scales by a positive factor. */
  lemma MulMonotone(k: int, a: int, b: int)
    requires k > 0 && a <= b
    ensures k * a <= k * b
  {
  }

  /** `Math.floor((now - startTime) / 1000)`: whole seconds since the start. */
  function ElapsedSeconds(startTime: int, now: int): (s: int)
    ensures 1000 * s <= now - startTime < 1000 * (s + 1)
    ensures startTime <= now ==> s >= 0
  {
    (now - startTime) / 1000
  }

  /**
   * Words per minute after `elapsedMs` milliseconds with `typed` characters
   * correctly typed: zero while no time has passed, otherwise
   * `(typed / 5) / (elapsedMs / 60000)` rounded, which is `12000 * typed / elapsedMs`.
   */
  function WordsPerMinute(typed: nat, elapsedMs: int): (w: nat)
    ensures elapsedMs <= 0 ==> w == 0
    ensures elapsedMs > 0 ==>
      2 * elapsedMs * w <= 2 * 12000 * typed + elapsedMs < 2 * elapsedMs * (w + 1)
    ensures typed == 0 ==> w == 0
  {
    if elapsedMs <= 0 then 0
    else
      RoundDivNonNegative(60000 * typed / CharsPerWord, elapsedMs);
      RoundDiv(60000 * typed / CharsPerWord, elapsedMs)
  }

  /** More characters typed in the same time never lowers the speed shown. */
  lemma WordsPerMinuteMonotone(a: nat, b: nat, elapsedMs: int)
    requires a <= b
    ensures WordsPerMinute(a, elapsedMs) <= WordsPerMinute(b, elapsedMs)
  {
    if elapsedMs > 0 {
      var wa, wb := WordsPerMinute(a, elapsedMs), WordsPerMinute(b, elapsedMs);
      if wa > wb {
        MulMonotone(2 * elapsedMs, wb + 1, wa);
        MulMonotone(24000, a, b);
        assert false;
      }
    }
  }

  /** The same characters typed over a longer time never raise the speed shown. */
  lemma WordsPerMinuteAntitone(typed: nat, shorter: int, longer: int)
    requires 0 < shorter <= longer
    ensures WordsPerMinute(typed, longer) <= WordsPerMinute(typed, shorter)
  {
    var ws, wl := WordsPerMinute(typed, shorter), WordsPerMinute(typed, longer);
    if wl > ws {
      // 2*longer*wl <= 24000*typed + longer, and 24000*typed + shorter < 2*shorter*(ws+1)
      MulMonotone(2 * longer, ws + 1, wl);
      MulMonotone(2 * ws + 1, shorter, longer);
      assert false;
    }
  }

  /** The larger of two integers, as `Math.max`. */
  function Max(a: int, b: int): (m: int)
    ensures m >= a && m >= b && (m == a || m == b)
  {
    if a < b then b else a
  }

  /**
   * Accuracy in percent after `typed` correct characters and `errors`
   * mistakes: 100 before any keystroke, otherwise
   * `max(0, round((typed - errors) / (typed + errors) * 100))`.
   */
  function Accuracy(typed: nat, errors: nat): (a: nat)
    ensures a <= 100
    ensures a == 100 <==> 399 * errors <= typed
    ensures a == 0 <==> 0 < typed + errors && 200 * (typed - errors) < typed + errors
    ensures 0 < typed + errors && 0 < a ==>
      2 * (typed + errors) * a <= 200 * (typed - errors) + (typed + errors) < 2 * (typed + errors) * (a + 1)
  {
    var total := typed + errors;
    if total == 0 then 100
    else
      AccuracyRounding(typed, errors);
      Max(0, RoundDiv(100 * (typed - errors), total))
  }

  /** Where `round(100 * (typed - errors) / total)` lands relative to 0 and 100. */
  lemma AccuracyRounding(typed: nat, errors: nat)
    requires typed + errors > 0
    ensures RoundDiv(100 * (typed - errors), typed + errors) <= 100
    ensures RoundDiv(100 * (typed - errors), typed + errors) >= 100 <==> 399 * errors <= typed
    ensures RoundDiv(100 * (typed - errors), typed + errors) <= 0 <==> 200 * (typed - errors) < typed + errors
  {
    var t := typed + errors;
    var r := RoundDiv(100 * (typed - errors), t);
    // 2*t*r <= 200*(typed-errors) + t < 2*t*(r+1)
    if r > 100 {
      MulMonotone(2 * t, 101, r);
    }
    if r >= 100 {
      MulMonotone(2 * t, 100, r);
    } else {
      MulMonotone(2 * t, r + 1, 100);
    }
    if r <= 0 {
      MulMonotone(2 * t, r + 1, 1);
    } else {
      MulMonotone(2 * t, 1, r);
    }
  }

  /**
   * `updateStats`: nothing is recomputed while `startTime` is falsy (null, or
   * the timestamp 0); otherwise the speed and accuracy for the session so far.
   */
  function UpdateStats(startTime: Option<int>, now: int, typed: nat, errors: nat): (r: Option<Stats>)
    ensures r.None? <==> startTime == None || startTime == Some(0)
    ensures r.Some? ==> 0 <= r.value.accuracy <= 100 && 0 <= r.value.wpm
    ensures r.Some? ==>
      r.value == Stats(WordsPerMinute(typed, now - startTime.value), Accuracy(typed, errors))
  {
    match startTime
    case None => None
    case Some(t) =>
      if t == 0 then None
      else Some(Stats(WordsPerMinute(typed, now - t), Accuracy(typed, errors)))
  }

  /** Fifty correct characters in one minute read as ten words per minute. */
  lemma WordsPerMinuteExample()
    ensures WordsPerMinute(50, 60000) == 10
  {
  }

  /** Three correct characters and one mistake read as 50% accuracy. */
  lemma AccuracyExample()
    ensures Accuracy(3, 1) == 50
    ensures Accuracy(0, 0) == 100
  {
  }
}

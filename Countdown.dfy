/**
 * The countdown timer: shows the days, hours, minutes and seconds left until
 * a target instant, refreshed by a 1-second interval, and switches to a fixed
 * message once the target is reached. Instants are integer milliseconds; the
 * clock reading of each refresh is passed in as `now`.
 */
module Countdown {
  import opened JsSemantics
  import Arithmetic

  const MsPerSecond := 1000
  const MsPerMinute := 1000 * 60
  const MsPerHour := 1000 * 60 * 60
  const MsPerDay := 1000 * 60 * 60 * 24

  const StartedMessage := "The event has started!"

  /** The four numbers the countdown shows. */
  datatype Remaining = Remaining(days: int, hours: int, minutes: int, seconds: int)

  /** What the timer's element shows. */
  datatype Display =
    | Blank
    | Message(text: string)
    | Counting(left: Remaining)

  /** Floor of an integer quotient computed on reals is Euclidean division. */
  lemma {:induction false} FloorOfQuotient(a: int, k: int)
    requires a >= 0 && k > 0
    ensures Floor(a as real / k as real) == a / k
  {
    var q, r := a / k, a % k;
    assert a == q * k + r;
    var x := a as real / k as real;
    assert x == q as real + r as real / k as real;
    assert 0.0 <= r as real / k as real < 1.0;
  }

  /** `Math.floor(x % m)` on a non-negative `x` is the integer floor of `x` modulo `m`. */
  lemma {:induction false} FloorOfFloatRem(x: real, m: int)
    requires x >= 0.0 && m > 0
    ensures Floor(FloatRem(x, m as real)) == Floor(x) % m
  {
    var f := Floor(x);
    var q, r := f / m, f % m;
    assert f == q * m + r;
    TruncOfQuotient(x, m, q, r);
    var rem := x - m as real * q as real;
    assert FloatRem(x, m as real) == rem;
    RemainderBounds(x, m, q, r);
  }

  /** When `floor(x) == q * m + r` with `0 <= r < m`, `x / m` truncates to `q`. */
  lemma {:induction false} TruncOfQuotient(x: real, m: int, q: int, r: int)
    requires x >= 0.0 && m > 0 && 0 <= r < m
    requires Floor(x) == q * m + r
    ensures Trunc(x / m as real) == q
  {
    var mr := m as real;
    var y := x / mr;
    assert y * mr == x;
    assert (q * m + r) as real == q as real * mr + r as real;
    assert q as real * mr <= x < (q as real + 1.0) * mr by {
      assert r as real + 1.0 <= mr;
    }
    QuotientBounds(x, mr, q as real, y);
  }

  /** When `floor(x) == q * m + r`, `x - m * q` lies in `[r, r + 1)`. */
  lemma {:induction false} RemainderBounds(x: real, m: int, q: int, r: int)
    requires Floor(x) == q * m + r
    ensures r as real <= x - m as real * q as real < r as real + 1.0
  {
    assert (q * m + r) as real == m as real * q as real + r as real;
  }

  lemma {:induction false} QuotientBounds(x: real, m: real, q: real, y: real)
    requires m > 0.0 && y * m == x && q * m <= x < (q + 1.0) * m
    ensures q <= y < q + 1.0
  {
    var below := y - q;
    assert below * m == x - q * m;
    SignOfFactor(below, m);
    var above := q + 1.0 - y;
    assert above * m == (q + 1.0) * m - x;
    SignOfFactor(above, m);
    assert above * m > 0.0;
    assert above != 0.0;
  }

  lemma {:induction false} SignOfFactor(a: real, m: real)
    requires m > 0.0 && a * m >= 0.0
    ensures a >= 0.0
  {
  }

  /**
   * The numbers `updateCountdown` computes for a positive difference,
   * written as `updateCountdown` writes them, on reals: every unit is truncated, and
   * together they spell out the whole seconds of `diff`.
   */
  function Decompose(diff: int): (r: Remaining)
    requires diff > 0
    ensures r.days >= 0
    ensures 0 <= r.hours < 24 && 0 <= r.minutes < 60 && 0 <= r.seconds < 60
    ensures r.days * 86400 + r.hours * 3600 + r.minutes * 60 + r.seconds == diff / MsPerSecond
    ensures r == Remaining(diff / MsPerDay, diff / MsPerHour % 24, diff / MsPerMinute % 60, diff / MsPerSecond % 60)
  {
    var d := diff as real;
    var r := Remaining(
      Floor(d / MsPerDay as real),
      Floor(FloatRem(d / MsPerHour as real, 24.0)),
      Floor(FloatRem(d / MsPerMinute as real, 60.0)),
      Floor(FloatRem(d / MsPerSecond as real, 60.0)));
    IntegerFormula(diff);
    UnitsSpellOutSeconds(diff);
    r
  }

  /** Whole days, hours of the day, minutes and seconds add up to the whole seconds. */
  lemma {:induction false} UnitsSpellOutSeconds(diff: int)
    requires diff > 0
    ensures diff / MsPerDay * 86400 + diff / MsPerHour % 24 * 3600
      + diff / MsPerMinute % 60 * 60 + diff / MsPerSecond % 60 == diff / MsPerSecond
  {
    Arithmetic.DivDiv(diff, MsPerSecond, 60);
    Arithmetic.DivDiv(diff, MsPerMinute, 60);
    Arithmetic.DivDiv(diff, MsPerHour, 24);
    var seconds := diff / MsPerSecond;
    var minutes := seconds / 60;
    var hours := minutes / 60;
    assert seconds == 60 * minutes + seconds % 60;
    assert minutes == 60 * hours + minutes % 60;
    assert hours == 24 * (hours / 24) + hours % 24;
  }

  lemma {:induction false} IntegerFormula(diff: int)
    requires diff > 0
    ensures var d := diff as real;
      && Floor(d / MsPerDay as real) == diff / MsPerDay
      && Floor(FloatRem(d / MsPerHour as real, 24.0)) == diff / MsPerHour % 24
      && Floor(FloatRem(d / MsPerMinute as real, 60.0)) == diff / MsPerMinute % 60
      && Floor(FloatRem(d / MsPerSecond as real, 60.0)) == diff / MsPerSecond % 60
  {
    var d := diff as real;
    FloorOfQuotient(diff, MsPerDay);
    FloorOfQuotient(diff, MsPerHour);
    FloorOfQuotient(diff, MsPerMinute);
    FloorOfQuotient(diff, MsPerSecond);
    FloorOfFloatRem(d / MsPerHour as real, 24);
    FloorOfFloatRem(d / MsPerMinute as real, 60);
    FloorOfFloatRem(d / MsPerSecond as real, 60);
  }

  /** The seconds field of a refresh one second later is one less, wrapping from 0 to 59. */
  lemma {:induction false} SecondsTickDown(diff: int)
    requires diff > MsPerSecond
    ensures Decompose(diff - MsPerSecond).seconds == (Decompose(diff).seconds + 59) % 60
  {
    var total := diff / MsPerSecond;
    assert (diff - MsPerSecond) / MsPerSecond == total - 1 by {
      Arithmetic.DivModUnique(diff - MsPerSecond, total - 1, MsPerSecond, diff % MsPerSecond);
    }
    PredecessorMod60(total);
  }

  /** One less, modulo 60: 0 wraps to 59. */
  lemma {:induction false} PredecessorMod60(total: int)
    ensures (total - 1) % 60 == (total % 60 + 59) % 60
  {
    var q := total / 60;
    if total % 60 == 0 {
      Arithmetic.DivModUnique(total - 1, q - 1, 60, 59);
    } else {
      Arithmetic.DivModUnique(total - 1, q, 60, total % 60 - 1);
    }
  }

  /** What a refresh with `diff` milliseconds left puts in the element. */
  function View(diff: int): (d: Display)
    ensures diff <= 0 <==> d == Message(StartedMessage)
  {
    if diff <= 0 then Message(StartedMessage) else Counting(Decompose(diff))
  }

  class CountdownTimer {
    /** The target instant, in milliseconds. */
    var targetDate: int
    /** What the element shows. */
    var element: Display
    /** The field `interval`: the handle of the 1-second interval, once assigned. */
    var interval: Option<nat>
    /** Whether the interval registered under `interval` is still firing. */
    var ticking: bool

    /**
     * `new CountdownTimer(...)` at clock reading `now`, where `handle` is what
     * `setInterval` returns. The first refresh runs before the interval is
     * assigned, so a target already reached cannot cancel it: the timer is
     * ticking afterwards in every case.
     */
    constructor (targetDate: int, now: int, handle: nat)
      requires handle > 0
      ensures this.targetDate == targetDate
      ensures element == View(targetDate - now)
      ensures interval == Some(handle) && ticking
    {
      this.targetDate := targetDate;
      element := Blank;
      interval := None;
      ticking := false;
      new;
      UpdateCountdown(now);
      interval := Some(handle);
      ticking := true;
    }

    /** One refresh at clock reading `now`; once the target is reached it also calls `stop`. */
    method UpdateCountdown(now: int)
      modifies this
      ensures element == View(targetDate - now)
      ensures targetDate == old(targetDate) && interval == old(interval)
      ensures ticking == (old(ticking) && (targetDate - now > 0 || interval.None?))
    {
      var diff := targetDate - now;
      if diff <= 0 {
        element := Message(StartedMessage);
        Stop();
        return;
      }
      element := Counting(Decompose(diff));
    }

    /** `stop`: cancels the interval only when a handle has been assigned. */
    method Stop()
      modifies this`ticking
      ensures ticking == (old(ticking) && interval.None?)
    {
      if interval.Some? {
        ticking := false;
      }
    }

    /** One firing of the interval: a refresh, if the interval is still live. */
    method Tick(now: int)
      modifies this
      ensures ticking == (old(ticking) && (targetDate - now > 0 || interval.None?))
      ensures element == if old(ticking) then View(targetDate - now) else old(element)
      ensures targetDate == old(targetDate) && interval == old(interval)
    {
      if ticking {
        UpdateCountdown(now);
      }
    }
  }

  /**
   * A target already in the past when the timer is created: the interval is
   * left running by the constructor and cancelled by its first firing, which
   * shows the same message again.
   */
  method PastTargetScenario(targetDate: int, now: int, handle: nat, later: int)
    returns (tickingAfterInit: bool, tickingAfterTick: bool, sameMessage: bool)
    requires targetDate <= now <= later && handle > 0
    ensures tickingAfterInit && !tickingAfterTick && sameMessage
  {
    var timer := new CountdownTimer(targetDate, now, handle);
    tickingAfterInit := timer.ticking;
    var shown := timer.element;
    timer.Tick(later);
    tickingAfterTick := timer.ticking;
    sameMessage := timer.element == shown;
  }
}

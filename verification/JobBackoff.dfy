/**
 * Exponential backoff of failing background jobs. Instants are whole milliseconds, waits are real numbers; a date is
 * the instant cut to whole milliseconds, and invalid outside +-8.64e15 ms.
 */
module JobBackoff {
  /** Waits and timeout in seconds. */
  datatype Backoff = Backoff(firstWait: real, factor: real, timeout: real)

  const DEFAULTS := Backoff(60.0, 2.0, 172800.0)

  const MAX_DATE := 8640000000000000.0

  function Pow(base: real, n: nat): real {
    if n == 0 then 1.0 else Pow(base, n - 1) * base
  }

  /** The wait after try number `tryCount`, in milliseconds. */
  function Wait(o: Backoff, tryCount: nat): real
    requires tryCount >= 1
  {
    o.firstWait * Pow(o.factor, tryCount - 1) * 1000.0
  }

  function Truncated(x: real): int { if x >= 0.0 then x.Floor else -((-x).Floor) }

  /** `Never` is an invalid date: the comparison with the timeout fails, and so does every later one with the clock. */
  datatype NextTry = At(time: int) | Never | Abandon

  function CalculateNextTryTime(o: Backoff, tryCount: nat, lastTryTime: int, creationTime: int): NextTry
    requires tryCount >= 1
  {
    var next := lastTryTime as real + Wait(o, tryCount);
    if next > MAX_DATE || next < -MAX_DATE then Never
    else
      var date := Truncated(next);
      if (date - creationTime) as real / 1000.0 > o.timeout then Abandon else At(date)
  }

  /**
   * A job that keeps failing: it was created at `creation`, `tries` are the times of its executions, and each but the
   * last was followed by a reschedule that the next execution waited for.
   */
  ghost predicate Failing(o: Backoff, creation: int, tries: seq<int>) {
    tries == [] ||
    (var n := |tries| - 1;
      && Failing(o, creation, tries[..n])
      && (n == 0 ==> 0 <= creation <= tries[0])
      && (n > 0 ==>
        && CalculateNextTryTime(o, n, tries[n - 1], creation).At?
        && CalculateNextTryTime(o, n, tries[n - 1], creation).time <= tries[n]))
  }

  /** The sum of the first `n` waits. */
  function TotalWait(o: Backoff, n: nat): real {
    if n == 0 then 0.0 else TotalWait(o, n - 1) + Wait(o, n)
  }

  /** The sum of the first `n` waits, each cut to whole milliseconds. */
  function TotalWholeWait(o: Backoff, n: nat): int {
    if n == 0 then 0 else TotalWholeWait(o, n - 1) + Wait(o, n).Floor
  }

  lemma TimesMonotone(x: real, y: real, c: real)
    requires x <= y && c >= 0.0
    ensures x * c <= y * c
  {
  }

  lemma GeometricStep(total: real, first: real, p: real, f: real, total': real, p': real)
    requires ClosedForm(total, first, p, f)
    requires total' == total + first * p * 1000.0 && p' == p * f
    ensures ClosedForm(total', first, p', f)
  {
  }

  ghost predicate ClosedForm(total: real, first: real, p: real, f: real) {
    total * (f - 1.0) == first * (p - 1.0) * 1000.0
  }

  /** The geometric sum: `first * (factor^n - 1) / (factor - 1)` seconds. */
  lemma {:induction false} TotalWaitClosedForm(o: Backoff, n: nat)
    ensures ClosedForm(TotalWait(o, n), o.firstWait, Pow(o.factor, n), o.factor)
  {
    if n > 0 {
      TotalWaitClosedForm(o, n - 1);
      GeometricStep(TotalWait(o, n - 1), o.firstWait, Pow(o.factor, n - 1), o.factor, TotalWait(o, n),
        Pow(o.factor, n));
    } else {
      assert Pow(o.factor, 0) - 1.0 == 0.0;
      assert o.firstWait * 0.0 == 0.0;
    }
  }

  lemma {:induction false} PowPositive(base: real, n: nat)
    requires base > 0.0
    ensures Pow(base, n) > 0.0
  {
    if n > 0 { PowPositive(base, n - 1); }
  }

  lemma WaitPositive(o: Backoff, n: nat)
    requires n >= 1 && o.firstWait >= 0.0 && o.factor > 0.0
    ensures Wait(o, n) >= 0.0
  {
    PowPositive(o.factor, n - 1);
  }

  lemma {:induction false} TriesAfterCreation(o: Backoff, creation: int, tries: seq<int>)
    requires o.firstWait >= 0.0 && o.factor > 0.0 && Failing(o, creation, tries) && tries != []
    ensures 0 <= creation && tries[|tries| - 1] >= creation + TotalWholeWait(o, |tries| - 1)
  {
    var n := |tries| - 1;
    if n > 0 {
      TriesAfterCreation(o, creation, tries[..n]);
      WholeWaitsPositive(o, n - 1);
      NextAfterWait(o, n, tries[n - 1], creation);
    }
  }

  lemma {:induction false} WholeWaitsPositive(o: Backoff, n: nat)
    requires o.firstWait >= 0.0 && o.factor > 0.0
    ensures TotalWholeWait(o, n) >= 0
  {
    if n > 0 {
      WholeWaitsPositive(o, n - 1);
      WaitPositive(o, n);
    }
  }

  lemma NextAfterWait(o: Backoff, tryCount: nat, last: int, creation: int)
    requires tryCount >= 1 && o.firstWait >= 0.0 && o.factor > 0.0 && last >= 0
    requires CalculateNextTryTime(o, tryCount, last, creation).At?
    ensures CalculateNextTryTime(o, tryCount, last, creation).time == last + Wait(o, tryCount).Floor
  {
    WaitPositive(o, tryCount);
    assert (last as real + Wait(o, tryCount)).Floor == last + Wait(o, tryCount).Floor;
  }

  /**
   * The n-th reschedule of a failing job lies at least the n waits so far after its creation, whatever the polling
   * delays, and never past the timeout.
   */
  lemma {:induction false} RescheduleBound(o: Backoff, creation: int, tries: seq<int>)
    requires o.firstWait >= 0.0 && o.factor > 0.0 && Failing(o, creation, tries) && tries != []
    requires CalculateNextTryTime(o, |tries|, tries[|tries| - 1], creation).At?
    ensures var at := CalculateNextTryTime(o, |tries|, tries[|tries| - 1], creation).time;
      && at - creation >= TotalWholeWait(o, |tries|)
      && (at - creation) as real <= o.timeout * 1000.0
  {
    TriesAfterCreation(o, creation, tries);
    WholeWaitsPositive(o, |tries| - 1);
    NextAfterWait(o, |tries|, tries[|tries| - 1], creation);
  }

  predicate WholeWait(o: Backoff, n: nat) { n == 0 || (WholeWait(o, n - 1) && Wait(o, n).Floor as real == Wait(o, n)) }

  /**
   * Cutting to whole milliseconds costs less than a millisecond per wait, and nothing exactly when the waits are whole.
   */
  lemma {:induction false} WholeWaits(o: Backoff, n: nat)
    ensures TotalWait(o, n) - n as real <= TotalWholeWait(o, n) as real <= TotalWait(o, n)
    ensures TotalWholeWait(o, n) as real == TotalWait(o, n) <==> WholeWait(o, n)
  {
    if n > 0 { WholeWaits(o, n - 1); }
  }

  /**
   * In closed form: the n-th reschedule lies at least `first * (factor^n - 1) / (factor - 1)` seconds after the
   * creation if all waits are whole milliseconds, and less than n milliseconds earlier otherwise.
   */
  lemma {:induction false} GeometricBound(o: Backoff, creation: int, tries: seq<int>)
    requires o.firstWait >= 0.0 && o.factor > 0.0 && Failing(o, creation, tries) && tries != []
    requires CalculateNextTryTime(o, |tries|, tries[|tries| - 1], creation).At?
    ensures var n, total := |tries|, TotalWait(o, |tries|);
      var elapsed := (CalculateNextTryTime(o, n, tries[n - 1], creation).time - creation) as real;
      && ClosedForm(total, o.firstWait, Pow(o.factor, n), o.factor)
      && elapsed >= total - n as real
      && (WholeWait(o, n) ==> elapsed >= total)
  {
    RescheduleBound(o, creation, tries);
    WholeWaits(o, |tries|);
    TotalWaitClosedForm(o, |tries|);
  }

  /** Bernoulli's inequality. */
  lemma {:induction false} PowGrows(base: real, n: nat)
    requires base >= 1.0
    ensures Pow(base, n) >= 1.0 + n as real * (base - 1.0)
  {
    if n > 0 {
      PowGrows(base, n - 1);
      var k, d := (n - 1) as real, base - 1.0;
      TimesMonotone(1.0 + k * d, Pow(base, n - 1), base);
      assert (1.0 + k * d) * base == 1.0 + k * d + d + k * d * d;
      assert k * d * d >= 0.0;
      assert n as real * d == k * d + d;
    }
  }

  function WaitUnit(o: Backoff): (r: real)
    requires o.firstWait > 0.0 && o.factor > 1.0
    ensures r > 0.0
  {
    PositiveProduct(o.firstWait, o.factor - 1.0);
    o.firstWait * (o.factor - 1.0) * 1000.0
  }

  lemma PositiveProduct(x: real, y: real)
    requires x > 0.0 && y > 0.0
    ensures x * y > 0.0
  {
  }

  lemma PositiveQuotient(x: real, y: real)
    requires x >= 0.0 && y > 0.0
    ensures x / y >= 0.0
  {
  }

  /** The number of executions no failing job exceeds: its last wait alone would pass the timeout. */
  function MaxExecutions(o: Backoff): (n: nat)
    requires o.firstWait > 0.0 && o.factor > 1.0 && o.timeout >= 0.0
    ensures n >= 2
  {
    var q := (o.timeout * 1000.0 + 1.0) / WaitUnit(o);
    PositiveQuotient(o.timeout * 1000.0 + 1.0, WaitUnit(o));
    q.Floor + 2
  }

  /**
   * Every growing backoff ends: after finitely many executions a failing job is not rescheduled. It is then abandoned
   * exactly if the next date would be a valid one; otherwise it stays in the store, never to run again.
   */
  lemma {:induction false} AlwaysEnds(o: Backoff, creation: int, tries: seq<int>)
    requires o.firstWait > 0.0 && o.factor > 1.0 && o.timeout >= 0.0
    requires Failing(o, creation, tries) && |tries| >= MaxExecutions(o)
    ensures var next := CalculateNextTryTime(o, |tries|, tries[|tries| - 1], creation);
      && !next.At?
      && (next.Abandon? <==> tries[|tries| - 1] as real + Wait(o, |tries|) <= MAX_DATE)
  {
    var n := |tries|;
    TriesAfterCreation(o, creation, tries);
    WholeWaitsPositive(o, n - 1);
    LongWait(o, n);
    if CalculateNextTryTime(o, n, tries[n - 1], creation).At? { NextAfterWait(o, n, tries[n - 1], creation); }
  }

  lemma LongWait(o: Backoff, n: nat)
    requires o.firstWait > 0.0 && o.factor > 1.0 && o.timeout >= 0.0 && n >= MaxExecutions(o)
    ensures Wait(o, n) > o.timeout * 1000.0 + 1.0
  {
    var k, d, unit, enough := (n - 1) as real, o.factor - 1.0, WaitUnit(o), o.timeout * 1000.0 + 1.0;
    PowGrows(o.factor, n - 1);
    assert k > enough / unit;
    QuotientBelow(enough, unit, k);
    TimesMonotone(1.0 + k * d, Pow(o.factor, n - 1), o.firstWait * 1000.0);
    assert (1.0 + k * d) * (o.firstWait * 1000.0) == o.firstWait * 1000.0 + k * (d * (o.firstWait * 1000.0));
    assert d * (o.firstWait * 1000.0) == unit;
    assert Wait(o, n) == Pow(o.factor, n - 1) * (o.firstWait * 1000.0);
  }

  lemma QuotientBelow(x: real, y: real, k: real)
    requires y > 0.0 && x / y < k
    ensures x < k * y
  {
  }

  /** A factor so steep that the second wait leaves the range of dates: the job is not even abandoned. */
  lemma SteepBackoffLosesJob()
    ensures var o := Backoff(60.0, 10000000000000.0, 172800.0);
      CalculateNextTryTime(o, 1, 0, 0) == At(60000) && CalculateNextTryTime(o, 2, 60000, 0) == Never
  {
  }

  // ---------------------------------------------------------------- the default options

  function PowerOfTwo(n: nat): nat { if n == 0 then 1 else PowerOfTwo(n - 1) * 2 }

  lemma {:induction false} PowIsPowerOfTwo(n: nat)
    ensures Pow(2.0, n) == PowerOfTwo(n) as real
  {
    if n > 0 { PowIsPowerOfTwo(n - 1); }
  }

  /** The default waits are whole: 60 s, 120 s, 240 s and so on, 60 * (2^n - 1) s in all. */
  lemma {:induction false} DefaultWaits(n: nat)
    ensures WholeWait(DEFAULTS, n) && TotalWholeWait(DEFAULTS, n) == 60000 * (PowerOfTwo(n) - 1)
  {
    if n > 0 {
      DefaultWaits(n - 1);
      PowIsPowerOfTwo(n - 1);
      assert Wait(DEFAULTS, n) == (60000 * PowerOfTwo(n - 1)) as real;
    }
  }

  lemma TwelveWaits()
    ensures TotalWholeWait(DEFAULTS, 12) == 245700000
  {
    DefaultWaits(12);
    assert PowerOfTwo(3) == 8 && PowerOfTwo(6) == 64 && PowerOfTwo(9) == 512 && PowerOfTwo(12) == 4096;
  }

  /** With the defaults a failing job is executed at most 12 times. */
  lemma DefaultsAtMostTwelve(creation: int, tries: seq<int>)
    requires Failing(DEFAULTS, creation, tries)
    ensures |tries| <= 12
  {
    if |tries| > 12 {
      FailingPrefix(DEFAULTS, creation, tries, 12);
      var first := tries[..12];
      TwelveWaits();
      RescheduleBound(DEFAULTS, creation, first);
    }
  }

  /** The executions of a job that fails at once whenever it is due, created at time 0. */
  function PunctualTries(n: nat): seq<int> {
    if n == 0 then [] else PunctualTries(n - 1) + [60000 * (PowerOfTwo(n - 1) - 1)]
  }

  lemma {:induction false} PunctualLength(n: nat)
    ensures |PunctualTries(n)| == n
  {
    if n > 0 { PunctualLength(n - 1); }
  }

  lemma {:induction false} PowerOfTwoMonotone(m: nat, n: nat)
    requires m <= n
    ensures 1 <= PowerOfTwo(m) <= PowerOfTwo(n)
  {
    if m < n { PowerOfTwoMonotone(m, n - 1); } else if n > 0 { PowerOfTwoMonotone(m - 1, n - 1); }
  }

  lemma PunctualReschedule(n: nat)
    requires 1 <= n <= 11
    ensures CalculateNextTryTime(DEFAULTS, n, 60000 * (PowerOfTwo(n - 1) - 1), 0) == At(60000 * (PowerOfTwo(n) - 1))
  {
    PowIsPowerOfTwo(n - 1);
    PowerOfTwoMonotone(n, 11);
    assert PowerOfTwo(6) == 64 && PowerOfTwo(11) == 2048;
    assert Wait(DEFAULTS, n) == (60000 * PowerOfTwo(n - 1)) as real;
    assert PowerOfTwo(n) == PowerOfTwo(n - 1) * 2;
  }

  /** And 12 executions do happen: a job that is polled promptly is rescheduled 11 times. */
  lemma {:induction false} TwelveReached(n: nat)
    requires n <= 12
    ensures |PunctualTries(n)| == n && Failing(DEFAULTS, 0, PunctualTries(n))
  {
    PunctualLength(n);
    if n > 0 {
      TwelveReached(n - 1);
      var tries := PunctualTries(n);
      assert tries[..n - 1] == PunctualTries(n - 1);
      if n > 1 {
        PunctualReschedule(n - 1);
        assert tries[n - 2] == PunctualTries(n - 1)[n - 2];
      }
    }
  }

  lemma {:induction false} FailingPrefix(o: Backoff, creation: int, tries: seq<int>, n: nat)
    requires Failing(o, creation, tries) && 1 <= n < |tries|
    ensures Failing(o, creation, tries[..n]) && CalculateNextTryTime(o, n, tries[n - 1], creation).At?
  {
    var init := tries[..|tries| - 1];
    if n < |init| {
      FailingPrefix(o, creation, init, n);
      assert init[..n] == tries[..n];
    }
  }
}

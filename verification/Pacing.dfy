/** When the stepped and the time-limited load start their actions.

    Time is in nanoseconds. The environment is arbitrary: `lag(i)` passes before the i-th action is
    started, and the i-th sleep lasts `late(i)` longer than asked. */
module Pacing {
  import opened Sets

  function Sum(f: nat -> nat, n: nat): nat {
    if n == 0 then 0 else Sum(f, n - 1) + f(n - 1)
  }

  lemma {:induction false} SumGrows(f: nat -> nat, m: nat, n: nat)
    requires m <= n
    ensures Sum(f, m) <= Sum(f, n)
  {
    if m == n {
    } else {
      SumGrows(f, m, n - 1);
    }
  }

  /** n sleeps of `d`, one after the other. */
  function Times(n: nat, d: nat): nat {
    if n == 0 then 0 else Times(n - 1, d) + d
  }

  lemma {:induction false} TimesIsProduct(n: nat, d: nat)
    ensures Times(n, d) == n * d
  {
    if n == 0 {
    } else {
      TimesIsProduct(n - 1, d);
    }
  }

  function Abs(x: int): nat {
    if x < 0 then -x else x
  }

  /** A sleep for no time or a negative one returns at once. */
  function Slept(duration: int): nat {
    if duration > 0 then duration else 0
  }

  // ---------- stepped load ----------

  /** The closed form: the i-th action waits for one step delay per burst before its own. */
  function SteppedStart(burstSize: int, stepDelay: int, start: int, lag: nat -> nat, late: nat -> nat, i: nat): int
    requires burstSize != 0
  {
    start + Sum(lag, i + 1) + Times(i / Abs(burstSize), Slept(stepDelay)) + Sum(late, i / Abs(burstSize))
  }

  lemma NextBurst(i: nat, b: nat)
    requires b > 0
    ensures (i + 1) / b == i / b + (if (i + 1) % b == 0 then 1 else 0)
  {
    var q, r := i / b, i % b;
    assert i == q * b + r;
    if r + 1 == b {
      assert i + 1 == (q + 1) * b;
      DivideExactly(q + 1, 0, b);
    } else {
      assert i + 1 == q * b + (r + 1);
      DivideExactly(q, r + 1, b);
    }
  }

  lemma DivideExactly(q: int, r: nat, b: nat)
    requires r < b
    ensures (q * b + r) / b == q && (q * b + r) % b == r
  {
    var q', r' := (q * b + r) / b, (q * b + r) % b;
    assert q * b + r == q' * b + r';
    assert (q - q') * b == r' - r;
    SmallMultiple(q - q', b);
  }

  lemma SmallMultiple(x: int, b: nat)
    requires 0 - b < x * b < b
    ensures x == 0
  {
  }

  lemma Scaled(x: int, y: int, c: nat)
    requires x <= y
    ensures x * c <= y * c
  {
  }

  lemma {:induction false} DividesPast(i: nat, j: nat, k: nat, b: nat)
    requires b > 0 && j >= i + k * b
    ensures j / b >= i / b + k
  {
    var q, q' := i / b, j / b;
    assert q * b <= i && j < (q' + 1) * b;
    assert (q + k) * b == q * b + k * b;
    if q' + 1 <= q + k {
      Scaled(q' + 1, q + k, b);
    }
  }

  /** The source divides by the burst size, so it needs one as soon as there is an action. */
  method SteppedExecute(n: nat, burstSize: int, stepDelay: int, start: int, lag: nat -> nat, late: nat -> nat)
    returns (launches: seq<int>)
    requires n > 0 ==> burstSize != 0
    ensures |launches| == n
    ensures forall i :: 0 <= i < n ==> launches[i] == SteppedStart(burstSize, stepDelay, start, lag, late, i)
  {
    launches := [];
    var now, sleeps := start, 0;
    for i := 0 to n
      invariant |launches| == i
      invariant forall j :: 0 <= j < i ==> launches[j] == SteppedStart(burstSize, stepDelay, start, lag, late, j)
      invariant n > 0 ==> sleeps == i / Abs(burstSize)
      invariant now == start + Sum(lag, i) + Times(sleeps, Slept(stepDelay)) + Sum(late, sleeps)
    {
      now := now + lag(i);
      launches := launches + [now];
      NextBurst(i, Abs(burstSize));
      if (i + 1) % burstSize == 0 {
        now := now + Slept(stepDelay) + late(sleeps);
        sleeps := sleeps + 1;
      }
    }
  }

  /** Actions k bursts apart start at least k step delays apart. */
  lemma BurstsApart(burstSize: int, stepDelay: int, start: int, lag: nat -> nat, late: nat -> nat, i: nat, j: nat, k: nat)
    requires burstSize > 0 && stepDelay > 0 && j >= i + k * burstSize
    ensures SteppedStart(burstSize, stepDelay, start, lag, late, j) >=
            SteppedStart(burstSize, stepDelay, start, lag, late, i) + k * stepDelay
  {
    DividesPast(i, j, k, burstSize);
    SumGrows(lag, i + 1, j + 1);
    SumGrows(late, i / burstSize, j / burstSize);
    TimesIsProduct(i / burstSize, stepDelay);
    TimesIsProduct(j / burstSize, stepDelay);
    ScaledGap(i / burstSize, j / burstSize, k, stepDelay);
  }

  lemma ScaledGap(a: nat, b: nat, k: nat, c: nat)
    requires b >= a + k
    ensures b * c >= a * c + k * c
  {
    Scaled(a + k, b, c);
  }

  ghost function Window(launches: seq<int>, from: int, length: int): set<int> {
    set i | 0 <= i < |launches| && from <= launches[i] < from + length
  }

  ghost function {:induction false} Range(from: int, length: nat): (r: set<int>)
    ensures |r| == length
    ensures forall i :: i in r <==> from <= i < from + length
  {
    if length == 0 then {} else Range(from, length - 1) + {from + length - 1}
  }

  lemma {:induction false} Least(s: set<int>, x: int) returns (m: int)
    requires x in s && forall i :: i in s ==> i >= 0
    ensures m in s && forall i :: i in s ==> m <= i
    decreases x
  {
    if y :| y in s && y < x {
      m := Least(s, y);
    } else {
      m := x;
    }
  }

  /** Any window of k step delays holds at most k bursts. */
  lemma WindowBound(launches: seq<int>, burstSize: int, stepDelay: int, start: int, lag: nat -> nat, late: nat -> nat,
                    from: int, k: nat)
    requires burstSize > 0 && stepDelay > 0
    requires forall i :: 0 <= i < |launches| ==> launches[i] == SteppedStart(burstSize, stepDelay, start, lag, late, i)
    ensures |Window(launches, from, k * stepDelay)| <= k * burstSize
  {
    var w := Window(launches, from, k * stepDelay);
    if x :| x in w {
      var m := Least(w, x);
      assert w <= Range(m, k * burstSize) by {
        forall j | j in w ensures j in Range(m, k * burstSize) {
          if j >= m + k * burstSize {
            BurstsApart(burstSize, stepDelay, start, lag, late, m, j, k);
          }
        }
      }
      SubsetSize(w, Range(m, k * burstSize));
    }
  }

  /** The bound is met: with no delays of the environment, whole windows hold whole bursts. */
  lemma WindowIsFull(launches: seq<int>, burstSize: int, stepDelay: int, start: int, k: nat)
    requires burstSize > 0 && stepDelay > 0
    requires forall i :: 0 <= i < |launches| ==>
      launches[i] == SteppedStart(burstSize, stepDelay, start, Nothing, Nothing, i)
    requires k * burstSize <= |launches|
    ensures Window(launches, start, k * stepDelay) == Range(0, k * burstSize)
  {
    forall i | 0 <= i < |launches|
      ensures start <= launches[i] < start + k * stepDelay <==> i < k * burstSize
    {
      StartInWindow(burstSize, stepDelay, start, i, k);
    }
  }

  lemma StartInWindow(burstSize: nat, stepDelay: nat, start: int, i: nat, k: nat)
    requires burstSize > 0 && stepDelay > 0
    ensures start <= SteppedStart(burstSize, stepDelay, start, Nothing, Nothing, i) < start + k * stepDelay <==>
            i < k * burstSize
  {
    BurstOf(i, k, burstSize);
    var q := i / burstSize;
    NothingSums(i + 1);
    NothingSums(q);
    TimesIsProduct(q, stepDelay);
    ScaledBelow(q, k, stepDelay);
  }

  lemma BurstOf(i: nat, k: nat, b: nat)
    requires b > 0
    ensures i < k * b <==> i / b < k
  {
    var q := i / b;
    assert q * b <= i < (q + 1) * b;
    if q < k {
      Scaled(q + 1, k, b);
    } else {
      Scaled(k, q, b);
    }
  }

  lemma ScaledBelow(q: nat, k: nat, c: nat)
    requires c > 0
    ensures 0 <= q * c && (q * c < k * c <==> q < k)
  {
    if q < k {
      Scaled(q + 1, k, c);
    } else {
      Scaled(k, q, c);
    }
  }

  function Nothing(i: nat): nat {
    0
  }

  lemma {:induction false} NothingSums(n: nat)
    ensures Sum(Nothing, n) == 0
  {
    if n == 0 {
    } else {
      NothingSums(n - 1);
    }
  }

  // ---------- time-limited load ----------

  /** Division that truncates toward zero. */
  function Quotient(a: int, n: nat): int
    requires n > 0
  {
    if a >= 0 then a / n else -((-a) / n)
  }

  /** The sleeps add up to the limit, less what the division loses: under one nanosecond an action. */
  lemma SleepsFillLimit(limit: int, n: nat)
    requires n > 0 && limit >= 0
    ensures limit - n < Times(n, Slept(Quotient(limit, n))) <= limit
  {
    var q := limit / n;
    TimesIsProduct(n, q);
    assert limit == q * n + limit % n;
  }

  /** An unvalidated, negative limit means no sleep at all. */
  lemma NegativeLimitNeverSleeps(limit: int, n: nat)
    requires n > 0 && limit < 0
    ensures Slept(Quotient(limit, n)) == 0
  {
    assert (-limit) / n >= 0;
  }

  /** The closed form: one sleep before every action but the first. */
  function EvenStart(sleepDuration: int, start: int, lag: nat -> nat, late: nat -> nat, i: nat): int {
    start + Sum(lag, i + 1) + Sum(late, i) + Times(i, Slept(sleepDuration))
  }

  /** The first action starts at once, and each later one a sleep after the one before it. */
  lemma EvenGaps(sleepDuration: int, start: int, lag: nat -> nat, late: nat -> nat, i: nat)
    ensures EvenStart(sleepDuration, start, lag, late, 0) == start + lag(0)
    ensures EvenStart(sleepDuration, start, lag, late, i + 1) ==
      EvenStart(sleepDuration, start, lag, late, i) + late(i) + (if sleepDuration > 0 then sleepDuration else 0) + lag(i + 1)
  {
    assert Sum(lag, 1) == Sum(lag, 0) + lag(0);
  }

  /** The loop: every action is followed by one sleep, and `finished` is when the last is over. */
  method LaunchAndSleep(n: nat, sleepDuration: int, start: int, lag: nat -> nat, late: nat -> nat)
    returns (launches: seq<int>, finished: int)
    ensures |launches| == n
    ensures forall i :: 0 <= i < n ==> launches[i] == EvenStart(sleepDuration, start, lag, late, i)
    ensures finished == start + Sum(lag, n) + Sum(late, n) + Times(n, Slept(sleepDuration))
  {
    launches, finished := [], start;
    for i := 0 to n
      invariant |launches| == i
      invariant finished == start + Sum(lag, i) + Sum(late, i) + Times(i, Slept(sleepDuration))
      invariant forall j :: 0 <= j < i ==> launches[j] == EvenStart(sleepDuration, start, lag, late, j)
    {
      finished := finished + lag(i);
      launches := launches + [finished];
      finished := finished + Slept(sleepDuration) + late(i);
    }
  }

  method TimeLimitedExecute(n: nat, timeLimit: int, start: int, lag: nat -> nat, late: nat -> nat)
    returns (launches: seq<int>, finished: int)
    ensures |launches| == n
    ensures n == 0 ==> finished == start
    ensures forall i :: 0 <= i < n ==> launches[i] == EvenStart(Quotient(timeLimit, n), start, lag, late, i)
    ensures n > 0 ==> finished == start + Sum(lag, n) + Sum(late, n) + Times(n, Slept(Quotient(timeLimit, n)))
    ensures n > 0 && timeLimit >= 0 ==>
      timeLimit - n < finished - start - Sum(lag, n) - Sum(late, n) <= timeLimit
  {
    if n == 0 {
      return [], start;
    }
    launches, finished := LaunchAndSleep(n, Quotient(timeLimit, n), start, lag, late);
    if timeLimit >= 0 {
      SleepsFillLimit(timeLimit, n);
    }
  }
}

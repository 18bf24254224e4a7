/**
 * The retry delay of the web watcher, in wrapping 64-bit arithmetic, and the retry counter that drives it.
 */
module Backoff {
  import opened Basics

  const BASE: int := 500_000_000
  const MAX_DELAY: int := 15_000_000_000
  const TWO_63: int := 0x8000_0000_0000_0000
  const TWO_64: int := 0x1_0000_0000_0000_0000

  function Pow2(n: nat): (p: nat)
    ensures p > 0
  {
    if n == 0 then 1 else 2 * Pow2(n - 1)
  }

  /** A signed 64-bit result. */
  function Wrap(x: int): int {
    (x + TWO_63) % TWO_64 - TWO_63
  }

  /** One shifted left in 64 bits: a count of 64 or more leaves nothing. */
  function Shifted(count: nat): int {
    if count >= 64 then 0 else Wrap(Pow2(count))
  }

  /** The delay before jitter, as computed: multiply with wrap-around, then clamp. */
  function Delay(attempt: int): int {
    var d := Wrap(BASE * Shifted(Max(attempt, 0)));
    if d > MAX_DELAY || d <= 0 then MAX_DELAY else d
  }

  /** The delay as meant: half a second doubled with each attempt, up to fifteen seconds. */
  function Meant(attempt: int): int {
    var d := 500_000_000 * Pow2(Max(attempt, 0));
    if d > 15_000_000_000 then 15_000_000_000 else d
  }

  lemma {:induction false} PowSum(m: nat, n: nat)
    ensures Pow2(m + n) == Pow2(m) * Pow2(n)
  {
    if m > 0 {
      PowSum(m - 1, n);
    }
  }

  lemma {:induction false} PowGrows(m: nat, n: nat)
    requires m <= n
    ensures Pow2(m) <= Pow2(n)
  {
    if m < n {
      PowGrows(m, n - 1);
    }
  }

  lemma WrapFits(x: int)
    requires -TWO_63 <= x < TWO_63
    ensures Wrap(x) == x
  {
  }

  lemma WrapSubtracts(x: int) returns (q: int)
    ensures Wrap(x) == x - q * TWO_64
  {
    q := (x + TWO_63) / TWO_64;
  }

  lemma Distribute(x: int, q: int, r: int, p: int)
    ensures (x - q * r) * p == x * p - q * (p * r)
  {
  }

  /** Wrapping keeps divisibility by a power of two. */
  lemma WrapMultiple(x: int, k: nat) returns (y: int)
    requires k <= 64
    ensures Wrap(x * Pow2(k)) == y * Pow2(k)
  {
    PowSum(k, 64 - k);
    Pow64();
    var q := WrapSubtracts(x * Pow2(k));
    y := x - q * Pow2(64 - k);
    Distribute(x, q, Pow2(64 - k), Pow2(k));
  }

  lemma Pow64()
    ensures Pow2(8) == 256 && Pow2(32) == 0x1_0000_0000 && Pow2(34) == 0x4_0000_0000
    ensures Pow2(62) == 0x4000_0000_0000_0000 && Pow2(63) == TWO_63 && Pow2(64) == TWO_64
  {
    PowSum(4, 4);
    PowSum(8, 8);
    PowSum(16, 16);
    PowSum(32, 2);
    PowSum(32, 32);
    assert Pow2(63) * 2 == Pow2(64);
    assert Pow2(62) * 2 == Pow2(63);
  }

  /** A multiple of a power of two above the cap is either not positive or above the cap. */
  lemma MultipleClamped(y: int, p: int)
    requires p > MAX_DELAY
    ensures y * p <= 0 || y * p > MAX_DELAY
  {
    if y > 0 {
      assert y * p >= 1 * p;
    }
  }

  /** Attempts that the multiplication can represent. */
  lemma SmallAttempt(n: nat)
    requires n <= 34
    ensures Shifted(n) == Pow2(n) && Wrap(BASE * Pow2(n)) == BASE * Pow2(n)
  {
    Pow64();
    PowGrows(n, 34);
    WrapFits(Pow2(n));
    WrapFits(BASE * Pow2(n));
  }

  /** Attempts that overflow: the wrapped product is a multiple of a power of two above the cap. */
  lemma LargeAttempt(n: nat)
    requires n >= 34
    ensures var d := Wrap(BASE * Shifted(n)); d <= 0 || d > MAX_DELAY
  {
    Pow64();
    var factor, k := 0, 34;
    if n < 64 {
      PowSum(n - 34, 34);
      factor := WrapMultiple(Pow2(n - 34), 34);
    }
    assert Shifted(n) == factor * Pow2(34);
    var y := WrapMultiple(BASE * factor, 34);
    assert BASE * factor * Pow2(34) == BASE * Shifted(n);
    MultipleClamped(y, Pow2(34));
  }

  /** For every attempt, including shifts that overflow or reach the word size, the delay is the meant one. */
  lemma DelayIsMeant(attempt: int)
    ensures Delay(attempt) == Meant(attempt)
  {
    var n := Max(attempt, 0);
    if n <= 34 {
      SmallAttempt(n);
    } else {
      Pow64();
      PowGrows(34, n);
      LargeAttempt(n);
    }
  }

  /** The random draw is always over a non-empty range, and a later attempt never waits less. */
  lemma DelayGrows(attempt: int, later: int)
    requires attempt <= later
    ensures 0 < Delay(attempt) / 2
    ensures 500_000_000 <= Delay(attempt) <= Delay(later) <= 15_000_000_000
  {
    DelayIsMeant(attempt);
    DelayIsMeant(later);
    PowGrows(Max(attempt, 0), Max(later, 0));
  }

  method NextBackoff(attempt: int) returns (delay: int)
    ensures Meant(attempt) <= delay < Meant(attempt) + Meant(attempt) / 2
  {
    DelayGrows(attempt, attempt);
    DelayIsMeant(attempt);
    var n := attempt;
    if n < 0 {
      n := 0;
    }
    var d := Wrap(BASE * Shifted(n));
    if d > MAX_DELAY || d <= 0 {
      d := MAX_DELAY;
    }
    var jitter :| 0 <= jitter < d / 2;
    delay := d + jitter;
  }

  // ----- the retry counter -----

  /** One round of the watcher: the stream was refused, or it opened and later ended. */
  datatype Round = Refused | Opened

  /** The counter after these rounds. */
  function Attempts(rounds: seq<Round>): nat
    decreases |rounds|
  {
    if rounds == [] then 0
    else if rounds[|rounds| - 1].Opened? then 1
    else Attempts(rounds[..|rounds| - 1]) + 1
  }

  /** The counter counts the rounds since the last opened stream, that one included. */
  lemma {:induction false} AttemptsCountRefusals(rounds: seq<Round>, last: nat)
    requires last < |rounds| && rounds[last].Opened?
    requires forall k :: last < k < |rounds| ==> rounds[k].Refused?
    ensures Attempts(rounds) == |rounds| - last
    decreases |rounds|
  {
    if last < |rounds| - 1 {
      AttemptsCountRefusals(rounds[..|rounds| - 1], last);
    }
  }

  lemma {:induction false} AttemptsWithoutStream(rounds: seq<Round>)
    requires forall k :: 0 <= k < |rounds| ==> rounds[k].Refused?
    ensures Attempts(rounds) == |rounds|
    decreases |rounds|
  {
    if rounds != [] {
      AttemptsWithoutStream(rounds[..|rounds| - 1]);
    }
  }

  /** How often the watcher has doubled its delay when it waits after round k. */
  function Doublings(rounds: seq<Round>, k: nat): nat
    requires k < |rounds|
  {
    if rounds[k].Opened? then 0 else Attempts(rounds[..k])
  }

  /** A wait of half a second doubled n times, up to fifteen seconds, and up to half as much again. */
  predicate Waits(wait: int, n: nat) {
    var d := Meant(n);
    d <= wait < d + d / 2
  }

  /** The stream opened in round last and was refused in every later round up to k. */
  ghost predicate RefusedSince(rounds: seq<Round>, last: nat, k: nat) {
    && last <= k < |rounds| && rounds[last].Opened?
    && forall j :: last < j <= k ==> rounds[j].Refused?
  }

  ghost predicate AlwaysRefused(rounds: seq<Round>, k: nat) {
    k < |rounds| && forall j :: 0 <= j <= k ==> rounds[j].Refused?
  }

  /** No doubling after a stream that opened, one more for each refusal since; from the start, none at first. */
  lemma DoublingsExactly(rounds: seq<Round>, k: nat)
    requires k < |rounds|
    ensures forall last: nat :: RefusedSince(rounds, last, k) ==> Doublings(rounds, k) == k - last
    ensures AlwaysRefused(rounds, k) ==> Doublings(rounds, k) == k
  {
    forall last: nat | RefusedSince(rounds, last, k)
      ensures Doublings(rounds, k) == k - last
    {
      if last < k {
        AttemptsCountRefusals(rounds[..k], last);
      }
    }
    if AlwaysRefused(rounds, k) {
      AttemptsWithoutStream(rounds[..k]);
    }
  }

  /**
   * After a stream that opened and ended the watcher waits half a second; each refusal doubles the wait, counted
   * from the last opened stream or the start; every wait is jittered by up to half of it.
   */
  method WatchDiscovery(rounds: seq<Round>) returns (waits: seq<int>)
    ensures |waits| == |rounds|
    ensures forall k: nat, last: nat :: k < |waits| && RefusedSince(rounds, last, k) ==> Waits(waits[k], k - last)
    ensures forall k: nat :: k < |waits| && AlwaysRefused(rounds, k) ==> Waits(waits[k], k)
    ensures forall k :: 0 <= k < |waits| && rounds[k].Opened? ==> 500_000_000 <= waits[k] < 750_000_000
  {
    waits := [];
    var retryAttempt := 0;
    for i := 0 to |rounds|
      invariant |waits| == i && retryAttempt == Attempts(rounds[..i])
      invariant forall k :: 0 <= k < i ==> Waits(waits[k], Doublings(rounds, k))
    {
      if rounds[i].Opened? {
        retryAttempt := 0;
      }
      var wait := NextBackoff(retryAttempt);
      waits := waits + [wait];
      retryAttempt := retryAttempt + 1;
      assert rounds[..i + 1][..i] == rounds[..i];
    }
    forall k: nat | k < |rounds|
      ensures forall last: nat :: RefusedSince(rounds, last, k) ==> Waits(waits[k], k - last)
      ensures AlwaysRefused(rounds, k) ==> Waits(waits[k], k)
      ensures rounds[k].Opened? ==> 500_000_000 <= waits[k] < 750_000_000
    {
      DoublingsExactly(rounds, k);
    }
  }
}

/** The delay before a failed delivery is tried again. */
module Backoff {

  const HOUR := 3_600_000_000_000
  const INT64_LIMIT := 0x8000_0000_0000_0000

  /** Two's complement wrap-around of a signed 64-bit duration. */
  function Wrap64(x: int): int {
    (x + INT64_LIMIT) % (2 * INT64_LIMIT) - INT64_LIMIT
  }

  function Pow2(n: nat): nat {
    if n == 0 then 1 else 2 * Pow2(n - 1)
  }

  function Min(a: int, b: int): int {
    if a <= b then a else b
  }

  /** The doubling loop, started at `backoff` with `steps` rounds left. */
  function Doubled(backoff: int, steps: nat): int
    decreases steps
  {
    if steps == 0 then backoff
    else
      var next := Wrap64(2 * backoff);
      if next >= HOUR then HOUR else Doubled(next, steps - 1)
  }

  function Delay(retryDelay: int, attempts: nat): int {
    Doubled(retryDelay, if attempts == 0 then 0 else attempts - 1)
  }

  /** True when none of the doublings actually carried out leaves the 64-bit range. */
  predicate InRange(backoff: int, steps: nat)
    decreases steps
  {
    steps == 0 ||
    (Wrap64(2 * backoff) == 2 * backoff && (2 * backoff >= HOUR || InRange(2 * backoff, steps - 1)))
  }

  method Compute(retryDelay: int, attempts: nat) returns (backoff: int)
    ensures backoff == Delay(retryDelay, attempts)
  {
    backoff := retryDelay;
    var step := 1;
    while step < attempts
      invariant 1 <= step
      invariant step <= attempts || step == 1
      invariant Delay(retryDelay, attempts) == Doubled(backoff, if attempts <= step then 0 else attempts - step)
    {
      backoff := Wrap64(backoff * 2);
      if backoff >= HOUR {
        backoff := HOUR;
        break;
      }
      step := step + 1;
    }
  }

  lemma {:induction false} Pow2AtLeastTwo(n: nat)
    requires n >= 1
    ensures Pow2(n) >= 2
  {
    if n > 1 { Pow2AtLeastTwo(n - 1); }
  }

  lemma ScaleUp(b: nat, p: nat)
    requires p >= 2
    ensures b * p >= 2 * b
  {
    assert b * p == b * 2 + b * (p - 2);
  }

  lemma Reassociate(b: nat, p: nat)
    ensures b * (2 * p) == (2 * b) * p
  {}

  lemma {:induction false} DoubledClosedForm(b: int, n: nat)
    requires 0 < b < INT64_LIMIT / 2
    requires b <= HOUR || n >= 1
    ensures Doubled(b, n) == Min(b * Pow2(n), HOUR)
    decreases n
  {
    if n > 0 {
      assert Wrap64(2 * b) == 2 * b;
      Pow2AtLeastTwo(n);
      ScaleUp(b, Pow2(n));
      Reassociate(b, Pow2(n - 1));
      if 2 * b < HOUR {
        DoubledClosedForm(2 * b, n - 1);
      }
    }
  }

  // Every 64-bit first delay

  lemma QuotientUnique(m: int, q: int, r: int)
    requires 0 <= r < m
    ensures (m * q + r) % m == r
  {
    var x := m * q + r;
    assert x == m * (x / m) + x % m;
    var d := x / m - q;
    assert m * d == r - x % m;
    assert d >= 1 ==> m * d >= m;
    assert d <= -1 ==> m * d <= -m;
  }

  lemma ModShift(a: int, t: int, m: int)
    requires m > 0
    ensures (a + m * t) % m == a % m
  {
    assert a + m * t == m * (a / m + t) + a % m;
    QuotientUnique(m, a / m + t, a % m);
  }

  lemma WrapShift(x: int, t: int)
    ensures Wrap64(x + 2 * INT64_LIMIT * t) == Wrap64(x)
  {
    ModShift(x + INT64_LIMIT, t, 2 * INT64_LIMIT);
    assert x + 2 * INT64_LIMIT * t + INT64_LIMIT == x + INT64_LIMIT + 2 * INT64_LIMIT * t;
  }

  lemma ScaledShift(x: int, m: int, t: int, p: int)
    ensures (x + m * t) * p == x * p + m * (t * p)
  {
    assert (m * t) * p == m * (t * p);
  }

  /** Wrapping on the way makes no difference to the wrapped product. */
  lemma WrapProduct(x: int, p: int)
    ensures Wrap64(Wrap64(x) * p) == Wrap64(x * p)
  {
    var m := 2 * INT64_LIMIT;
    var t := -((x + INT64_LIMIT) / m);
    assert Wrap64(x) == x + m * t;
    ScaledShift(x, m, t, p);
    WrapShift(x * p, t * p);
  }

  /** One of the doublings lands at the cap or above. */
  predicate Capped(b: int, n: nat) {
    exists j: nat | 1 <= j <= n :: Wrap64(b * Pow2(j)) >= HOUR
  }

  lemma CappedNext(b: int, n: nat)
    requires n > 0
    ensures Capped(b, n) <==> Wrap64(2 * b) >= HOUR || Capped(Wrap64(2 * b), n - 1)
  {
    assert Pow2(1) == 2 * Pow2(0) == 2;
    forall j: nat | j < n ensures Wrap64(Wrap64(2 * b) * Pow2(j)) == Wrap64(b * Pow2(j + 1)) {
      WrapProduct(2 * b, Pow2(j));
      Doubling(b, Pow2(j));
    }
    if j: nat :| 1 <= j <= n && Wrap64(b * Pow2(j)) >= HOUR {
      assert j > 1 ==> Wrap64(Wrap64(2 * b) * Pow2(j - 1)) >= HOUR;
    }
    if j: nat :| 1 <= j <= n - 1 && Wrap64(Wrap64(2 * b) * Pow2(j)) >= HOUR {
      assert Wrap64(b * Pow2(j + 1)) >= HOUR;
    }
    if Wrap64(2 * b) >= HOUR {
      assert Wrap64(b * Pow2(1)) >= HOUR;
    }
  }

  lemma Doubling(b: int, p: int)
    ensures (2 * b) * p == b * (2 * p)
  {}

  /** The loop for every 64-bit first delay: the cap once a doubling lands at it or above, the wrapped
      power of two otherwise. */
  lemma {:induction false} DoubledMeaning(b: int, n: nat)
    requires -INT64_LIMIT <= b < INT64_LIMIT
    ensures Doubled(b, n) == if Capped(b, n) then HOUR else Wrap64(b * Pow2(n))
    decreases n
  {
    if n > 0 {
      CappedNext(b, n);
      var next := Wrap64(2 * b);
      if next < HOUR {
        DoubledMeaning(next, n - 1);
        WrapProduct(2 * b, Pow2(n - 1));
        Doubling(b, Pow2(n - 1));
      }
    }
  }

  /** The delay is the capped power of two exactly when the first delay is already within the cap or a
      doubling lands at the cap or above; below half the range any doubling does. */
  lemma ClosedForm(retryDelay: int, attempts: nat)
    requires 0 < retryDelay < INT64_LIMIT && attempts >= 1
    ensures Delay(retryDelay, attempts) == Min(retryDelay * Pow2(attempts - 1), HOUR)
            <==> retryDelay <= HOUR || Capped(retryDelay, attempts - 1)
    ensures HOUR < retryDelay < INT64_LIMIT / 2 ==> (Capped(retryDelay, attempts - 1) <==> attempts >= 2)
  {
    var n := attempts - 1;
    if retryDelay <= HOUR {
      DoubledClosedForm(retryDelay, n);
    } else {
      CappedAbove(retryDelay, n);
      if retryDelay < INT64_LIMIT / 2 {
        CappedBelowHalf(retryDelay, n);
      }
      ScaledAbove(retryDelay, n);
    }
  }

  lemma ScaledAbove(b: nat, n: nat)
    ensures b * Pow2(n) >= b
  {
    if n > 0 {
      Pow2AtLeastTwo(n);
      ScaleUp(b, Pow2(n));
    }
  }

  /** Above the cap the loop ends at the cap exactly when a doubling lands there or above. */
  lemma CappedAbove(b: int, n: nat)
    requires HOUR < b < INT64_LIMIT
    ensures Doubled(b, n) == HOUR <==> Capped(b, n)
  {
    DoubledMeaning(b, n);
    if n > 0 {
      LastDoubling(b, n);
    } else {
      assert Pow2(0) == 1 && Wrap64(b) == b;
    }
  }

  lemma LastDoubling(b: int, n: nat)
    requires n > 0
    ensures Wrap64(b * Pow2(n)) >= HOUR ==> Capped(b, n)
  {}

  lemma CappedBelowHalf(b: int, n: nat)
    requires HOUR < b < INT64_LIMIT / 2
    ensures Capped(b, n) <==> n >= 1
  {
    if n > 0 { CappedNext(b, n); }
  }

  /** Later attempts never wait less, exactly when the first delay is within the cap. */
  lemma Monotone(retryDelay: int)
    requires 0 < retryDelay < INT64_LIMIT
    ensures (forall a: nat | a >= 1 :: Delay(retryDelay, a) <= Delay(retryDelay, a + 1)) <==> retryDelay <= HOUR
  {
    if retryDelay <= HOUR {
      forall a: nat | a >= 1 ensures Delay(retryDelay, a) <= Delay(retryDelay, a + 1) {
        ClosedForm(retryDelay, a);
        ClosedForm(retryDelay, a + 1);
        Reassociate(retryDelay, Pow2(a - 1));
        assert Pow2(a) == 2 * Pow2(a - 1);
        ScaleUp(retryDelay * Pow2(a - 1), 2);
      }
    } else {
      assert Delay(retryDelay, 1) == retryDelay;
      assert Doubled(retryDelay, 1) == if Wrap64(2 * retryDelay) >= HOUR then HOUR else Doubled(Wrap64(2 * retryDelay), 0);
      assert Delay(retryDelay, 1) > Delay(retryDelay, 1 + 1);
    }
  }

  lemma {:induction false} CappedInRange(b: int, n: nat)
    requires 0 < b < INT64_LIMIT / 2
    ensures InRange(b, n)
    decreases n
  {
    if n > 0 && 2 * b < HOUR { CappedInRange(2 * b, n - 1); }
  }

  /** No doubling overflows, exactly when the first one does not or none is made. */
  lemma NoOverflow(retryDelay: int, attempts: nat)
    requires 0 < retryDelay < INT64_LIMIT
    ensures InRange(retryDelay, if attempts == 0 then 0 else attempts - 1) <==> attempts <= 1 || retryDelay < INT64_LIMIT / 2
  {
    if retryDelay < INT64_LIMIT / 2 {
      CappedInRange(retryDelay, if attempts == 0 then 0 else attempts - 1);
    } else {
      assert Wrap64(2 * retryDelay) != 2 * retryDelay;
    }
  }

  /** Above half the range the wait can even be negative. */
  lemma OverflowGoesNegative()
    ensures Delay(INT64_LIMIT / 2, 2) < 0
  {
    assert Wrap64(INT64_LIMIT) == -INT64_LIMIT;
    assert Doubled(INT64_LIMIT / 2, 1) == Doubled(-INT64_LIMIT, 0);
  }

  /** A configured delay of a millisecond or more gives every wait at least a millisecond. */
  lemma AtLeastFloor(retryDelay: int, attempts: nat, floor: int)
    requires 0 < floor <= retryDelay < INT64_LIMIT / 2 && floor <= HOUR
    ensures Delay(retryDelay, attempts) >= floor
  {
    if attempts >= 2 {
      DoubledClosedForm(retryDelay, attempts - 1);
      Pow2AtLeastTwo(attempts - 1);
      ScaleUp(retryDelay, Pow2(attempts - 1));
    }
  }

  /** No wait is ever shorter than the floor, exactly when the first doubling does not overflow. */
  lemma FloorExactly(retryDelay: int, floor: int)
    requires 0 < floor <= retryDelay < INT64_LIMIT && floor <= HOUR
    ensures (forall attempts: nat :: Delay(retryDelay, attempts) >= floor) <==> retryDelay < INT64_LIMIT / 2
  {
    if retryDelay < INT64_LIMIT / 2 {
      forall attempts: nat ensures Delay(retryDelay, attempts) >= floor {
        AtLeastFloor(retryDelay, attempts, floor);
      }
    } else {
      assert Doubled(retryDelay, 1) == Doubled(Wrap64(2 * retryDelay), 0) < 0;
      assert Delay(retryDelay, 2) < floor;
    }
  }
}

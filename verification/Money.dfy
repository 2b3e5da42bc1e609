/** Money arithmetic shared by ingress and settlement.

    Python's `Decimal` works with a 28-digit, half-even context; `quantize` then
    rounds half-up.  Odds are counted in ten-thousandths ("ticks"), money in cents.
  */
module Money {

  const TICKS_PER_UNIT: nat := 10000

  function Pow10(k: nat): (p: nat)
    ensures p > 0
  {
    if k == 0 then 1 else 10 * Pow10(k - 1)
  }

  lemma {:induction false} Pow10Sum(a: nat, b: nat)
    ensures Pow10(a + b) == Pow10(a) * Pow10(b)
  {
    if a > 0 {
      Pow10Sum(a - 1, b);
      assert Pow10(a + b) == 10 * (Pow10(a - 1) * Pow10(b)) == Pow10(a) * Pow10(b);
    }
  }

  // Decimal.quantize(..., rounding=ROUND_HALF_UP) of num/den: the integer r with
  // r - 1/2 <= num/den < r + 1/2.
  function HalfUp(num: nat, den: nat): (r: nat)
    requires den > 0
    ensures 2 * den * r <= 2 * num + den < 2 * den * r + 2 * den
  {
    (2 * num + den) / (2 * den)
  }

  lemma HalfUpUnique(num: nat, den: nat, r: nat)
    requires den > 0
    requires 2 * den * r <= 2 * num + den < 2 * den * r + 2 * den
    ensures r == HalfUp(num, den)
  {
    var h := HalfUp(num, den);
    if h < r {
      MulMonotone(2 * den, h + 1, r);
    } else if r < h {
      MulMonotone(2 * den, r + 1, h);
    }
  }

  lemma MulMonotone(c: nat, a: int, b: int)
    requires a <= b
    ensures c * a <= c * b
  {
  }

  // The context rounding of Python's decimal module, ROUND_HALF_EVEN.
  function HalfEven(num: nat, den: nat): (r: nat)
    requires den > 0
  {
    var q, rem := num / den, num % den;
    if 2 * rem < den || (2 * rem == den && q % 2 == 0) then q else q + 1
  }

  lemma HalfEvenIsNearest(num: nat, den: nat)
    requires den > 0
    ensures 2 * num - den <= 2 * (den * HalfEven(num, den)) <= 2 * num + den
    ensures num % den == 0 ==> den * HalfEven(num, den) == num
  {
    var q, rem := num / den, num % den;
    Distribute(den, q, 1);
    EuclideanDivision(num, den);
  }

  lemma EuclideanDivision(num: nat, den: nat)
    requires den > 0
    ensures den * (num / den) + num % den == num && num % den < den
  {
  }

  // The decimal exponent e of num/den: 10^e <= num/den < 10^(e+1).
  function Exponent(num: nat, den: nat): (e: nat)
    requires 0 < den <= num
    ensures Pow10(e) * den <= num < Pow10(e + 1) * den
    decreases num - den
  {
    if num < 10 * den then
      0
    else
      var e := Exponent(num, 10 * den);
      assert Pow10(e + 1) * den == Pow10(e) * (10 * den);
      assert Pow10(e + 2) * den == Pow10(e + 1) * (10 * den);
      e + 1
  }

  // ------------------------------------------------------------------ ingress

  // Half-up rounding of payout/stake to four places, taken once on the exact quotient.
  function OddsTicks(stake: nat, payout: nat): (ticks: nat)
    requires stake > 0
  {
    HalfUp(TICKS_PER_UNIT * payout, stake)
  }

  // What decimal_odds computes: payout / stake is first rounded half-even to 28
  // significant digits (a 28-digit coefficient over 10^(27-e)), then quantized
  // half-up to four places.
  function DecimalOdds(stake: nat, payout: nat): (ticks: nat)
    requires 0 < stake <= payout < Pow10(18)
  {
    var e := Exponent(payout, stake);
    ExponentSmall(stake, payout);
    var scale := Pow10(27 - e);
    var coefficient := HalfEven(payout * scale, stake);
    HalfUp(TICKS_PER_UNIT * coefficient, scale)
  }

  lemma {:induction false} Pow10Monotone(a: nat, b: nat)
    requires a <= b
    ensures Pow10(a) <= Pow10(b)
  {
    Pow10Sum(a, b - a);
    assert Pow10(a) * Pow10(b - a) >= Pow10(a);
  }

  lemma ExponentSmall(stake: nat, payout: nat)
    requires 0 < stake <= payout < Pow10(18)
    ensures Exponent(payout, stake) <= 17
  {
    var e := Exponent(payout, stake);
    MulMonotone(Pow10(e), 1, stake);
    if e >= 18 {
      Pow10Monotone(18, e);
    }
  }

  // Rounding twice (28 digits half-even, then four places half-up) gives the same
  // odds as rounding the exact quotient once: the first rounding can neither reach
  // nor cross a half-way point of the second.
  lemma DoubleRoundingHarmless(stake: nat, payout: nat)
    requires 0 < stake <= payout < Pow10(18)
    ensures DecimalOdds(stake, payout) == OddsTicks(stake, payout)
  {
    var e := Exponent(payout, stake);
    ExponentSmall(stake, payout);
    var scale := Pow10(27 - e);
    var m := HalfEven(payout * scale, stake);
    var k := OddsTicks(stake, payout);
    ScaleDominatesStake(stake, payout, e);
    var u := 20000 * payout - 2 * stake * k + stake;
    assert 0 <= u < 2 * stake;
    if u == 0 {
      TieIsExact(stake, payout, scale, k, e);
    } else {
      OffTieKeepsSide(stake, payout, scale, m, k);
    }
    assert 2 * scale * k <= 2 * (TICKS_PER_UNIT * m) + scale < 2 * scale * k + 2 * scale;
    HalfUpUnique(TICKS_PER_UNIT * m, scale, k);
  }

  lemma ScaleDominatesStake(stake: nat, payout: nat, e: nat)
    requires 0 < stake <= payout < Pow10(18)
    requires e <= 17 && Pow10(e) * stake <= payout
    ensures 10000 * stake < Pow10(27 - e)
    ensures Pow10(27 - e) % 20000 == 0
  {
    var a, b := Pow10(e), Pow10(27 - e);
    Pow10Sum(e, 27 - e);
    ScaleBound(a, b, stake, payout);
    Pow10Sum(22 - e, 5);
    DivisibleBy20000(Pow10(22 - e), b);
  }

  lemma ScaleBound(a: nat, b: nat, stake: nat, payout: nat)
    requires a > 0 && a * stake <= payout < Pow10(18)
    requires a * b == Pow10(27)
    ensures 10000 * stake < b
  {
    Pow10Sum(4, 18);
    Pow10Monotone(22, 27);
    if b <= 10000 * stake {
      MulMonotone(a, b, 10000 * stake);
      Swap(a, 10000, stake);
    }
  }

  lemma DivisibleBy20000(rest: nat, b: nat)
    requires b == rest * Pow10(5)
    ensures b % 20000 == 0
  {
    assert Pow10(5) == 100000;
    assert b == 20000 * (5 * rest);
  }

  lemma Swap(a: int, b: int, c: int)
    ensures a * (b * c) == b * (a * c)
  {
  }

  lemma Distribute(a: int, b: int, c: int)
    ensures a * (b + c) == a * b + a * c
    ensures a * (b - c) == a * b - a * c
  {
  }

  // A quotient that is exactly a half-way point has few digits, so the 28-digit
  // rounding leaves it unchanged.
  lemma TieIsExact(stake: nat, payout: nat, scale: nat, k: nat, e: nat)
    requires stake > 0 && scale > 0 && scale % 20000 == 0
    requires 20000 * payout == 2 * stake * k - stake
    ensures 20000 * HalfEven(payout * scale, stake) == 2 * scale * k - scale
  {
    var unit := scale / 20000;
    assert scale == 20000 * unit;
    var t := (2 * k - 1) * unit;
    TieProduct(stake, payout, unit, k, t);
    MulMod(stake, t);
    var m := HalfEven(payout * scale, stake);
    HalfEvenIsNearest(payout * scale, stake);
    assert stake * m == stake * t;
    MulCancel(stake, m, t);
    assert 20000 * t == (2 * k - 1) * scale;
  }

  lemma TieProduct(stake: nat, payout: nat, unit: nat, k: nat, t: int)
    requires 20000 * payout == 2 * stake * k - stake && t == (2 * k - 1) * unit
    ensures payout * (20000 * unit) == stake * t
  {
    assert 20000 * payout == stake * (2 * k - 1);
    assert payout * (20000 * unit) == (20000 * payout) * unit;
    assert stake * (2 * k - 1) * unit == stake * ((2 * k - 1) * unit);
  }

  lemma MulMod(d: nat, t: int)
    requires d > 0
    ensures d * t % d == 0
  {
    assert d * t / d == t by {
      var q, r := d * t / d, d * t % d;
      assert d * t == d * q + r;
      assert r == d * (t - q);
      if t - q < 0 {
        MulMonotone(d, t - q, -1);
      } else if t - q > 0 {
        MulMonotone(d, 1, t - q);
      }
    }
  }

  lemma MulCancel(d: nat, a: int, b: int)
    requires d > 0 && d * a == d * b
    ensures a == b
  {
    if a < b {
      MulMonotone(d, a + 1, b);
    } else if b < a {
      MulMonotone(d, b + 1, a);
    }
  }

  // Off a half-way point the distance to it is at least 1/(20000*stake), far more
  // than the error of a 28-digit rounding.
  lemma OffTieKeepsSide(stake: nat, payout: nat, scale: nat, m: nat, k: nat)
    requires stake > 0 && 10000 * stake < scale
    requires m == HalfEven(payout * scale, stake)
    requires 0 < 20000 * payout - 2 * stake * k + stake < 2 * stake
    ensures 2 * scale * k <= 20000 * m + scale < 2 * scale * k + 2 * scale
  {
    var sm, zk := stake * m, scale * k;
    var ps, szk, ss := payout * scale, stake * zk, stake * scale;
    CoefficientError(ps, stake, m);
    ScaledSides(stake, payout, scale, k, ps, szk, ss);
    CancelStake(stake, scale, m, zk, ps, sm, szk, ss);
    DoubleAssoc(scale, k, zk);
  }

  lemma DoubleAssoc(a: int, b: int, ab: int)
    requires ab == a * b
    ensures 2 * a * b == 2 * ab
  {
  }

  lemma CoefficientError(ps: nat, stake: nat, m: nat)
    requires stake > 0 && m == HalfEven(ps, stake)
    ensures 2 * ps - stake <= 2 * (stake * m) <= 2 * ps + stake
  {
    HalfEvenIsNearest(ps, stake);
  }

  lemma ScaledSides(stake: nat, payout: nat, scale: nat, k: nat, ps: int, szk: int, ss: int)
    requires ps == payout * scale && szk == stake * (scale * k) && ss == stake * scale
    requires 0 < 20000 * payout - 2 * stake * k + stake < 2 * stake
    ensures 2 * szk - ss + scale <= 20000 * ps <= 2 * szk + ss - scale
  {
    var sk := stake * k;
    assert 2 * stake * k == 2 * sk;
    MulMonotone(scale, 2 * sk - stake + 1, 20000 * payout);
    MulMonotone(scale, 20000 * payout, 2 * sk + stake - 1);
    Swap(scale, stake, k);
    ScaleOut(scale, sk, stake, ss, szk);
    Swap(scale, 20000, payout);
  }

  lemma ScaleOut(scale: int, sk: int, stake: int, ss: int, szk: int)
    requires scale * sk == szk && ss == stake * scale
    ensures scale * (2 * sk - stake + 1) == 2 * szk - ss + scale
    ensures scale * (2 * sk + stake - 1) == 2 * szk + ss - scale
  {
    Distribute(scale, 2 * sk, stake - 1);
    Distribute(scale, stake, 1);
    Swap(scale, 2, sk);
  }

  lemma CancelStake(stake: nat, scale: nat, m: nat, zk: nat, ps: int, sm: int, szk: int, ss: int)
    requires stake > 0 && 10000 * stake < scale
    requires sm == stake * m && szk == stake * zk && ss == stake * scale
    requires 2 * ps - stake <= 2 * sm <= 2 * ps + stake
    requires 2 * szk - ss + scale <= 20000 * ps <= 2 * szk + ss - scale
    ensures 2 * zk - scale <= 20000 * m < 2 * zk + scale
  {
    Swap(stake, 20000, m);
    Swap(stake, 2, zk);
    Distribute(stake, 2 * zk, scale);
    if 20000 * m < 2 * zk - scale {
      MulMonotone(stake, 20000 * m, 2 * zk - scale);
    }
    if 2 * zk + scale <= 20000 * m {
      MulMonotone(stake, 2 * zk + scale, 20000 * m);
    }
  }

  // --------------------------------------------------------------- settlement

  function Times(a: nat, b: nat): nat {
    a * b
  }

  // Multiplication in the 28-digit context: products that need more digits are
  // rounded half-even to 28 significant ones.
  function Round28(n: nat): (r: nat)
    ensures n < Pow10(28) ==> r == n
  {
    if n < Pow10(28) then
      n
    else
      var e := Exponent(n, 1);
      ExponentLarge(n);
      Times(HalfEven(n, Pow10(e - 27)), Pow10(e - 27))
  }

  lemma ExponentLarge(n: nat)
    requires Pow10(28) <= n
    ensures Exponent(n, 1) >= 28
  {
    var e := Exponent(n, 1);
    if e < 28 {
      Pow10Monotone(e + 1, 28);
    }
  }

  // calculate_payout_cents: stake times odds, rounded half-up to whole cents.
  function PayoutCents(stake: nat, odds: nat): (payout: nat)
  {
    HalfUp(Round28(stake * odds), TICKS_PER_UNIT)
  }

  // Every stake ingress admits (below 10^18 cents) and every odds value the event
  // schema admits (ten digits) multiply exactly in the 28-digit context.
  lemma PayoutIsExactProduct(stake: nat, odds: nat)
    requires stake < Pow10(18) && odds < Pow10(10)
    ensures PayoutCents(stake, odds) == HalfUp(stake * odds, TICKS_PER_UNIT)
  {
    Pow10Sum(18, 10);
    ProductBelow(stake, odds, Pow10(18), Pow10(10));
  }

  lemma ProductBelow(a: nat, b: nat, x: nat, y: nat)
    requires a < x && b < y
    ensures a * b < x * y
  {
    MulMonotone(a, b, y);
    MulMonotone(y, a, x - 1);
    Distribute(y, x, 1);
  }

  // The payout that settlement derives from the odds that ingress derived.
  function SettledPayout(stake: nat, payout: nat): (settled: nat)
    requires stake > 0
  {
    HalfUp(stake * OddsTicks(stake, payout), TICKS_PER_UNIT)
  }

  lemma SettledPayoutBound(stake: nat, payout: nat)
    requires stake > 0
    ensures -(stake + 10000) <= 20000 * (SettledPayout(stake, payout) - payout) <= stake + 10000
  {
    var o := OddsTicks(stake, payout);
    assert 2 * stake * o == 2 * (stake * o);
  }

  // Dividing into odds and multiplying back loses nothing for every payout exactly
  // when the stake is at most 10000 cents.
  lemma ExactForAllPayoutsIff(stake: nat)
    requires stake > 0
    ensures (forall payout: nat :: stake <= payout ==> SettledPayout(stake, payout) == payout) <==> stake <= 10000
    ensures (forall payout: nat :: stake <= payout ==> SettledPayout(stake, payout) <= payout) <==> stake <= 10000
  {
    if stake <= 10000 {
      forall payout: nat | stake <= payout
        ensures SettledPayout(stake, payout) == payout
      {
        SmallStakeIsExact(stake, payout);
      }
    } else {
      var p := OverpaidWitness(stake);
    }
  }

  lemma SmallStakeIsExact(stake: nat, payout: nat)
    requires 0 < stake <= 10000
    ensures SettledPayout(stake, payout) == payout
  {
    SettledPayoutBound(stake, payout);
    if stake == 10000 {
      HalfUpUnique(10000 * payout, 10000, payout);
      HalfUpUnique(stake * payout, 10000, payout);
    }
  }

  // For every larger stake some payout comes back larger than it was.  Payouts
  // stake, stake + 1, ... map to consecutive odds until the accumulated slope error
  // reaches half a tick at stake + d.  Either the payout just below d is already
  // overpaid, or stake + d is underpaid and its mirror image 2*stake - d is overpaid.
  lemma OverpaidWitness(stake: nat) returns (payout: nat)
    requires stake > 10000
    ensures stake <= payout <= 2 * stake && payout < SettledPayout(stake, payout)
  {
    hide HalfUp;
    var d, err := HalfTickStep(stake, stake - 10000);
    StepIsSmall(stake - 10000, d, err, stake);
    OddsJustBelow(stake, d, err);
    payout := stake + d - 1;
    if SettledPayout(stake, payout) <= payout {
      MirrorIsOverpaid(stake, d, err);
      payout := 2 * stake - d;
    }
  }

  lemma StepIsSmall(eps: nat, d: nat, err: nat, stake: nat)
    requires 0 < eps && 1 <= d && err == eps * (d - 1) && 2 * err <= stake
    ensures d <= stake + 1 && (2 <= stake ==> d <= stake)
  {
    MulMonotone(d - 1, 1, eps);
  }

  // Below half a tick above the stake the odds are 1.0000.
  lemma EvenOdds(stake: nat, payout: nat)
    requires 0 < stake <= payout && 20000 * (payout - stake) < stake
    ensures OddsTicks(stake, payout) == 10000
  {
    HalfUpUnique(10000 * payout, stake, 10000);
  }

  // The least payout with higher odds already comes back larger, once the stake is not
  // tiny.
  lemma LeastOverpaid(stake: nat) returns (payout: nat)
    requires 30000 <= stake
    ensures payout == stake + (stake + 19999) / 20000 && payout < SettledPayout(stake, payout)
  {
    var d := (stake + 19999) / 20000;
    payout := stake + d;
    assert stake <= 20000 * d < stake + 20000;
    HalfUpUnique(10000 * payout, stake, 10001);
    assert stake * 10001 == 10001 * stake;
    var settled := SettledPayout(stake, payout);
    assert 2 * 10001 * stake + 10000 < 20000 * (settled + 1);
  }

  // An overpaid payout below a limit exists as soon as some payout below it has odds
  // above 1.0000.
  lemma OverpaidBelow(stake: nat, limit: nat) returns (payout: nat)
    requires 10000 < stake && 100000 <= limit && stake <= 20000 * (limit - 1 - stake)
    ensures stake <= payout < limit && payout <= 2 * stake && payout < SettledPayout(stake, payout)
  {
    if 2 * stake < limit {
      payout := OverpaidWitness(stake);
    } else {
      payout := LeastOverpaid(stake);
    }
  }

  lemma HalfTickStep(stake: nat, eps: nat) returns (d: nat, err: nat)
    requires eps > 0
    ensures 1 <= d && err == eps * (d - 1)
    ensures 2 * err <= stake < 2 * err + 2 * eps
  {
    var q := stake / (2 * eps);
    d, err := q + 1, eps * q;
    EuclideanDivision(stake, 2 * eps);
    DoubleAssoc(eps, q, err);
  }

  lemma OddsJustBelow(stake: nat, d: nat, err: nat)
    requires stake > 10000 && 1 <= d
    requires err == (stake - 10000) * (d - 1) && 2 * err <= stake
    ensures stake * (10000 + d - 1) == 10000 * (stake + d - 1) + err
    ensures OddsTicks(stake, stake + d - 1) == 10000 + d - 1
  {
    var o := 10000 + d - 1;
    Distribute(d - 1, stake, 10000);
    Distribute(stake, 10000, d - 1);
    assert 2 * stake * o == 2 * (stake * o);
    HalfUpUnique(10000 * (stake + d - 1), stake, o);
  }

  lemma MirrorIsOverpaid(stake: nat, d: nat, err: nat)
    requires stake > 10000 && 1 <= d <= stake
    requires err == (stake - 10000) * (d - 1)
    requires 2 * err <= stake < 2 * err + 2 * (stake - 10000)
    requires SettledPayout(stake, stake + d - 1) <= stake + d - 1
    ensures 2 * stake - d < SettledPayout(stake, 2 * stake - d)
  {
    OddsJustBelow(stake, d, err);
    assert err < 5000;
    var mirror, o := 2 * stake - d, 20001 - d;
    if d <= 20000 {
      MirrorProduct(stake, d, err);
      MirrorOdds(stake, d, err, o);
      HalfUpUnique(stake * o, 10000, mirror + 1);
    } else {
      MulMonotone(d - 1, 1, stake - 10000);
    }
  }

  lemma MirrorProduct(stake: nat, d: nat, err: nat)
    requires stake > 10000 && 1 <= d
    requires err == (stake - 10000) * (d - 1)
    ensures stake * (20001 - d) == 10000 * (2 * stake - d + 1) - err
  {
    Distribute(d - 1, stake, 10000);
    Distribute(stake, 20000, d - 1);
  }

  lemma MirrorOdds(stake: nat, d: nat, err: nat, o: nat)
    requires stake > 10000 && 1 <= d <= stake && o == 20001 - d
    requires 2 * err <= stake < 2 * err + 2 * (stake - 10000)
    requires stake * o == 10000 * (2 * stake - d + 1) - err
    ensures OddsTicks(stake, 2 * stake - d) == o
  {
    DoubleAssoc(stake, o, stake * o);
    HalfUpUnique(10000 * (2 * stake - d), stake, o);
  }
}

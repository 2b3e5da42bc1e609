/** The betting endpoint: validated amounts become cents and odds, the idempotency key is
    derived from user, match and time, and the event goes out as JSON that the risk engine
    reads.  Hash functions are parameters.
  */
module Ingress {
  import opened Wrappers
  import opened JsonStrings
  import opened JsonObjects
  import opened BetSchema
  import opened Money
  import opened RiskBooks

  // --------------------------------------------------------------------- money

  // coefficient * 10^exponent, not negative.
  datatype Decimal = Decimal(coefficient: nat, exponent: int)

  // The amount in cents when it is a whole number of cents.
  function ExactCents(d: Decimal): Option<nat> {
    if d.exponent >= -2 then
      Some(d.coefficient * Pow10(d.exponent + 2))
    else
      var unit := Pow10(-2 - d.exponent);
      if d.coefficient % unit == 0 then Some(d.coefficient / unit) else None
  }

  // decimal_money_to_cents: times one hundred in the 28-digit context, then quantized
  // half-up to a whole number.
  function DecimalMoneyToCents(d: Decimal): nat {
    var product := Round28(d.coefficient * 100);
    if d.exponent >= 0 then Times(product, Pow10(d.exponent)) else HalfUp(product, Pow10(-d.exponent))
  }

  // A validated amount has at most two decimals, trailing zeros apart, and at most 16
  // digits before the point.
  predicate ValidAmount(d: Decimal) {
    ExactCents(d).Some? && 0 < ExactCents(d).value < Pow10(18)
  }

  // The amount times one hundred, as a whole number, if it is one.
  lemma ExactCentsMeaning(d: Decimal, cents: nat)
    ensures ExactCents(d) == Some(cents) <==>
            if d.exponent >= 0 then cents == d.coefficient * 100 * Pow10(d.exponent)
            else cents * Pow10(-d.exponent) == d.coefficient * 100
  {
    Hundred();
    if d.exponent >= 0 {
      Pow10Sum(d.exponent, 2);
      hide Pow10;
      Times3(d.coefficient, Pow10(d.exponent), 100);
    } else if d.exponent >= -2 {
    } else {
      var unit := Pow10(-2 - d.exponent);
      Pow10Sum(-2 - d.exponent, 2);
      hide Pow10;
      CentsOfUnits(d.coefficient, unit, cents);
    }
  }

  lemma CentsOfUnits(c: nat, unit: nat, cents: nat)
    requires unit > 0
    ensures (c % unit == 0 && c / unit == cents) <==> cents * (unit * 100) == c * 100
  {
    EuclideanDivision(c, unit);
    Times3(cents, unit, 100);
    if cents * (unit * 100) == c * 100 {
      assert c == unit * cents;
      MulMod(unit, cents);
      MulCancel(unit, c / unit, cents);
    }
  }

  // Neither rounding does anything to a validated amount.
  lemma CentsAreExact(d: Decimal)
    requires ValidAmount(d)
    ensures Some(DecimalMoneyToCents(d)) == ExactCents(d)
  {
    hide Pow10, Round28, HalfUp;
    if d.exponent >= 0 {
      WholeAmount(d.coefficient, d.exponent);
    } else if d.exponent >= -2 {
      SmallExponent(d.coefficient, d.exponent);
    } else {
      ManyDecimals(d.coefficient, -d.exponent, ExactCents(d).value);
    }
  }

  lemma WholeAmount(c: nat, e: nat)
    requires c * Pow10(e + 2) < Pow10(18)
    ensures Round28(c * 100) * Pow10(e) == c * Pow10(e + 2)
  {
    Pow10Sum(e, 2);
    Hundred();
    Times3(c, Pow10(e), 100);
    MulMonotone(c * 100, 1, Pow10(e));
    Pow10Monotone(18, 28);
    hide Pow10, Exponent, HalfEven;
  }

  lemma Hundred()
    ensures Pow10(0) == 1 && Pow10(1) == 10 && Pow10(2) == 100
  {
  }

  lemma Times3(a: int, b: int, c: int)
    ensures a * (b * c) == a * c * b == (a * b) * c
  {
  }

  lemma SmallExponent(c: nat, e: int)
    requires e == -1 || e == -2
    requires c * Pow10(e + 2) < Pow10(18)
    ensures HalfUp(Round28(c * 100), Pow10(-e)) == c * Pow10(e + 2)
  {
    Hundred();
    Pow10Sum(18, 2);
    Pow10Monotone(20, 28);
    hide *;
    Times3(c, Pow10(e + 2), Pow10(-e));
    Below(c, Pow10(18), 100);
    RoundSmall(c * 100);
    ExactHalfUp(c * Pow10(e + 2), Pow10(-e));
  }

  lemma RoundSmall(n: nat)
    requires n < Pow10(28)
    ensures Round28(n) == n
  {
  }

  lemma ManyDecimals(c: nat, places: nat, cents: nat)
    requires places > 2 && c % Pow10(places - 2) == 0 && cents == c / Pow10(places - 2) < Pow10(18)
    ensures HalfUp(Round28(c * 100), Pow10(places)) == cents
  {
    var unit, p := Pow10(places - 2), Pow10(places);
    EuclideanDivision(c, unit);
    Pow10Sum(places - 2, 2);
    Hundred();
    hide Pow10, HalfUp, Round28;
    Times3(unit, cents, 100);
    Times3(cents, unit, 100);
    assert c * 100 == cents * p;
    RoundingOfRoundNumber(cents, places);
    ExactHalfUp(cents, p);
  }

  lemma ExactHalfUp(k: nat, p: nat)
    requires p > 0
    ensures HalfUp(k * p, p) == k
  {
    DoubleAssoc(p, k, p * k);
    assert k * p == p * k;
    hide HalfUp;
    HalfUpUnique(k * p, p, k);
  }

  // Rounding to 28 digits keeps a number that has at most 18 digits before its zeros.
  lemma RoundingOfRoundNumber(k: nat, m: nat)
    requires k < Pow10(18)
    ensures Round28(k * Pow10(m)) == k * Pow10(m)
  {
    hide Pow10, Exponent, HalfEven;
    var n := k * Pow10(m);
    if n >= Pow10(28) {
      var e := Exponent(n, 1);
      ExponentLarge(n);
      ExponentOfRound(k, m, e);
      var unit, zeros := Pow10(e - 27), Pow10(m - (e - 27));
      Pow10Sum(m - (e - 27), e - 27);
      MultipleOfUnit(k, zeros, unit, n);
    }
  }

  lemma MultipleOfUnit(k: nat, zeros: nat, unit: nat, n: nat)
    requires unit > 0 && n == k * (zeros * unit)
    ensures HalfEven(n, unit) * unit == n
  {
    Times3(k, zeros, unit);
    assert n == unit * (k * zeros);
    MulMod(unit, k * zeros);
    HalfEvenIsNearest(n, unit);
  }

  lemma ExponentOfRound(k: nat, m: nat, e: nat)
    requires k < Pow10(18) && Pow10(e) <= k * Pow10(m)
    ensures e < 18 + m
  {
    Pow10Sum(18, m);
    Below(k, Pow10(18), Pow10(m));
    if e >= 18 + m {
      Pow10Monotone(18 + m, e);
    }
  }

  lemma Below(a: nat, b: nat, c: nat)
    requires a < b && c > 0
    ensures a * c < b * c
  {
    MulMonotone(c, a + 1, b);
  }

  // -------------------------------------------------------------- number texts

  const DOT: byte := 0x2E

  function Digit(d: nat): byte
    requires d < 10
  {
    (0x30 + d) as byte
  }

  function NatText(n: nat): bytes {
    if n < 10 then [Digit(n)] else NatText(n / 10) + [Digit(n % 10)]
  }

  function IntText(n: int): bytes {
    if n < 0 then [MINUS] + NatText(-n) else NatText(n)
  }

  lemma {:induction false} NatTextValue(n: nat)
    ensures NatText(n) != [] && (forall c | c in NatText(n) :: IsDigit(c))
    ensures DigitsValue(NatText(n)) == n
  {
    var t := NatText(n);
    if n < 10 {
      assert DigitsValue(t[..0]) == 0;
    } else {
      NatTextValue(n / 10);
      assert t[..|t| - 1] == NatText(n / 10);
    }
  }

  lemma {:induction false} NatTextLength(n: nat, k: nat)
    requires k > 0 && n < Pow10(k)
    ensures |NatText(n)| <= k
  {
    if n >= 10 {
      if k > 1 {
        NatTextLength(n / 10, k - 1);
      }
    }
  }

  // Digits count in tens, the front ones more than the back ones.
  lemma {:induction false} DigitsInParts(front: bytes, back: bytes)
    ensures DigitsValue(front + back) == DigitsValue(front) * Pow10(|back|) + DigitsValue(back)
  {
    if back == [] {
      assert front + back == front;
    } else {
      var most, last := back[..|back| - 1], back[|back| - 1];
      DigitsInParts(front, most);
      assert front + back == front + most + [last];
      DigitsAppend(front + most, last);
      TenTimes(DigitsValue(front), Pow10(|most|), DigitsValue(most));
    }
  }

  lemma TenTimes(a: int, p: int, b: int)
    ensures 10 * (a * p + b) == a * (10 * p) + 10 * b
  {
  }

  // Decimal digits, most significant first, without leading zeros; a minus in front of a
  // negative number.
  lemma IntTextMeaning(n: int)
    ensures IntegerValue(IntText(n)) == n
    ensures var digits := if n < 0 then IntText(n)[1..] else IntText(n);
      && digits != [] && (forall c | c in digits :: IsDigit(c)) && (n != 0 ==> digits[0] != 0x30)
    ensures n < 0 ==> IntText(n)[0] == 0x2D
  {
    var m := if n < 0 then -n else n;
    NatTextValue(m);
    NoLeadingZero(m);
    assert n < 0 ==> IntText(n)[1..] == NatText(m);
    assert IsDigit(NatText(m)[0]);
  }

  lemma {:induction false} NoLeadingZero(n: nat)
    ensures NatText(n) != [] && (n > 0 ==> NatText(n)[0] != 0x30)
  {
    if n >= 10 {
      NoLeadingZero(n / 10);
    }
  }

  lemma IntTextInjective(m: int, n: int)
    requires IntText(m) == IntText(n)
    ensures m == n
  {
    NatTextValue(if m < 0 then -m else m);
    NatTextValue(if n < 0 then -n else n);
    assert m < 0 ==> IntText(m)[1..] == NatText(-m);
    assert n < 0 ==> IntText(n)[1..] == NatText(-n);
    assert IsDigit(NatText(if m < 0 then -m else m)[0]);
    assert IsDigit(NatText(if n < 0 then -n else n)[0]);
  }

  // str() of a Decimal with four places.
  function OddsText(ticks: nat): bytes {
    NatText(ticks / 10000) + [DOT] +
    [Digit(ticks / 1000 % 10), Digit(ticks / 100 % 10), Digit(ticks / 10 % 10), Digit(ticks % 10)]
  }

  // What settlement makes of an odds text in that form.
  function ParseOdds(text: bytes): Option<nat> {
    if |text| < 6 || text[|text| - 5] != DOT then None
    else
      var digits := text[..|text| - 5] + text[|text| - 4..];
      if forall c | c in digits :: IsDigit(c) then
        (if DigitsValue(digits) >= 0 then Some(DigitsValue(digits)) else None)
      else None
  }

  lemma OddsTextRoundTrip(ticks: nat)
    ensures ParseOdds(OddsText(ticks)) == Some(ticks)
  {
    var whole := NatText(ticks / 10000);
    var d3, d2, d1, d0 := Digit(ticks / 1000 % 10), Digit(ticks / 100 % 10), Digit(ticks / 10 % 10), Digit(ticks % 10);
    NatTextValue(ticks / 10000);
    FourDigits(whole, d3, d2, d1, d0);
    Places(ticks, ticks / 10000, ticks / 1000, ticks / 100, ticks / 10);
    hide DigitsValue, NatText;
    ParseOfParts(whole, [d3, d2, d1, d0]);
  }

  lemma ParseOfParts(whole: bytes, fraction: bytes)
    requires whole != [] && |fraction| == 4 && (forall c | c in whole + fraction :: IsDigit(c))
    requires DigitsValue(whole + fraction) >= 0
    ensures ParseOdds(whole + [DOT] + fraction) == Some(DigitsValue(whole + fraction))
  {
    var t := whole + [DOT] + fraction;
    assert t[..|t| - 5] == whole && t[|t| - 4..] == fraction;
  }

  // Units, a point, and four digits of ten-thousandths.
  lemma OddsTextMeaning(ticks: nat)
    ensures var t := OddsText(ticks);
      && |t| >= 6 && t[|t| - 5] == '.' as int as byte
      && DigitsValue(t[..|t| - 5]) == ticks / 10000 && DigitsValue(t[|t| - 4..]) == ticks % 10000
  {
    var whole := NatText(ticks / 10000);
    var d3, d2, d1, d0 := Digit(ticks / 1000 % 10), Digit(ticks / 100 % 10), Digit(ticks / 10 % 10), Digit(ticks % 10);
    NatTextValue(ticks / 10000);
    FourDigits([], d3, d2, d1, d0);
    assert [] + [d3, d2, d1, d0] == [d3, d2, d1, d0] && DigitsValue([]) == 0;
    Places(ticks, ticks / 10000, ticks / 1000, ticks / 100, ticks / 10);
    hide DigitsValue, NatText;
    Pieces(whole, [d3, d2, d1, d0]);
  }

  lemma Pieces(whole: bytes, fraction: bytes)
    requires |fraction| == 4
    ensures var t := whole + [DOT] + fraction;
      t[..|t| - 5] == whole && t[|t| - 4..] == fraction && t[|t| - 5] == DOT
  {
  }

  lemma OddsTextLength(ticks: nat)
    requires ticks < Pow10(22)
    ensures |OddsText(ticks)| <= 23
  {
    Pow10Sum(18, 4);
    Pow10Sum(2, 2);
    Hundred();
    hide Pow10, NatText;
    NatTextLength(ticks / 10000, 18);
  }

  lemma FourDigits(ds: bytes, d3: byte, d2: byte, d1: byte, d0: byte)
    ensures DigitsValue(ds + [d3, d2, d1, d0]) ==
            10 * (10 * (10 * (10 * DigitsValue(ds) + (d3 as int - 0x30)) + (d2 as int - 0x30)) + (d1 as int - 0x30)) + (d0 as int - 0x30)
  {
    DigitsAppend(ds, d3);
    DigitsAppend(ds + [d3], d2);
    DigitsAppend(ds + [d3] + [d2], d1);
    DigitsAppend(ds + [d3] + [d2] + [d1], d0);
    assert ds + [d3, d2, d1, d0] == ds + [d3] + [d2] + [d1] + [d0];
    hide DigitsValue;
  }

  lemma DigitsAppend(ds: bytes, d: byte)
    ensures DigitsValue(ds + [d]) == 10 * DigitsValue(ds) + (d as int - 0x30)
  {
    assert (ds + [d])[..|ds|] == ds;
  }

  lemma Places(n: nat, n4: nat, n3: nat, n2: nat, n1: nat)
    requires n4 == n / 10000 && n3 == n / 1000 && n2 == n / 100 && n1 == n / 10
    ensures n == 10 * (10 * (10 * (10 * n4 + n3 % 10) + n2 % 10) + n1 % 10) + n % 10
  {
    assert n1 / 10 == n2;
    assert n2 / 10 == n3;
    assert n3 / 10 == n4;
  }

  // ------------------------------------------------------------ idempotency key

  function Canonical(user: bytes, matchId: bytes, epochMs: int): bytes {
    user + ([COLON] + (matchId + ([COLON] + IntText(epochMs))))
  }

  lemma IntTextHasNoColon(n: int)
    ensures COLON !in IntText(n)
  {
    NatTextValue(if n < 0 then -n else n);
  }

  // One user id followed by a colon does not begin another.
  predicate Separable(user1: bytes, user2: bytes) {
    !(user1 + [COLON] <= user2) && !(user2 + [COLON] <= user1)
  }

  lemma CanonicalInjective(user1: bytes, match1: bytes, epoch1: int, user2: bytes, match2: bytes, epoch2: int)
    requires Separable(user1, user2)
    requires Canonical(user1, match1, epoch1) == Canonical(user2, match2, epoch2)
    ensures user1 == user2 && match1 == match2 && epoch1 == epoch2
  {
    hide IntText;
    SameUser(user1, match1 + ([COLON] + IntText(epoch1)), user2, match2 + ([COLON] + IntText(epoch2)));
    IntTextHasNoColon(epoch1);
    IntTextHasNoColon(epoch2);
    SameTail(match1, IntText(epoch1), match2, IntText(epoch2));
    IntTextInjective(epoch1, epoch2);
  }

  lemma SameUser(user1: bytes, rest1: bytes, user2: bytes, rest2: bytes)
    requires Separable(user1, user2)
    requires user1 + ([COLON] + rest1) == user2 + ([COLON] + rest2)
    ensures user1 == user2 && rest1 == rest2
  {
    var all := user1 + ([COLON] + rest1);
    assert all[..|user1| + 1] == user1 + [COLON] && all[..|user2| + 1] == user2 + [COLON];
    assert all[..|user1|] == user1 && all[..|user2|] == user2;
    if |user1| == |user2| {
      assert all[|user1| + 1..] == rest1 && all[|user2| + 1..] == rest2;
    }
  }

  lemma SameTail(match1: bytes, tail1: bytes, match2: bytes, tail2: bytes)
    requires COLON !in tail1 && COLON !in tail2
    requires match1 + ([COLON] + tail1) == match2 + ([COLON] + tail2)
    ensures match1 == match2 && tail1 == tail2
  {
    var all := match1 + ([COLON] + tail1);
    assert all[|match1|] == COLON && all[|match2|] == COLON;
    if |match1| == |match2| {
      assert all[..|match1|] == match1 && all[..|match2|] == match2;
      assert all[|match1| + 1..] == tail1 && all[|match2| + 1..] == tail2;
    }
  }

  // For a population of user ids, equal canonical strings mean equal triples, whatever
  // the match ids and times, exactly when no user id followed by a colon begins another.
  lemma CanonicalInjectiveIff(users: set<bytes>)
    ensures (forall u1, m1, t1: int, u2, m2, t2: int
              | u1 in users && u2 in users && m1 != [] && m2 != [] && Canonical(u1, m1, t1) == Canonical(u2, m2, t2) ::
              u1 == u2 && m1 == m2 && t1 == t2)
            <==> (forall u1, u2 | u1 in users && u2 in users :: Separable(u1, u2))
  {
    if forall u1, u2 | u1 in users && u2 in users :: Separable(u1, u2) {
      forall u1, m1, t1: int, u2, m2, t2: int
        | u1 in users && u2 in users && m1 != [] && m2 != [] && Canonical(u1, m1, t1) == Canonical(u2, m2, t2)
        ensures u1 == u2 && m1 == m2 && t1 == t2
      {
        CanonicalInjective(u1, m1, t1, u2, m2, t2);
      }
    } else {
      var u, v :| u in users && v in users && !Separable(u, v);
      var short, long := if u + [COLON] <= v then u else v, if u + [COLON] <= v then v else u;
      Collision(short, long);
    }
  }

  lemma Collision(short: bytes, long: bytes)
    requires short + [COLON] <= long
    ensures Canonical(long, [DOT], 0) == Canonical(short, long[|short| + 1..] + [COLON, DOT], 0)
    ensures short != long
  {
    var z := long[|short| + 1..];
    assert long == short + ([COLON] + z);
    var t := [COLON] + IntText(0);
    assert z + [COLON, DOT] + t == z + ([COLON] + ([DOT] + t));
    assert short + ([COLON] + (z + ([COLON] + ([DOT] + t)))) == short + ([COLON] + z) + ([COLON] + ([DOT] + t));
  }

  // User ids without a colon, such as UUIDs, always qualify.
  lemma NoColonIsSeparable(user1: bytes, user2: bytes)
    requires COLON !in user1 && COLON !in user2
    ensures Separable(user1, user2)
  {
    assert (user1 + [COLON])[|user1|] == COLON && (user2 + [COLON])[|user2|] == COLON;
  }

  // ------------------------------------------------------------------ the event

  datatype Request = Request(
    matchId: bytes, marketId: bytes, selectionId: bytes, stake: Decimal, payout: Decimal, epochMs: int)

  predicate Validated(r: Request) {
    && r.matchId != [] && r.marketId != [] && r.selectionId != []
    && ValidAmount(r.stake) && ValidAmount(r.payout)
    && ExactCents(r.stake).value <= ExactCents(r.payout).value
    && FitsInt64(r.epochMs)
  }

  // submit_bet up to publication; an event with a time before 1970 fails its own schema.
  // The quotient of two amounts is the quotient of their cents.
  function SubmitBet(user: bytes, r: Request, sha256: bytes -> bytes, uuid5: bytes -> bytes): Option<BetSubmitted>
    requires Validated(r)
  {
    if r.epochMs <= 0 then None
    else
      var stake, payout := ExactCents(r.stake).value, ExactCents(r.payout).value;
      AmountsFit(r);
      var key := sha256(Canonical(user, r.matchId, r.epochMs));
      var id := uuid5(Ascii("bets-submitted:") + key);
      Some(BetSubmitted(
        id, id, user, key, r.matchId, r.marketId, r.selectionId, OddsText(DecimalOdds(stake, payout)),
        DecimalMoneyToCents(r.stake) as int64, DecimalMoneyToCents(r.payout) as int64, r.epochMs as int64))
  }

  lemma AmountsFit(r: Request)
    requires Validated(r)
    ensures FitsInt64(DecimalMoneyToCents(r.stake)) && FitsInt64(DecimalMoneyToCents(r.payout))
  {
    CentsAreExact(r.stake);
    CentsAreExact(r.payout);
    assert Pow10(18) == 1_000_000_000_000_000_000 by { PowerOf18(); }
  }

  lemma PowerOf18()
    ensures Pow10(18) == 1_000_000_000_000_000_000
  {
    assert Pow10(2) == 100 by { assert Pow10(1) == 10; }
    Pow10Sum(2, 2);
    Pow10Sum(4, 4);
    Pow10Sum(8, 8);
    Pow10Sum(16, 2);
  }

  // The event that a request of a user calls for: its own identifiers and time, its exact
  // cents, odds that settlement reads back as the exact quotient rounded half-up once, a key
  // from user, match and time, and event and bet id from the key.
  ghost predicate IsEventFor(
    bet: BetSubmitted, user: bytes, r: Request, sha256: bytes -> bytes, uuid5: bytes -> bytes)
  {
    && bet.accountId == user && bet.timestamp as int == r.epochMs
    && bet.matchId == r.matchId && bet.marketId == r.marketId && bet.selectionId == r.selectionId
    && WellFormed(bet) && (bet.payout as int) < Pow10(18)
    && ExactCents(r.stake) == Some(bet.stake as nat) && ExactCents(r.payout) == Some(bet.payout as nat)
    && ParseOdds(bet.odds) == Some(OddsTicks(bet.stake as nat, bet.payout as nat)) && |bet.odds| <= 32
    && bet.idempotencyKey == sha256(user + [0x3A] + r.matchId + [0x3A] + IntText(r.epochMs))
    && bet.betId == bet.eventId == uuid5(Ascii("bets-submitted:") + bet.idempotencyKey)
  }

  lemma PublishedEvent(user: bytes, r: Request, sha256: bytes -> bytes, uuid5: bytes -> bytes)
    requires Validated(r)
    ensures SubmitBet(user, r, sha256, uuid5).Some? <==> r.epochMs > 0
    ensures r.epochMs > 0 ==> IsEventFor(SubmitBet(user, r, sha256, uuid5).value, user, r, sha256, uuid5)
  {
    AmountsFit(r);
    PublishedFigures(r);
    CanonicalIs(user, r.matchId, r.epochMs);
    hide Canonical, IntText, DecimalOdds, OddsTicks, OddsText, ParseOdds, ExactCents, DecimalMoneyToCents, Ascii, Pow10;
  }

  lemma CanonicalIs(user: bytes, matchId: bytes, epochMs: int)
    ensures Canonical(user, matchId, epochMs) == user + [0x3A] + matchId + [0x3A] + IntText(epochMs)
  {
    hide IntText;
  }

  lemma PublishedFigures(r: Request)
    requires Validated(r)
    ensures Some(DecimalMoneyToCents(r.stake)) == ExactCents(r.stake)
    ensures Some(DecimalMoneyToCents(r.payout)) == ExactCents(r.payout)
    ensures var stake, payout := ExactCents(r.stake).value, ExactCents(r.payout).value;
      && ParseOdds(OddsText(DecimalOdds(stake, payout))) == Some(OddsTicks(stake, payout))
      && |OddsText(DecimalOdds(stake, payout))| <= 32
  {
    CentsAreExact(r.stake);
    CentsAreExact(r.payout);
    var stake, payout := ExactCents(r.stake).value, ExactCents(r.payout).value;
    DoubleRoundingHarmless(stake, payout);
    OddsBelow(stake, payout);
    hide DecimalOdds, OddsTicks, OddsText, ParseOdds, ExactCents, DecimalMoneyToCents;
    OddsTextRoundTrip(OddsTicks(stake, payout));
    OddsTextLength(OddsTicks(stake, payout));
  }

  lemma OddsBelow(stake: nat, payout: nat)
    requires 0 < stake <= payout < Pow10(18)
    ensures OddsTicks(stake, payout) < Pow10(22)
  {
    var o := OddsTicks(stake, payout);
    MulMonotone(o, 1, stake);
    DoubleAssoc(stake, o, stake * o);
    Pow10Sum(18, 4);
    assert Pow10(4) == 10000 by { assert Pow10(2) == 100 by { assert Pow10(1) == 10; } Pow10Sum(2, 2); }
    assert 2 * (stake * o) <= 20000 * payout + stake;
    if o >= Pow10(22) {
      LargeOdds(stake, payout, o);
    }
  }

  lemma LargeOdds(stake: nat, payout: nat, o: nat)
    requires 0 < stake <= payout
    requires o >= 10000 * (payout + 1)
    ensures 2 * (stake * o) > 20000 * payout + stake
  {
    MulMonotone(stake, 10000 * (payout + 1), o);
    Distribute(stake, 10000 * payout, 10000);
    MulMonotone(10000 * payout, 1, stake);
  }

  ghost predicate Injective(f: bytes -> bytes) {
    forall x, y | f(x) == f(y) :: x == y
  }

  // Two bets of users without colons in their ids share a key, and then their event and
  // bet ids too, exactly when user, match and time agree.
  lemma SameKeyIff(user1: bytes, r1: Request, user2: bytes, r2: Request, sha256: bytes -> bytes, uuid5: bytes -> bytes)
    requires Validated(r1) && Validated(r2) && r1.epochMs > 0 && r2.epochMs > 0
    requires COLON !in user1 && COLON !in user2 && Injective(sha256) && Injective(uuid5)
    ensures var b1, b2 := SubmitBet(user1, r1, sha256, uuid5).value, SubmitBet(user2, r2, sha256, uuid5).value;
      && (b1.idempotencyKey == b2.idempotencyKey <==>
            user1 == user2 && r1.matchId == r2.matchId && r1.epochMs == r2.epochMs)
      && (b1.betId == b2.betId <==> b1.idempotencyKey == b2.idempotencyKey)
  {
    hide DecimalOdds, OddsText, ExactCents, DecimalMoneyToCents, Ascii;
    if Canonical(user1, r1.matchId, r1.epochMs) == Canonical(user2, r2.matchId, r2.epochMs) {
      NoColonIsSeparable(user1, user2);
      CanonicalInjective(user1, r1.matchId, r1.epochMs, user2, r2.matchId, r2.epochMs);
    }
    var b1, b2 := SubmitBet(user1, r1, sha256, uuid5).value, SubmitBet(user2, r2, sha256, uuid5).value;
    var p := Ascii("bets-submitted:");
    if b1.betId == b2.betId {
      assert p + b1.idempotencyKey == p + b2.idempotencyKey;
      assert (p + b1.idempotencyKey)[|p|..] == b1.idempotencyKey;
      assert (p + b2.idempotencyKey)[|p|..] == b2.idempotencyKey;
    }
  }
}

/** The risk engine's books: balances and open exposure per account, and the decision
    of one bet on them when nothing runs beside it.
  */
module RiskBooks {
  import opened Wrappers
  import opened JsonStrings
  import opened BetSchema

  const STALE_QUOTE_PROTECTION_MS: int := 200

  // `exposure` is a default-inserting map: an absent account has no exposure.
  datatype Books = Books(cap: int, balances: map<bytes, int>, exposure: map<bytes, int>) {
    function Exposure(account: bytes): int {
      Lookup(exposure, account)
    }

    // What the constructor and seeding with int64 values establish.
    ghost predicate Valid() {
      && 0 < cap && FitsInt64(cap)
      && (forall a | a in balances :: FitsInt64(balances[a]))
      && (forall a | a in exposure :: 0 <= exposure[a] <= cap)
    }

    ghost predicate SameMoney(other: Books) {
      cap == other.cap && balances == other.balances && forall a :: Exposure(a) == other.Exposure(a)
    }
  }

  function Lookup(m: map<bytes, int>, key: bytes): int {
    if key in m then m[key] else 0
  }

  datatype Decision =
    | SchemaInvalid(error: SchemaError)
    | StaleQuote
    | AccountNotFound
    | InsufficientFunds(remaining: int)
    | SaecExceeded(remaining: int)
    | Accepted(exposure: int, remaining: int)

  predicate WellFormed(bet: BetSubmitted) {
    0 < bet.stake <= bet.payout && 0 < bet.timestamp
  }

  // Every bet that passes the schema check is well formed.
  lemma ParsedBetsAreWellFormed(payload: bytes)
    ensures BetOf(payload).Ok? ==> WellFormed(BetOf(payload).value)
  {
    hide StringsOf, RequiredI64;
  }

  predicate IsStale(bet: BetSubmitted, now: int) {
    now - bet.timestamp as int > STALE_QUOTE_PROTECTION_MS
  }

  // Debit, reserve, and undo the debit if the cap would be exceeded.
  function Place(books: Books, bet: BetSubmitted): (Books, Decision) {
    var a, stake, payout := bet.accountId, bet.stake as int, bet.payout as int;
    if a !in books.balances then
      (books, AccountNotFound)
    else
      var balance := books.balances[a];
      if balance < stake then
        (books, InsufficientFunds(balance))
      else if books.Exposure(a) > books.cap - payout then
        (books.(exposure := books.exposure[a := books.Exposure(a)]), SaecExceeded(balance))
      else
        var total := books.Exposure(a) + payout;
        (books.(balances := books.balances[a := balance - stake], exposure := books.exposure[a := total]),
         Accepted(total, balance - stake))
  }

  // evaluate_json on its own.
  function Evaluate(books: Books, payload: bytes, now: int): (Books, Decision) {
    var parsed := BetOf(payload);
    if parsed.Err? then (books, SchemaInvalid(parsed.error))
    else if IsStale(parsed.value, now) then (books, StaleQuote)
    else Place(books, parsed.value)
  }

  // A bet is accepted exactly when it is fresh, funded and within the cap; it then moves
  // its stake out of the balance and its payout into the exposure of its own account.
  // Every other decision leaves all money where it was, in particular the one that had
  // to take a debit back.
  lemma EvaluateMeaning(books: Books, payload: bytes, now: int)
    requires books.Valid()
    ensures var (after, decision) := Evaluate(books, payload, now);
      && after.Valid()
      && (decision.Accepted? <==>
          && BetOf(payload).Ok?
          && var bet := BetOf(payload).value;
            && now <= bet.timestamp as int + 200
            && bet.accountId in books.balances
            && bet.stake as int <= books.balances[bet.accountId]
            && books.Exposure(bet.accountId) + bet.payout as int <= books.cap)
      && (!decision.Accepted? ==> after.SameMoney(books))
      && (decision.Accepted? ==>
          var bet := BetOf(payload).value;
          && after.balances.Keys == books.balances.Keys
          && (forall a | a in books.balances ::
                after.balances[a] == books.balances[a] - if a == bet.accountId then bet.stake as int else 0)
          && (forall a :: after.Exposure(a) == books.Exposure(a) + if a == bet.accountId then bet.payout as int else 0))
  {
    ParsedBetsAreWellFormed(payload);
    hide BetOf;
  }

  // ------------------------------------------------------------ which decision

  ghost predicate Fresh(payload: bytes, now: int) {
    BetOf(payload).Ok? && now <= BetOf(payload).value.timestamp as int + 200
  }

  // A fresh bet of a known account whose balance covers the stake.
  ghost predicate Funded(books: Books, payload: bytes, now: int) {
    Fresh(payload, now) && var bet := BetOf(payload).value;
      bet.accountId in books.balances && bet.stake as int <= books.balances[bet.accountId]
  }

  // The exposure as it would be, against the cap.
  ghost predicate OverCap(books: Books, bet: BetSubmitted) {
    (if bet.accountId in books.exposure then books.exposure[bet.accountId] else 0) + bet.payout as int > books.cap
  }

  // Each decision, with its figures, exactly in its case.
  ghost predicate DecidedAs(books: Books, payload: bytes, now: int, d: Decision) {
    && (forall e :: d == SchemaInvalid(e) <==> BetOf(payload) == Err(e))
    && (d.StaleQuote? <==> BetOf(payload).Ok? && now > BetOf(payload).value.timestamp as int + 200)
    && (d.AccountNotFound? <==> Fresh(payload, now) && BetOf(payload).value.accountId !in books.balances)
    && (d.InsufficientFunds? <==>
          Fresh(payload, now) && BetOf(payload).value.accountId in books.balances && !Funded(books, payload, now))
    && (d.InsufficientFunds? ==> d.remaining == books.balances[BetOf(payload).value.accountId])
    && (d.SaecExceeded? <==> Funded(books, payload, now) && OverCap(books, BetOf(payload).value))
    && (d.SaecExceeded? ==> d.remaining == books.balances[BetOf(payload).value.accountId])
    && (d.Accepted? <==> Funded(books, payload, now) && !OverCap(books, BetOf(payload).value))
    && (d.Accepted? ==> var bet := BetOf(payload).value;
          && d.exposure == (if bet.accountId in books.exposure then books.exposure[bet.accountId] else 0) + bet.payout as int
          && d.remaining == books.balances[bet.accountId] - bet.stake as int)
  }

  lemma DecisionTable(books: Books, payload: bytes, now: int)
    ensures DecidedAs(books, payload, now, Evaluate(books, payload, now).1)
  {
    hide BetOf;
  }
}

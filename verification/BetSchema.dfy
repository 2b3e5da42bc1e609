/** parse_bet_json: the schema check on top of the JSON reader.  `BetOf` is the check as
    a function of the payload; `AcceptedPayloads` says which payloads it accepts.
  */
module BetSchema {
  import opened Wrappers
  import opened JsonStrings
  import opened JsonObjects
  import opened JsonLanguage

  newtype int64 = x: int | -0x8000_0000_0000_0000 <= x < 0x8000_0000_0000_0000

  // Member names in their order of declaration; the bytes are ASCII.
  datatype Name =
    | EventId | BetId | AccountId | IdempotencyKey | MatchId | MarketId | SelectionId
    | StakeCents | PotentialPayoutCents | Odds | BetTimestampMs
  {
    function Text(): string {
      match this
      case EventId => "event_id"
      case BetId => "bet_id"
      case AccountId => "account_id"
      case IdempotencyKey => "idempotency_key"
      case MatchId => "match_id"
      case MarketId => "market_id"
      case SelectionId => "selection_id"
      case StakeCents => "stake_cents"
      case PotentialPayoutCents => "potential_payout_cents"
      case Odds => "odds"
      case BetTimestampMs => "bet_timestamp_ms"
    }

    function Bytes(): bytes {
      Ascii(Text())
    }
  }

  function Ascii(s: string): bytes {
    seq(|s|, k requires 0 <= k < |s| => if s[k] < 128 as char then s[k] as int as byte else 0)
  }

  const ALLOWED: set<bytes> := {
    EventId.Bytes(), BetId.Bytes(), AccountId.Bytes(), IdempotencyKey.Bytes(), MatchId.Bytes(), MarketId.Bytes(),
    SelectionId.Bytes(), StakeCents.Bytes(), PotentialPayoutCents.Bytes(), Odds.Bytes(), BetTimestampMs.Bytes()
  }

  datatype BetSubmitted = BetSubmitted(
    eventId: bytes, betId: bytes, accountId: bytes, idempotencyKey: bytes, matchId: bytes,
    marketId: bytes, selectionId: bytes, odds: bytes,
    stake: int64, payout: int64, timestamp: int64)

  datatype SchemaError =
    | Json(error: ParseError)
    | UnknownField
    | MissingField(name: Name)
    | NotString(name: Name)
    | InvalidEncoding(name: Name)
    | BadLength(name: Name)
    | NotInteger(name: Name)
    | OutOfRange(name: Name)
    | StakeNotPositive
    | PayoutNotPositive
    | PayoutBelowStake
    | TimestampNotPositive

  // ------------------------------------------------------------ required fields

  function RequiredString(fields: Fields, name: Name): Result<bytes, SchemaError> {
    if name.Bytes() !in fields then
      Err(MissingField(name))
    else if !fields[name.Bytes()].isString then
      Err(NotString(name))
    else
      var decoded := ScanString(fields[name.Bytes()].raw);
      if decoded.None? || decoded.value.rest != [] then
        Err(InvalidEncoding(name))
      else if decoded.value.value == [] || |decoded.value.value| > 128 then
        Err(BadLength(name))
      else
        Ok(decoded.value.value)
  }

  method RequiredStringOf(fields: Fields, name: Name) returns (r: Result<bytes, SchemaError>)
    ensures r == RequiredString(fields, name)
  {
    if name.Bytes() !in fields {
      return Err(MissingField(name));
    }
    var field := fields[name.Bytes()];
    if !field.isString {
      return Err(NotString(name));
    }
    assert field.raw[0..] == field.raw;
    var ok, pos, decoded := ParseJsonStringToken(field.raw, 0);
    if !ok || pos != |field.raw| {
      return Err(InvalidEncoding(name));
    }
    if |decoded| == 0 || |decoded| > 128 {
      return Err(BadLength(name));
    }
    return Ok(decoded);
  }

  // The number that decimal digits denote, most significant first.
  function DigitsValue(ds: bytes): (n: int) {
    if ds == [] then 0 else 10 * DigitsValue(ds[..|ds| - 1]) + (ds[|ds| - 1] as int - 0x30)
  }

  function IntegerValue(raw: bytes): int {
    if raw != [] && raw[0] == MINUS then -DigitsValue(raw[1..]) else DigitsValue(raw)
  }

  predicate FitsInt64(n: int) {
    -0x8000_0000_0000_0000 <= n < 0x8000_0000_0000_0000
  }

  // std::from_chars on the whole slice: an optional minus sign and digits, in range.
  function RequiredI64(fields: Fields, name: Name): Result<int64, SchemaError> {
    if name.Bytes() !in fields then
      Err(MissingField(name))
    else
      var field := fields[name.Bytes()];
      if field.isString then
        Err(NotInteger(name))
      else if !IsIntegerText(field.raw) || !FitsInt64(IntegerValue(field.raw)) then
        Err(OutOfRange(name))
      else
        Ok(IntegerValue(field.raw) as int64)
  }

  // ------------------------------------------------------------------ the check

  function BetOf(payload: bytes): Result<BetSubmitted, SchemaError> {
    var parsed := ParseObject(payload);
    if parsed.Err? then Err(Json(parsed.error)) else BetOfFields(parsed.value)
  }

  function BetOfFields(fields: Fields): Result<BetSubmitted, SchemaError> {
    if !(fields.Keys <= ALLOWED) then
      Err(UnknownField)
    else
      var strings := StringsOf(fields);
      if strings.Err? then Err(strings.error) else WithNumbers(strings.value, fields)
  }

  function WithNumbers(bet: BetSubmitted, fields: Fields): Result<BetSubmitted, SchemaError> {
    var stake := RequiredI64(fields, StakeCents);
    if stake.Err? then Err(stake.error) else
    var payout := RequiredI64(fields, PotentialPayoutCents);
    if payout.Err? then Err(payout.error) else
    var ts := RequiredI64(fields, BetTimestampMs);
    if ts.Err? then Err(ts.error) else
    if stake.value <= 0 then Err(StakeNotPositive)
    else if payout.value <= 0 then Err(PayoutNotPositive)
    else if payout.value < stake.value then Err(PayoutBelowStake)
    else if ts.value <= 0 then Err(TimestampNotPositive)
    else Ok(bet.(stake := stake.value, payout := payout.value, timestamp := ts.value))
  }

  // The eight string members, in the order in which they are required.
  function StringsOf(fields: Fields): Result<BetSubmitted, SchemaError> {
    var eventId := RequiredString(fields, EventId);
    if eventId.Err? then Err(eventId.error) else
    var betId := RequiredString(fields, BetId);
    if betId.Err? then Err(betId.error) else
    var accountId := RequiredString(fields, AccountId);
    if accountId.Err? then Err(accountId.error) else
    var key := RequiredString(fields, IdempotencyKey);
    if key.Err? then Err(key.error) else
    var matchId := RequiredString(fields, MatchId);
    if matchId.Err? then Err(matchId.error) else
    var marketId := RequiredString(fields, MarketId);
    if marketId.Err? then Err(marketId.error) else
    var selectionId := RequiredString(fields, SelectionId);
    if selectionId.Err? then Err(selectionId.error) else
    var odds := RequiredString(fields, Odds);
    if odds.Err? then Err(odds.error) else
    Ok(BetSubmitted(eventId.value, betId.value, accountId.value, key.value, matchId.value,
                    marketId.value, selectionId.value, odds.value, 0, 0, 0))
  }

  method StringMembers(fields: Fields) returns (r: Result<BetSubmitted, SchemaError>)
    ensures r == StringsOf(fields)
  {
    hide RequiredString;
    var eventId := RequiredStringOf(fields, EventId);
    if eventId.Err? { return Err(eventId.error); }
    var betId := RequiredStringOf(fields, BetId);
    if betId.Err? { return Err(betId.error); }
    var accountId := RequiredStringOf(fields, AccountId);
    if accountId.Err? { return Err(accountId.error); }
    var key := RequiredStringOf(fields, IdempotencyKey);
    if key.Err? { return Err(key.error); }
    var matchId := RequiredStringOf(fields, MatchId);
    if matchId.Err? { return Err(matchId.error); }
    var marketId := RequiredStringOf(fields, MarketId);
    if marketId.Err? { return Err(marketId.error); }
    var selectionId := RequiredStringOf(fields, SelectionId);
    if selectionId.Err? { return Err(selectionId.error); }
    var odds := RequiredStringOf(fields, Odds);
    if odds.Err? { return Err(odds.error); }
    return Ok(BetSubmitted(eventId.value, betId.value, accountId.value, key.value, matchId.value,
                           marketId.value, selectionId.value, odds.value, 0, 0, 0));
  }

  // The names are visited in no particular order, as in the unordered map.
  method OnlyAllowed(fields: Fields) returns (ok: bool)
    ensures ok <==> fields.Keys <= ALLOWED
  {
    var left := fields.Keys;
    while left != {}
      invariant left <= fields.Keys && fields.Keys - left <= ALLOWED
      decreases left
    {
      var key :| key in left;
      if key !in ALLOWED {
        return false;
      }
      left := left - {key};
    }
    return true;
  }

  method ParseBetJson(payload: bytes) returns (r: Result<BetSubmitted, SchemaError>)
    ensures r == BetOf(payload)
  {
    hide ParseObject, RequiredI64, StringsOf;
    var parsed := ParseObjectAt(payload);
    if parsed.Err? {
      return Err(Json(parsed.error));
    }
    var fields := parsed.value;
    var known := OnlyAllowed(fields);
    if !known {
      return Err(UnknownField);
    }
    var strings := StringMembers(fields);
    if strings.Err? {
      return Err(strings.error);
    }
    var stake := RequiredI64(fields, StakeCents);
    if stake.Err? { return Err(stake.error); }
    var payout := RequiredI64(fields, PotentialPayoutCents);
    if payout.Err? { return Err(payout.error); }
    var ts := RequiredI64(fields, BetTimestampMs);
    if ts.Err? { return Err(ts.error); }
    if stake.value <= 0 { return Err(StakeNotPositive); }
    if payout.value <= 0 { return Err(PayoutNotPositive); }
    if payout.value < stake.value { return Err(PayoutBelowStake); }
    if ts.value <= 0 { return Err(TimestampNotPositive); }
    return Ok(strings.value.(stake := stake.value, payout := payout.value, timestamp := ts.value));
  }

  // ------------------------------------------------------ which payloads pass

  ghost predicate HasString(d: Doc, name: Name, v: bytes)
    requires d.Valid()
  {
    exists i :: 0 <= i < |d.members| && d.members[i].Key() == name.Bytes() && IsStringOf(d.members[i].value, v)
  }

  ghost predicate IsStringOf(token: ValueToken, v: bytes) {
    token.Valid() && token.StringToken? && Value(token.units) == v && 1 <= |v| <= 128
  }

  ghost predicate HasInteger(d: Doc, name: Name, n: int)
    requires d.Valid()
  {
    exists i :: 0 <= i < |d.members| && d.members[i].Key() == name.Bytes() && IsIntegerOf(d.members[i].value, n)
  }

  ghost predicate IsIntegerOf(token: ValueToken, n: int) {
    && token.Valid() && token.IntToken? && FitsInt64(n)
    && n == if token.negative then -DigitsValue(token.digits) else DigitsValue(token.digits)
  }

  // A document whose members are exactly the eleven of the schema, with the values of
  // the bet.  Their order, the white space, leading zeros and the choice of escapes do
  // not matter, nor does a missing end behind a trailing comma.
  ghost predicate Describes(d: Doc, bet: BetSubmitted)
    requires d.Valid()
  {
    && d.Fields().Keys == ALLOWED
    && HasString(d, EventId, bet.eventId)
    && HasString(d, BetId, bet.betId)
    && HasString(d, AccountId, bet.accountId)
    && HasString(d, IdempotencyKey, bet.idempotencyKey)
    && HasString(d, MatchId, bet.matchId)
    && HasString(d, MarketId, bet.marketId)
    && HasString(d, SelectionId, bet.selectionId)
    && HasString(d, Odds, bet.odds)
    && HasInteger(d, StakeCents, bet.stake as int)
    && HasInteger(d, PotentialPayoutCents, bet.payout as int)
    && HasInteger(d, BetTimestampMs, bet.timestamp as int)
    && 0 < bet.stake <= bet.payout && 0 < bet.timestamp
  }

  lemma AcceptedPayloads(payload: bytes, bet: BetSubmitted)
    ensures BetOf(payload) == Ok(bet) <==>
            exists d: Doc :: d.Valid() && d.Render() == payload && Describes(d, bet)
  {
    if BetOf(payload) == Ok(bet) {
      var d := DocSound(payload);
      DescribesIff(d, bet);
    }
    forall d: Doc | d.Valid() && d.Render() == payload && Describes(d, bet)
      ensures BetOf(payload) == Ok(bet)
    {
      DocComplete(d);
      DescribesIff(d, bet);
    }
  }

  lemma DescribesIff(d: Doc, bet: BetSubmitted)
    requires d.Valid()
    ensures BetOfFields(d.Fields()) == Ok(bet) <==> Describes(d, bet)
  {
    var fields := d.Fields();
    StringMember(d, EventId, bet.eventId);
    StringMember(d, BetId, bet.betId);
    StringMember(d, AccountId, bet.accountId);
    StringMember(d, IdempotencyKey, bet.idempotencyKey);
    StringMember(d, MatchId, bet.matchId);
    StringMember(d, MarketId, bet.marketId);
    StringMember(d, SelectionId, bet.selectionId);
    StringMember(d, Odds, bet.odds);
    IntegerMember(d, StakeCents, bet.stake);
    IntegerMember(d, PotentialPayoutCents, bet.payout);
    IntegerMember(d, BetTimestampMs, bet.timestamp);
    AcceptedIff(fields, bet);
  }

  // The cascade of checks is a conjunction: no order of errors matters for success.
  lemma AcceptedIff(fields: Fields, bet: BetSubmitted)
    ensures BetOfFields(fields) == Ok(bet) <==>
      && fields.Keys == ALLOWED
      && RequiredString(fields, EventId) == Ok(bet.eventId)
      && RequiredString(fields, BetId) == Ok(bet.betId)
      && RequiredString(fields, AccountId) == Ok(bet.accountId)
      && RequiredString(fields, IdempotencyKey) == Ok(bet.idempotencyKey)
      && RequiredString(fields, MatchId) == Ok(bet.matchId)
      && RequiredString(fields, MarketId) == Ok(bet.marketId)
      && RequiredString(fields, SelectionId) == Ok(bet.selectionId)
      && RequiredString(fields, Odds) == Ok(bet.odds)
      && RequiredI64(fields, StakeCents) == Ok(bet.stake)
      && RequiredI64(fields, PotentialPayoutCents) == Ok(bet.payout)
      && RequiredI64(fields, BetTimestampMs) == Ok(bet.timestamp)
      && 0 < bet.stake <= bet.payout && 0 < bet.timestamp
  {
    StringsIff(fields, bet);
    if StringsOf(fields).Ok? {
      NumbersIff(StringsOf(fields).value, fields, bet);
    }
    if ReadsAll(fields) {
      KeysIff(fields);
    }
    hide RequiredString, RequiredI64, StringsOf, WithNumbers, Name.Bytes, Name.Text;
  }

  lemma NumbersIff(strings: BetSubmitted, fields: Fields, bet: BetSubmitted)
    ensures WithNumbers(strings, fields) == Ok(bet) <==>
      && bet == strings.(stake := bet.stake, payout := bet.payout, timestamp := bet.timestamp)
      && RequiredI64(fields, StakeCents) == Ok(bet.stake)
      && RequiredI64(fields, PotentialPayoutCents) == Ok(bet.payout)
      && RequiredI64(fields, BetTimestampMs) == Ok(bet.timestamp)
      && 0 < bet.stake <= bet.payout && 0 < bet.timestamp
  {
    hide RequiredI64;
  }

  ghost predicate ReadsAll(fields: Fields) {
    && RequiredString(fields, EventId).Ok? && RequiredString(fields, BetId).Ok?
    && RequiredString(fields, AccountId).Ok? && RequiredString(fields, IdempotencyKey).Ok?
    && RequiredString(fields, MatchId).Ok? && RequiredString(fields, MarketId).Ok?
    && RequiredString(fields, SelectionId).Ok? && RequiredString(fields, Odds).Ok?
    && RequiredI64(fields, StakeCents).Ok? && RequiredI64(fields, PotentialPayoutCents).Ok?
    && RequiredI64(fields, BetTimestampMs).Ok?
  }

  lemma StringsIff(fields: Fields, bet: BetSubmitted)
    ensures StringsOf(fields) == Ok(bet.(stake := 0, payout := 0, timestamp := 0)) <==>
      && RequiredString(fields, EventId) == Ok(bet.eventId)
      && RequiredString(fields, BetId) == Ok(bet.betId)
      && RequiredString(fields, AccountId) == Ok(bet.accountId)
      && RequiredString(fields, IdempotencyKey) == Ok(bet.idempotencyKey)
      && RequiredString(fields, MatchId) == Ok(bet.matchId)
      && RequiredString(fields, MarketId) == Ok(bet.marketId)
      && RequiredString(fields, SelectionId) == Ok(bet.selectionId)
      && RequiredString(fields, Odds) == Ok(bet.odds)
    ensures StringsOf(fields).Ok? ==> StringsOf(fields).value == StringsOf(fields).value.(stake := 0, payout := 0, timestamp := 0)
  {
    hide RequiredString;
  }

  // A required member that is read is present; reading all eleven makes the keys of an
  // object without unknown members exactly the allowed ones.
  lemma KeysIff(fields: Fields)
    requires ReadsAll(fields)
    ensures ALLOWED <= fields.Keys
  {
    hide RequiredString, RequiredI64, Name.Bytes, Name.Text;
    ReadIsPresent(fields, EventId);
    ReadIsPresent(fields, BetId);
    ReadIsPresent(fields, AccountId);
    ReadIsPresent(fields, IdempotencyKey);
    ReadIsPresent(fields, MatchId);
    ReadIsPresent(fields, MarketId);
    ReadIsPresent(fields, SelectionId);
    ReadIsPresent(fields, Odds);
    ReadIsPresent(fields, StakeCents);
    ReadIsPresent(fields, PotentialPayoutCents);
    ReadIsPresent(fields, BetTimestampMs);
  }

  lemma ReadIsPresent(fields: Fields, name: Name)
    requires RequiredString(fields, name).Ok? || RequiredI64(fields, name).Ok?
    ensures name.Bytes() in fields
  {
  }

  lemma StringMember(d: Doc, name: Name, v: bytes)
    requires d.Valid()
    ensures RequiredString(d.Fields(), name) == Ok(v) <==> HasString(d, name, v)
  {
    MemberLookup(map[], d.members, name.Bytes());
    forall i | 0 <= i < |d.members| && d.members[i].Key() == name.Bytes()
      ensures RequiredString(d.Fields(), name) == Ok(v) <==> IsStringOf(d.members[i].value, v)
    {
      assert d.members[i].Valid();
      StoredString(d.Fields(), name, d.members[i].value, v);
    }
    hide RequiredString;
  }

  lemma StoredString(fields: Fields, name: Name, token: ValueToken, v: bytes)
    requires token.Valid() && name.Bytes() in fields && fields[name.Bytes()] == token.Field()
    ensures RequiredString(fields, name) == Ok(v) <==> IsStringOf(token, v)
  {
    if token.StringToken? {
      TokenComplete(token.units, []);
      assert token.Raw() + [] == token.Raw();
    }
  }

  lemma IntegerMember(d: Doc, name: Name, n: int64)
    requires d.Valid()
    ensures RequiredI64(d.Fields(), name) == Ok(n) <==> HasInteger(d, name, n as int)
  {
    MemberLookup(map[], d.members, name.Bytes());
    forall i | 0 <= i < |d.members| && d.members[i].Key() == name.Bytes()
      ensures RequiredI64(d.Fields(), name) == Ok(n) <==> IsIntegerOf(d.members[i].value, n as int)
    {
      assert d.members[i].Valid();
      StoredInteger(d.Fields(), name, d.members[i].value, n);
    }
    hide RequiredI64;
  }

  lemma StoredInteger(fields: Fields, name: Name, token: ValueToken, n: int64)
    requires token.Valid() && name.Bytes() in fields && fields[name.Bytes()] == token.Field()
    ensures RequiredI64(fields, name) == Ok(n) <==> IsIntegerOf(token, n as int)
  {
    if token.IntToken? {
      IntegerRaw(token);
    }
    hide DigitsValue;
  }

  lemma IntegerRaw(token: ValueToken)
    requires token.IntToken? && token.Valid()
    ensures IsIntegerText(token.Raw())
    ensures IntegerValue(token.Raw()) == if token.negative then -DigitsValue(token.digits) else DigitsValue(token.digits)
  {
    assert IsDigit(token.digits[0]);
    if token.negative {
      assert token.Raw()[1..] == token.digits;
    } else {
      assert token.Raw() == token.digits;
    }
  }

  lemma StoredIsUsable(fields: Fields, name: Name)
    requires name.Bytes() in fields
    requires var v := fields[name.Bytes()];
      if v.isString then ScanString(v.raw).Some? && ScanString(v.raw).value.rest == [] else IsIntegerText(v.raw)
    ensures RequiredString(fields, name) != Err(InvalidEncoding(name))
    ensures !fields[name.Bytes()].isString ==>
              (RequiredI64(fields, name).Err? <==> !FitsInt64(IntegerValue(fields[name.Bytes()].raw)))
  {
    hide ScanString, IntegerValue, IsIntegerText, Name.Bytes;
  }

  // The second decode of a stored slice cannot fail, and a stored integer is refused
  // exactly when it is outside int64.
  lemma NoEncodingErrors(payload: bytes, name: Name)
    requires ParseObject(payload).Ok?
    ensures var fields := ParseObject(payload).value;
      && RequiredString(fields, name) != Err(InvalidEncoding(name))
      && (name.Bytes() in fields && !fields[name.Bytes()].isString ==>
            (RequiredI64(fields, name).Err? <==> !FitsInt64(IntegerValue(fields[name.Bytes()].raw))))
  {
    hide ParseObject, Name.Bytes;
    var fields := ParseObject(payload).value;
    if name.Bytes() in fields {
      var d, i := SecondDecode(payload, name.Bytes());
      StoredIsUsable(fields, name);
    }
  }

  // -------------------------------------------------------------- which error

  // What is wrong with a required string, each fault exactly in its case.
  lemma StringErrors(fields: Fields, name: Name)
    ensures var r, key := RequiredString(fields, name), name.Bytes();
      && (r == Err(MissingField(name)) <==> key !in fields)
      && (r == Err(NotString(name)) <==> key in fields && !fields[key].isString)
      && (r == Err(BadLength(name)) <==>
            key in fields && fields[key].isString && exists v ::
              ScanString(fields[key].raw) == Some(Scan(v, [])) && (|v| == 0 || |v| > 128))
      && (r.Err? ==> r.error in {MissingField(name), NotString(name), InvalidEncoding(name), BadLength(name)})
  {
    hide ScanString, Name.Bytes;
    var key := name.Bytes();
    if key in fields && fields[key].isString && RequiredString(fields, name) == Err(BadLength(name)) {
      var v := ScanString(fields[key].raw).value.value;
      assert ScanString(fields[key].raw) == Some(Scan(v, []));
    }
  }

  lemma NumberErrors(fields: Fields, name: Name)
    ensures var r, key := RequiredI64(fields, name), name.Bytes();
      && (r == Err(MissingField(name)) <==> key !in fields)
      && (r == Err(NotInteger(name)) <==> key in fields && fields[key].isString)
      && (r == Err(OutOfRange(name)) <==>
            key in fields && !fields[key].isString &&
            !(IsIntegerText(fields[key].raw) &&
              -0x8000_0000_0000_0000 <= IntegerValue(fields[key].raw) <= 0x7FFF_FFFF_FFFF_FFFF))
      && (r.Err? ==> r.error in {MissingField(name), NotInteger(name), OutOfRange(name)})
  {
    hide IntegerValue, IsIntegerText, Name.Bytes;
  }

  const STRINGS: seq<Name> := [EventId, BetId, AccountId, IdempotencyKey, MatchId, MarketId, SelectionId, Odds]
  const NUMBERS: seq<Name> := [StakeCents, PotentialPayoutCents, BetTimestampMs]

  ghost predicate StringsRead(fields: Fields, n: nat)
    requires n <= |STRINGS|
  {
    forall i | 0 <= i < n :: RequiredString(fields, STRINGS[i]).Ok?
  }

  ghost predicate NumbersRead(fields: Fields, n: nat)
    requires n <= |NUMBERS|
  {
    forall i | 0 <= i < n :: RequiredI64(fields, NUMBERS[i]).Ok?
  }

  // The first string that cannot be read decides.
  lemma FirstString(fields: Fields, i: nat)
    requires fields.Keys <= ALLOWED && i < |STRINGS|
    requires StringsRead(fields, i) && RequiredString(fields, STRINGS[i]).Err?
    ensures BetOfFields(fields) == Err(RequiredString(fields, STRINGS[i]).error)
  {
    hide RequiredString, WithNumbers, Name.Bytes;
    assert STRINGS[0] == EventId && STRINGS[1] == BetId && STRINGS[2] == AccountId && STRINGS[3] == IdempotencyKey;
    assert STRINGS[4] == MatchId && STRINGS[5] == MarketId && STRINGS[6] == SelectionId && STRINGS[7] == Odds;
    assert i > 0 ==> RequiredString(fields, STRINGS[0]).Ok?;
    assert i > 1 ==> RequiredString(fields, STRINGS[1]).Ok?;
    assert i > 2 ==> RequiredString(fields, STRINGS[2]).Ok?;
    assert i > 3 ==> RequiredString(fields, STRINGS[3]).Ok?;
    assert i > 4 ==> RequiredString(fields, STRINGS[4]).Ok?;
    assert i > 5 ==> RequiredString(fields, STRINGS[5]).Ok?;
    assert i > 6 ==> RequiredString(fields, STRINGS[6]).Ok?;
  }

  lemma AllStrings(fields: Fields)
    requires StringsRead(fields, |STRINGS|)
    ensures StringsOf(fields).Ok?
  {
    hide RequiredString, Name.Bytes;
    assert STRINGS[0] == EventId && STRINGS[1] == BetId && STRINGS[2] == AccountId && STRINGS[3] == IdempotencyKey;
    assert STRINGS[4] == MatchId && STRINGS[5] == MarketId && STRINGS[6] == SelectionId && STRINGS[7] == Odds;
    assert forall i | 0 <= i < 8 :: RequiredString(fields, STRINGS[i]).Ok?;
  }

  // Behind all strings, the first number that cannot be read.
  lemma FirstNumber(fields: Fields, i: nat)
    requires fields.Keys <= ALLOWED && StringsRead(fields, |STRINGS|) && i < |NUMBERS|
    requires NumbersRead(fields, i) && RequiredI64(fields, NUMBERS[i]).Err?
    ensures BetOfFields(fields) == Err(RequiredI64(fields, NUMBERS[i]).error)
  {
    AllStrings(fields);
    hide RequiredI64, StringsOf, Name.Bytes, StringsRead;
    assert NUMBERS[0] == StakeCents && NUMBERS[1] == PotentialPayoutCents && NUMBERS[2] == BetTimestampMs;
    assert i > 0 ==> RequiredI64(fields, NUMBERS[0]).Ok?;
    assert i > 1 ==> RequiredI64(fields, NUMBERS[1]).Ok?;
  }

  // Behind all members, the first figure that makes no sense.
  lemma FirstFigure(fields: Fields)
    requires fields.Keys <= ALLOWED && StringsRead(fields, |STRINGS|) && NumbersRead(fields, |NUMBERS|)
    ensures var stake, payout, ts := RequiredI64(fields, StakeCents), RequiredI64(fields, PotentialPayoutCents), RequiredI64(fields, BetTimestampMs);
      && stake.Ok? && payout.Ok? && ts.Ok?
      && var r := BetOfFields(fields);
        && (r == Err(StakeNotPositive) <==> stake.value <= 0)
        && (r == Err(PayoutNotPositive) <==> stake.value > 0 && payout.value <= 0)
        && (r == Err(PayoutBelowStake) <==> 0 < payout.value < stake.value)
        && (r == Err(TimestampNotPositive) <==> 0 < stake.value <= payout.value && ts.value <= 0)
        && (r.Ok? <==> 0 < stake.value <= payout.value && 0 < ts.value)
  {
    AllStrings(fields);
    hide RequiredI64, StringsOf, Name.Bytes, StringsRead;
    assert NUMBERS[0] == StakeCents && NUMBERS[1] == PotentialPayoutCents && NUMBERS[2] == BetTimestampMs;
    assert RequiredI64(fields, NUMBERS[0]).Ok? && RequiredI64(fields, NUMBERS[1]).Ok? && RequiredI64(fields, NUMBERS[2]).Ok?;
  }

  lemma UnknownComesFirst(payload: bytes)
    ensures var parsed := ParseObject(payload);
      && (forall e :: BetOf(payload) == Err(Json(e)) <==> parsed == Err(e))
      && (BetOf(payload) == Err(UnknownField) <==> parsed.Ok? && !(parsed.value.Keys <= ALLOWED))
  {
    hide ParseObject, BetOfFields;
    if ParseObject(payload).Ok? {
      ErrorsOfMembers(ParseObject(payload).value);
    }
  }

  lemma ErrorsOfMembers(fields: Fields)
    ensures BetOfFields(fields).Err? ==> !BetOfFields(fields).error.Json?
    ensures BetOfFields(fields) == Err(UnknownField) <==> !(fields.Keys <= ALLOWED)
  {
    hide RequiredString, RequiredI64, Name.Bytes, ScanString, IntegerValue, IsIntegerText;
    forall name: Name
      ensures RequiredString(fields, name).Err? ==> NamesMember(RequiredString(fields, name).error)
      ensures RequiredI64(fields, name).Err? ==> NamesMember(RequiredI64(fields, name).error)
    {
      StringErrors(fields, name);
      NumberErrors(fields, name);
    }
  }

  predicate NamesMember(e: SchemaError) {
    e.MissingField? || e.NotString? || e.InvalidEncoding? || e.BadLength? || e.NotInteger? || e.OutOfRange?
  }
}

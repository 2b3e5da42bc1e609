/** The engine's result on the wire: to_json escapes every string it echoes, settlement
    decodes them.  A message is modelled by the values of its members, strings as the
    tokens that stand in the text.
  */
module ResultWire {
  import opened Wrappers
  import opened JsonStrings
  import opened BetSchema
  import opened RiskBooks
  import opened Ingress
  import opened IngressWire
  import opened SettlementTables

  datatype ResultJson = ResultJson(
    betId: bytes, accountId: bytes, key: bytes, matchId: bytes, selection: bytes, stake: int, odds: bytes,
    accepted: bool, reasonCode: bytes)

  function ReasonCode(d: Decision): bytes {
    match d
    case SchemaInvalid(_) => Ascii("SCHEMA_INVALID")
    case StaleQuote => Ascii("STALE_QUOTE")
    case AccountNotFound => Ascii("ACCOUNT_NOT_FOUND")
    case InsufficientFunds(_) => Ascii("INSUFFICIENT_FUNDS")
    case SaecExceeded(_) => Ascii("SAEC_EXCEEDED")
    case Accepted(_, _) => Ascii("ACCEPTED")
  }

  function Token(value: bytes): bytes {
    [QUOTE] + Escape(value) + [QUOTE]
  }

  // to_json
  function Emit(bet: BetSubmitted, d: Decision): ResultJson {
    ResultJson(Token(bet.betId), Token(bet.accountId), Token(bet.idempotencyKey), Token(bet.matchId),
               Token(bet.selectionId), bet.stake as int, Token(bet.odds), d.Accepted?, Token(ReasonCode(d)))
  }

  // The string that a token stands for.
  function Decode(token: bytes): Option<bytes> {
    var scan := ScanString(token);
    if scan.Some? && scan.value.rest == [] then Some(scan.value.value) else None
  }

  // The event that settlement makes of a message, if the odds have the form that ingress
  // prints.
  function Read(j: ResultJson): Option<ResultEvent> {
    var betId, accountId, key, matchId := Decode(j.betId), Decode(j.accountId), Decode(j.key), Decode(j.matchId);
    var selection, odds, reasonCode := Decode(j.selection), Decode(j.odds), Decode(j.reasonCode);
    if betId.None? || accountId.None? || key.None? || matchId.None? || selection.None? || odds.None? || reasonCode.None?
    then None
    else EventOf(betId.value, accountId.value, key.value, matchId.value, selection.value, j.stake, odds.value,
                 j.accepted, reasonCode.value)
  }

  function EventOf(betId: bytes, accountId: bytes, key: bytes, matchId: bytes, selection: bytes, stake: int,
                   odds: bytes, accepted: bool, reasonCode: bytes): Option<ResultEvent> {
    var ticks := ParseOdds(odds);
    if ticks.None? || stake < 0 then None
    else Some(ResultEvent(betId, accountId, key, matchId, selection, stake, ticks.value, accepted, reasonCode, None))
  }

  // The decision about a bet, as an event.
  function ResultOf(bet: BetSubmitted, d: Decision): Option<ResultEvent> {
    EventOf(bet.betId, bet.accountId, bet.idempotencyKey, bet.matchId, bet.selectionId, bet.stake as int, bet.odds,
            d.Accepted?, ReasonCode(d))
  }

  lemma TokenIsDecoded(value: bytes)
    requires AllPrintable(value)
    ensures Decode(Token(value)) == Some(value)
  {
    SanitizeIdentityIff(value);
    EscapeRoundTrip(value, []);
    assert Token(value) + [] == Token(value);
  }

  lemma CodeIsPrintable(d: Decision)
    ensures AllPrintable(ReasonCode(d))
  {
    var text := match d {
      case SchemaInvalid(_) => "SCHEMA_INVALID"
      case StaleQuote => "STALE_QUOTE"
      case AccountNotFound => "ACCOUNT_NOT_FOUND"
      case InsufficientFunds(_) => "INSUFFICIENT_FUNDS"
      case SaecExceeded(_) => "SAEC_EXCEEDED"
      case Accepted(_, _) => "ACCEPTED"
    };
    AsciiIsPrintable(text);
  }

  // What the engine reports about a bet that it could read, settlement reads as that
  // report: all identifiers arrive as they were posted.
  lemma ResultIsRead(bet: BetSubmitted, d: Decision)
    requires Readable(bet)
    ensures Read(Emit(bet, d)) == ResultOf(bet, d)
    ensures Read(Emit(bet, d)) ==
            if ParseOdds(bet.odds).None? then None
            else Some(ResultEvent(
              bet.betId, bet.accountId, bet.idempotencyKey, bet.matchId, bet.selectionId, bet.stake as nat,
              ParseOdds(bet.odds).value, d.Accepted?, ReasonCode(d), None))
  {
    assert WellFormed(bet);
    CodeIsPrintable(d);
    StringsArePrintable(bet);
    hide Token, Decode, ReasonCode, ParseOdds, Readable, AllPrintable;
    TokenIsDecoded(bet.betId);
    TokenIsDecoded(bet.accountId);
    TokenIsDecoded(bet.idempotencyKey);
    TokenIsDecoded(bet.matchId);
    TokenIsDecoded(bet.selectionId);
    TokenIsDecoded(bet.odds);
    TokenIsDecoded(ReasonCode(d));
  }

  lemma StringsArePrintable(bet: BetSubmitted)
    requires Readable(bet)
    ensures AllPrintable(bet.betId) && AllPrintable(bet.accountId) && AllPrintable(bet.idempotencyKey)
    ensures AllPrintable(bet.matchId) && AllPrintable(bet.selectionId) && AllPrintable(bet.odds)
  {
    hide Readable, AllPrintable;
    NamesAt();
    FieldIsPlain(bet, 1);
    FieldIsPlain(bet, 2);
    FieldIsPlain(bet, 3);
    FieldIsPlain(bet, 4);
    FieldIsPlain(bet, 6);
    FieldIsPlain(bet, 9);
  }

  lemma FieldIsPlain(bet: BetSubmitted, i: nat)
    requires Readable(bet) && i < 11 && !IsNumber(NAMES[i])
    ensures IsPlainId(StringField(bet, NAMES[i]))
  {
    hide IsPlainId, StringField, IsNumber;
    assert NAMES[i] in NAMES;
  }

  // Each decision has its own code, as the schema of the results lists them.
  lemma CodesAre(d: Decision)
    ensures ReasonCode(d) == Ascii("SCHEMA_INVALID") <==> d.SchemaInvalid?
    ensures ReasonCode(d) == Ascii("STALE_QUOTE") <==> d.StaleQuote?
    ensures ReasonCode(d) == Ascii("ACCOUNT_NOT_FOUND") <==> d.AccountNotFound?
    ensures ReasonCode(d) == Ascii("INSUFFICIENT_FUNDS") <==> d.InsufficientFunds?
    ensures ReasonCode(d) == Ascii("SAEC_EXCEEDED") <==> d.SaecExceeded?
    ensures ReasonCode(d) == Ascii("ACCEPTED") <==> d.Accepted?
  {
    assert |Ascii("SCHEMA_INVALID")| == 14 && |Ascii("STALE_QUOTE")| == 11 && |Ascii("ACCOUNT_NOT_FOUND")| == 17;
    assert |Ascii("INSUFFICIENT_FUNDS")| == 18 && |Ascii("SAEC_EXCEEDED")| == 13 && |Ascii("ACCEPTED")| == 8;
  }
}

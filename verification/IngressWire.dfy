/** The submitted event on the wire: ingress prints it as compact JSON, the risk engine's
    strict reader reads it back.
  */
module IngressWire {
  import opened Wrappers
  import opened JsonStrings
  import opened JsonObjects
  import opened JsonLanguage
  import opened BetSchema
  import opened RiskBooks
  import opened Ingress

  // ------------------------------------------------------------------- strings

  function HexDigit(d: byte): byte
    requires d < 16
  {
    if d < 10 then 0x30 + d else 0x61 + (d - 10)
  }

  // pydantic's printer: like the engine's, but control bytes without a short escape come
  // out as \u00hh.
  function DumpByte(c: byte): bytes {
    if Printable(c) then EscapeByte(c)
    else [BACKSLASH, 0x75, 0x30, 0x30, HexDigit(c / 16), HexDigit(c % 16)]
  }

  function Dump(value: bytes): bytes {
    if value == [] then [] else DumpByte(value[0]) + Dump(value[1..])
  }

  function Quoted(value: bytes): bytes {
    [QUOTE] + Dump(value) + [QUOTE]
  }

  predicate AllPrintable(value: bytes) {
    forall c | c in value :: Printable(c)
  }

  function UnitOf(c: byte): Unit {
    var text := EscapeByte(c);
    if |text| == 2 then Escaped(text[1]) else Plain(text[0])
  }

  function UnitsOf(value: bytes): seq<Unit> {
    if value == [] then [] else [UnitOf(value[0])] + UnitsOf(value[1..])
  }

  lemma ByteIsUnit(c: byte)
    requires Printable(c)
    ensures UnitOf(c).Valid() && UnitOf(c).Text() == DumpByte(c) && UnitOf(c).Value() == c
  {
  }

  lemma {:induction false} UnitsOfPrintable(value: bytes)
    requires AllPrintable(value)
    ensures ValidUnits(UnitsOf(value)) && Text(UnitsOf(value)) == Dump(value) && Value(UnitsOf(value)) == value
  {
    hide UnitOf, DumpByte, Unit.Valid, Unit.Text, Unit.Value, Printable;
    if value != [] {
      assert Printable(value[0]);
      ByteIsUnit(value[0]);
      UnitsOfPrintable(value[1..]);
      assert UnitsOf(value)[1..] == UnitsOf(value[1..]);
    }
  }

  lemma ScanDumped(c: byte, tail: bytes)
    ensures ScanBody(DumpByte(c) + tail) == if Printable(c) then Prepend(c, ScanBody(tail)) else None
  {
    var text := DumpByte(c);
    assert (text + tail)[|text|..] == tail;
    assert (text + tail)[0] == text[0] && (|text| > 1 ==> (text + tail)[1] == text[1]);
  }

  lemma {:induction false} UnprintableStops(value: bytes, rest: bytes)
    requires !AllPrintable(value)
    ensures ScanBody(Dump(value) + rest) == None
  {
    hide ScanBody, DumpByte, Printable;
    var tail := Dump(value[1..]) + rest;
    assert Dump(value) + rest == DumpByte(value[0]) + tail;
    ScanDumped(value[0], tail);
    if Printable(value[0]) {
      UnprintableStops(value[1..], rest);
    }
  }

  // A printed string is read back whole, and with the same bytes, exactly when it has no
  // control byte that prints as \u.
  lemma WireStringIff(value: bytes, rest: bytes)
    ensures ScanString(Quoted(value) + rest).Some? <==> AllPrintable(value)
    ensures AllPrintable(value) ==> ScanString(Quoted(value) + rest) == Some(Scan(value, rest))
  {
    if AllPrintable(value) {
      UnitsOfPrintable(value);
      TokenComplete(UnitsOf(value), rest);
    } else {
      UnprintableStops(value, [QUOTE] + rest);
      assert (Quoted(value) + rest)[1..] == Dump(value) + ([QUOTE] + rest);
    }
  }

  // -------------------------------------------------------------------- events

  // The members in the order in which the model declares them.
  const NAMES: seq<Name> := [
    EventId, BetId, AccountId, IdempotencyKey, MatchId, MarketId, SelectionId,
    StakeCents, PotentialPayoutCents, Odds, BetTimestampMs]

  predicate IsNumber(name: Name) {
    name.StakeCents? || name.PotentialPayoutCents? || name.BetTimestampMs?
  }

  function StringField(bet: BetSubmitted, name: Name): bytes
    requires !IsNumber(name)
  {
    match name
    case EventId => bet.eventId
    case BetId => bet.betId
    case AccountId => bet.accountId
    case IdempotencyKey => bet.idempotencyKey
    case MatchId => bet.matchId
    case MarketId => bet.marketId
    case SelectionId => bet.selectionId
    case Odds => bet.odds
  }

  function NumberField(bet: BetSubmitted, name: Name): int
    requires IsNumber(name)
  {
    match name
    case StakeCents => bet.stake as int
    case PotentialPayoutCents => bet.payout as int
    case BetTimestampMs => bet.timestamp as int
  }

  function MemberText(bet: BetSubmitted, name: Name): bytes {
    Quoted(name.Bytes()) + ([COLON] + if IsNumber(name) then IntText(NumberField(bet, name)) else Quoted(StringField(bet, name)))
  }

  function Joined(bet: BetSubmitted, names: seq<Name>): bytes {
    if names == [] then []
    else if |names| == 1 then MemberText(bet, names[0])
    else MemberText(bet, names[0]) + ([COMMA] + Joined(bet, names[1..]))
  }

  // model_dump_json
  function Payload(bet: BetSubmitted): bytes {
    [OPEN] + (Joined(bet, NAMES) + [CLOSE])
  }

  predicate IsPlainId(v: bytes) {
    AllPrintable(v) && 1 <= |v| <= 128
  }

  // A member that prints without \u.
  predicate PrintsPlain(bet: BetSubmitted, name: Name) {
    IsNumber(name) || AllPrintable(StringField(bet, name))
  }

  predicate AllPrintPlain(bet: BetSubmitted, names: seq<Name>) {
    forall n | n in names :: PrintsPlain(bet, n)
  }

  // The strings are within the length limits and free of control bytes that print as \u.
  predicate Readable(bet: BetSubmitted) {
    WellFormed(bet) && forall name: Name | name in NAMES && !IsNumber(name) :: IsPlainId(StringField(bet, name))
  }

  function TokenOf(bet: BetSubmitted, name: Name): ValueToken
    requires WellFormed(bet)
  {
    if IsNumber(name) then IntToken(false, NatText(NumberField(bet, name))) else StringToken(UnitsOf(StringField(bet, name)))
  }

  function MemberOf(bet: BetSubmitted, name: Name): Member
    requires WellFormed(bet)
  {
    Member(UnitsOf(name.Bytes()), [], [], TokenOf(bet, name), [], [])
  }

  function MembersOf(bet: BetSubmitted, names: seq<Name>): (ms: seq<Member>)
    requires WellFormed(bet)
    ensures |ms| == |names| && forall i | 0 <= i < |ms| :: ms[i] == MemberOf(bet, names[i])
  {
    seq(|names|, i requires 0 <= i < |names| => MemberOf(bet, names[i]))
  }

  lemma NameIsPrintable(name: Name)
    ensures AllPrintable(name.Bytes())
  {
    NameIsPlain(name);
    hide Name.Text;
    AsciiIsPrintable(name.Text());
  }

  lemma NameIsPlain(name: Name)
    ensures forall k | 0 <= k < |name.Text()| :: ' ' <= name.Text()[k] <= 'z'
  {
  }

  lemma AsciiIsPrintable(text: string)
    requires forall k | 0 <= k < |text| :: ' ' <= text[k] <= 'z'
    ensures AllPrintable(Ascii(text))
  {
    forall c | c in Ascii(text)
      ensures Printable(c)
    {
      var k :| 0 <= k < |text| && Ascii(text)[k] == c;
      assert text[k] as int >= 32;
    }
  }

  lemma NamesDiffer(a: Name, b: Name)
    requires a != b
    ensures a.Bytes() != b.Bytes()
  {
    assert |a.Bytes()| == |a.Text()| && |b.Bytes()| == |b.Text()|;
    if |a.Text()| == |b.Text()| {
      assert a.Bytes()[0] == a.Text()[0] as int as byte && b.Bytes()[0] == b.Text()[0] as int as byte;
    }
  }

  // A token of the grammar that stands for the member's value.
  ghost predicate Holds(bet: BetSubmitted, name: Name, v: ValueToken) {
    if IsNumber(name) then IsIntegerOf(v, NumberField(bet, name))
    else v.Valid() && v.StringToken? && Value(v.units) == StringField(bet, name)
  }

  lemma MemberIsPrinted(bet: BetSubmitted, name: Name)
    requires WellFormed(bet) && PrintsPlain(bet, name)
    ensures var m := MemberOf(bet, name);
      m.Valid() && m.Key() == name.Bytes() && m.Text() == MemberText(bet, name) && Holds(bet, name, m.value)
  {
    KeyIsPrinted(name);
    TokenIsPrinted(bet, name);
    var m := MemberOf(bet, name);
    assert m.name == UnitsOf(name.Bytes()) && m.value == TokenOf(bet, name);
    assert m.value.Valid();
    hide UnitsOf, Dump, IntText, TokenOf, Name.Bytes, PrintsPlain, ValueToken.Raw, ValueToken.Valid, IsNumber, Holds, MemberOf;
    EmptyWs(m);
  }

  lemma KeyIsPrinted(name: Name)
    ensures var us := UnitsOf(name.Bytes());
      ValidUnits(us) && Value(us) == name.Bytes() && Token(us) == Quoted(name.Bytes())
  {
    NameIsPrintable(name);
    UnitsOfPrintable(name.Bytes());
    hide UnitsOf, Dump, Name.Bytes;
  }

  lemma TokenIsPrinted(bet: BetSubmitted, name: Name)
    requires WellFormed(bet) && PrintsPlain(bet, name)
    ensures var v := TokenOf(bet, name);
      && v.Valid() && Holds(bet, name, v)
      && v.Raw() == if IsNumber(name) then IntText(NumberField(bet, name)) else Quoted(StringField(bet, name))
  {
    hide UnitsOf, Dump, NatText, DigitsValue;
    if IsNumber(name) {
      NatTextValue(NumberField(bet, name));
      assert [] + NatText(NumberField(bet, name)) == NatText(NumberField(bet, name));
    } else {
      UnitsOfPrintable(StringField(bet, name));
    }
  }

  lemma EmptyWs(m: Member)
    requires m.ws1 == [] && m.ws2 == []
    ensures m.Text() == Token(m.name) + ([COLON] + m.value.Raw())
  {
    assert [] + m.value.Raw() == m.value.Raw();
    assert [] + ([COLON] + m.value.Raw()) == [COLON] + m.value.Raw();
  }

  lemma {:induction false} MembersArePrinted(bet: BetSubmitted, names: seq<Name>)
    requires WellFormed(bet) && AllPrintPlain(bet, names) && names != []
    ensures MembersText(MembersOf(bet, names), true) == Joined(bet, names) + [CLOSE]
  {
    var m := MemberOf(bet, names[0]);
    MemberIsPrinted(bet, names[0]);
    assert m.ws3 == [] && m.after == [];
    hide MemberText, Member.Text, MemberOf, PrintsPlain;
    if |names| > 1 {
      MembersArePrinted(bet, names[1..]);
      assert MembersOf(bet, names)[1..] == MembersOf(bet, names[1..]);
      OneMoreMember(m, MembersOf(bet, names), Joined(bet, names[1..]));
    }
  }

  lemma OneMoreMember(m: Member, ms: seq<Member>, rest: bytes)
    requires |ms| > 1 && ms[0] == m && m.ws3 == [] && m.after == []
    requires MembersText(ms[1..], true) == rest + [CLOSE]
    ensures MembersText(ms, true) == m.Text() + ([COMMA] + rest) + [CLOSE]
  {
    hide Member.Text;
    assert [] + (rest + [CLOSE]) == rest + [CLOSE];
    assert [] + ([COMMA] + (rest + [CLOSE])) == [COMMA] + rest + [CLOSE];
    assert m.Text() + ([COMMA] + rest + [CLOSE]) == m.Text() + ([COMMA] + rest) + [CLOSE];
  }

  function DocOf(bet: BetSubmitted): Doc
    requires WellFormed(bet)
  {
    Doc([], [], MembersOf(bet, NAMES), true, [])
  }

  lemma NamesDistinct(i: nat, j: nat)
    requires i < j < 11
    ensures NAMES[i].Bytes() != NAMES[j].Bytes()
  {
    hide Name.Bytes;
    NamesDiffer(NAMES[i], NAMES[j]);
  }

  lemma {:induction false} MembersAreValid(bet: BetSubmitted, names: seq<Name>)
    requires WellFormed(bet) && AllPrintPlain(bet, names)
    ensures ValidMembers(MembersOf(bet, names))
    ensures forall i | 0 <= i < |names| :: MembersOf(bet, names)[i].Key() == names[i].Bytes()
  {
    hide Name.Bytes, Member.Key, Member.Valid, Member.Text, MemberText, MemberOf, PrintsPlain, IsNumber;
    var ms := MembersOf(bet, names);
    forall i | 0 <= i < |ms|
      ensures ms[i].Valid() && ms[i].Key() == names[i].Bytes()
    {
      MemberIsPrinted(bet, names[i]);
    }
  }

  lemma DocIsValid(bet: BetSubmitted)
    requires WellFormed(bet) && AllPrintPlain(bet, NAMES)
    ensures DocOf(bet).Valid()
    ensures forall i | 0 <= i < 11 :: DocOf(bet).members[i].Key() == NAMES[i].Bytes()
  {
    hide Name.Bytes, Member.Key, Member.Valid, MembersOf, PrintsPlain;
    MembersAreValid(bet, NAMES);
    var ms := DocOf(bet).members;
    forall i, j | 0 <= i < j < |ms|
      ensures ms[i].Key() != ms[j].Key()
    {
      NamesDistinct(i, j);
    }
  }

  lemma DocIsPrinted(bet: BetSubmitted)
    requires WellFormed(bet) && AllPrintPlain(bet, NAMES)
    ensures DocOf(bet).Render() == Payload(bet)
  {
    hide MembersText, Joined;
    MembersArePrinted(bet, NAMES);
    var body := DocOf(bet).Body();
    assert body + [] == body && [] + body == body;
  }

  lemma KeysAreAllowed(bet: BetSubmitted)
    requires WellFormed(bet) && DocOf(bet).Valid()
    requires forall i | 0 <= i < 11 :: DocOf(bet).members[i].Key() == NAMES[i].Bytes()
    ensures DocOf(bet).Fields().Keys == ALLOWED
  {
    hide Name.Bytes;
    var d := DocOf(bet);
    forall key
      ensures key in d.Fields() <==> key in ALLOWED
    {
      MemberLookup(map[], d.members, key);
      AllowedIff(key);
      if key in ALLOWED {
        var i :| 0 <= i < 11 && key == NAMES[i].Bytes();
        assert d.members[i].Key() == key;
      }
    }
  }

  lemma AllowedIff(key: bytes)
    ensures key in ALLOWED <==> exists i :: 0 <= i < 11 && key == NAMES[i].Bytes()
  {
    hide Name.Bytes;
    NamesAt();
  }

  ghost predicate HasField(d: Doc, bet: BetSubmitted, name: Name)
    requires d.Valid()
  {
    if IsNumber(name) then HasInteger(d, name, NumberField(bet, name)) else HasString(d, name, StringField(bet, name))
  }

  lemma HasMember(bet: BetSubmitted, i: nat)
    requires Readable(bet) && i < 11 && DocOf(bet).Valid()
    ensures HasField(DocOf(bet), bet, NAMES[i])
  {
    hide Name.Bytes, UnitsOf, NatText;
    MemberIsPrinted(bet, NAMES[i]);
    assert DocOf(bet).members[i].Key() == NAMES[i].Bytes();
  }

  // ------------------------------------------------------------- the text itself

  lemma NameIsWord(name: Name)
    ensures forall k | 0 <= k < |name.Text()| :: 'a' <= name.Text()[k] <= 'z' || name.Text()[k] == '_'
  {
  }

  lemma LetterPrintsItself(c: byte)
    requires 0x61 <= c <= 0x7A || c == 0x5F
    ensures DumpByte(c) == [c]
  {
  }

  lemma {:induction false} WordsPrintThemselves(value: bytes)
    requires forall c | c in value :: 0x61 <= c <= 0x7A || c == 0x5F
    ensures Dump(value) == value
  {
    hide DumpByte;
    if value != [] {
      assert value[0] in value && forall c | c in value[1..] :: c in value;
      LetterPrintsItself(value[0]);
      WordsPrintThemselves(value[1..]);
      assert value == [value[0]] + value[1..];
    }
  }

  lemma NameText(name: Name)
    ensures Quoted(name.Bytes()) == [0x22] + Ascii(name.Text()) + [0x22]
  {
    NameIsWord(name);
    hide Name.Text, Dump;
    forall c | c in name.Bytes()
      ensures 0x61 <= c <= 0x7A || c == 0x5F
    {
      var k :| 0 <= k < |name.Text()| && name.Bytes()[k] == c;
      assert name.Text()[k] == '_' || 'a' <= name.Text()[k] <= 'z';
    }
    WordsPrintThemselves(name.Bytes());
  }

  // A member is a name in quotes, a colon and its value.
  function Labelled(name: string, value: bytes): bytes {
    [0x22] + Ascii(name) + [0x22, 0x3A] + value
  }

  lemma MemberIsLabelled(bet: BetSubmitted, name: Name)
    ensures MemberText(bet, name) ==
            Labelled(name.Text(), if IsNumber(name) then IntText(NumberField(bet, name)) else Quoted(StringField(bet, name)))
  {
    NameText(name);
    hide Quoted, Name.Bytes, Name.Text, Ascii, IntText, NumberField, StringField, IsNumber;
    assert [0x22 as byte] + [0x3A as byte] == [0x22, 0x3A];
    LabelParts(Ascii(name.Text()), if IsNumber(name) then IntText(NumberField(bet, name)) else Quoted(StringField(bet, name)));
  }

  lemma LabelParts(name: bytes, value: bytes)
    ensures [0x22] + name + [0x22] + ([0x3A] + value) == [0x22] + name + [0x22, 0x3A] + value
  {
  }

  // Each member of the event under its name, as the schema of the events names them.
  lemma MemberTexts(bet: BetSubmitted)
    ensures MemberText(bet, EventId) == Labelled("event_id", Quoted(bet.eventId))
    ensures MemberText(bet, BetId) == Labelled("bet_id", Quoted(bet.betId))
    ensures MemberText(bet, AccountId) == Labelled("account_id", Quoted(bet.accountId))
    ensures MemberText(bet, IdempotencyKey) == Labelled("idempotency_key", Quoted(bet.idempotencyKey))
    ensures MemberText(bet, MatchId) == Labelled("match_id", Quoted(bet.matchId))
    ensures MemberText(bet, MarketId) == Labelled("market_id", Quoted(bet.marketId))
    ensures MemberText(bet, SelectionId) == Labelled("selection_id", Quoted(bet.selectionId))
    ensures MemberText(bet, StakeCents) == Labelled("stake_cents", IntText(bet.stake as int))
    ensures MemberText(bet, PotentialPayoutCents) == Labelled("potential_payout_cents", IntText(bet.payout as int))
    ensures MemberText(bet, Odds) == Labelled("odds", Quoted(bet.odds))
    ensures MemberText(bet, BetTimestampMs) == Labelled("bet_timestamp_ms", IntText(bet.timestamp as int))
  {
    hide MemberText, Quoted, IntText, Ascii, Labelled;
    MemberIsLabelled(bet, EventId);
    MemberIsLabelled(bet, BetId);
    MemberIsLabelled(bet, AccountId);
    MemberIsLabelled(bet, IdempotencyKey);
    MemberIsLabelled(bet, MatchId);
    MemberIsLabelled(bet, MarketId);
    MemberIsLabelled(bet, SelectionId);
    MemberIsLabelled(bet, StakeCents);
    MemberIsLabelled(bet, PotentialPayoutCents);
    MemberIsLabelled(bet, Odds);
    MemberIsLabelled(bet, BetTimestampMs);
  }

  // -------------------------------------------------------- nothing is garbled

  // The text behind a member: a comma and the other members, or the brace.
  function After(bet: BetSubmitted, names: seq<Name>): bytes
    requires names != []
  {
    if |names| == 1 then [CLOSE] else [COMMA] + (Joined(bet, names[1..]) + [CLOSE])
  }

  lemma JoinedIs(bet: BetSubmitted, names: seq<Name>)
    requires names != []
    ensures Joined(bet, names) + [CLOSE] == MemberText(bet, names[0]) + After(bet, names)
  {
    hide MemberText;
    if |names| > 1 {
      var first, rest := MemberText(bet, names[0]), Joined(bet, names[1..]);
      assert first + ([COMMA] + rest) + [CLOSE] == first + ([COMMA] + (rest + [CLOSE]));
    }
  }

  // A member that prints with \u, or whose name is taken, stops the reader.
  lemma MemberStops(bet: BetSubmitted, name: Name, tail: bytes, fields: Fields)
    requires name.Bytes() in fields || !PrintsPlain(bet, name)
    ensures ParseMember(MemberText(bet, name) + tail, fields).Err?
  {
    hide Quoted, Name.Bytes;
    var value := if IsNumber(name) then IntText(NumberField(bet, name)) else Quoted(StringField(bet, name));
    assert MemberText(bet, name) + tail == Quoted(name.Bytes()) + ([COLON] + (value + tail));
    NameIsPrintable(name);
    WireStringIff(name.Bytes(), [COLON] + (value + tail));
    if !PrintsPlain(bet, name) {
      WireStringIff(StringField(bet, name), tail);
      QuotedStart(StringField(bet, name), tail);
    }
    hide PrintsPlain, AllPrintable, MemberText, IntText, ScanString;
    ValueStops(MemberText(bet, name) + tail, name.Bytes(), value + tail, fields);
  }

  lemma QuotedStart(value: bytes, tail: bytes)
    ensures Quoted(value) + tail != [] && (Quoted(value) + tail)[0] == QUOTE
  {
  }

  lemma ValueStops(t: bytes, key: bytes, value: bytes, fields: Fields)
    requires ScanString(t) == Some(Scan(key, [COLON] + value))
    requires key in fields || (value != [] && value[0] == QUOTE && ScanString(value).None?)
    ensures ParseMember(t, fields).Err?
  {
    hide ScanString;
    assert ([COLON] + value)[1..] == value;
  }

  lemma {:induction false} UnprintableFails(bet: BetSubmitted, names: seq<Name>, fields: Fields)
    requires WellFormed(bet) && !AllPrintPlain(bet, names)
    ensures ParseMembers(Joined(bet, names) + [CLOSE], fields).Err?
    decreases |names|
  {
    hide MemberText, MemberOf, Holds, Name.Bytes;
    var name, tail := names[0], After(bet, names);
    JoinedIs(bet, names);
    assert tail != [] && MemberText(bet, name) + tail != [];
    if name.Bytes() in fields || !PrintsPlain(bet, name) {
      MemberStops(bet, name, tail, fields);
    } else {
      assert |names| > 1;
      MemberIsPrinted(bet, name);
      JoinedStart(bet, names[1..]);
      var m := MemberOf(bet, name);
      UnprintableFails(bet, names[1..], fields[m.Key() := m.value.Field()]);
      hide Joined, MemberText, PrintsPlain, Name.Bytes, MemberOf, ParseMember, ParseMembers, Holds, Member.Valid, Member.Text;
      MemberComplete(m, tail, fields);
      NextMember(m, tail, fields, Joined(bet, names[1..]) + [CLOSE]);
    }
  }

  lemma NextMember(m: Member, tail: bytes, fields: Fields, rest: bytes)
    requires m.Valid() && tail == [COMMA] + rest && rest != [] && !IsWs(rest[0])
    requires ParseMember(m.Text() + tail, fields) == Ok(Scanned((m.Key(), m.value.Field()), tail))
    ensures ParseMembers(m.Text() + tail, fields) == ParseMembers(rest, fields[m.Key() := m.value.Field()])
  {
    assert tail[1..] == rest && SkipWs(tail) == tail && SkipWs(rest) == rest;
    hide ParseMember;
  }

  lemma JoinedStart(bet: BetSubmitted, names: seq<Name>)
    requires names != []
    ensures (Joined(bet, names) + [CLOSE])[0] == QUOTE
  {
    JoinedIs(bet, names);
    assert Quoted(names[0].Bytes())[0] == QUOTE;
  }

  // A printed event is either read as itself or refused: never as another bet.
  lemma NeverGarbled(bet: BetSubmitted)
    requires WellFormed(bet) && BetOf(Payload(bet)).Ok?
    ensures BetOf(Payload(bet)) == Ok(bet)
  {
    hide BetOf, Payload, WellFormed, AllPrintPlain;
    if AllPrintPlain(bet, NAMES) {
      PlainIsItself(bet);
    } else {
      UnprintableIsRefused(bet);
    }
  }

  lemma UnprintableIsRefused(bet: BetSubmitted)
    requires WellFormed(bet) && !AllPrintPlain(bet, NAMES)
    ensures BetOf(Payload(bet)).Err?
  {
    UnprintableFails(bet, NAMES, map[]);
    JoinedStart(bet, NAMES);
    hide Joined, ParseMembers, AllPrintPlain, BetOfFields, WellFormed;
    InnerFails(Joined(bet, NAMES) + [CLOSE]);
  }

  lemma InnerFails(inner: bytes)
    requires inner != [] && inner[0] == QUOTE && ParseMembers(inner, map[]).Err?
    ensures ParseObject([OPEN] + inner).Err?
  {
    hide ParseMembers;
    assert ([OPEN] + inner)[1..] == inner;
  }

  lemma PlainIsItself(bet: BetSubmitted)
    requires WellFormed(bet) && AllPrintPlain(bet, NAMES) && BetOf(Payload(bet)).Ok?
    ensures BetOf(Payload(bet)) == Ok(bet)
  {
    DocIsValid(bet);
    DocIsPrinted(bet);
    DocComplete(DocOf(bet));
    assert BetOfFields(DocOf(bet).Fields()) == BetOf(Payload(bet));
    hide *;
    var read := BetOf(Payload(bet)).value;
    DescribesIff(DocOf(bet), read);
    forall i: nat | i < 11
      ensures if IsNumber(NAMES[i]) then NumberField(read, NAMES[i]) == NumberField(bet, NAMES[i])
              else StringField(read, NAMES[i]) == StringField(bet, NAMES[i])
    {
      FieldIsRead(bet, i, read);
    }
    SameFields(bet, read);
  }

  lemma SameFields(a: BetSubmitted, b: BetSubmitted)
    requires forall i: nat | i < 11 ::
      if IsNumber(NAMES[i]) then NumberField(b, NAMES[i]) == NumberField(a, NAMES[i])
      else StringField(b, NAMES[i]) == StringField(a, NAMES[i])
    ensures a == b
  {
    NamesAt();
  }

  lemma FieldIsRead(bet: BetSubmitted, i: nat, read: BetSubmitted)
    requires WellFormed(bet) && AllPrintPlain(bet, NAMES) && i < 11
    requires DocOf(bet).Valid() && forall j | 0 <= j < 11 :: DocOf(bet).members[j].Key() == NAMES[j].Bytes()
    requires Describes(DocOf(bet), read)
    ensures if IsNumber(NAMES[i]) then NumberField(read, NAMES[i]) == NumberField(bet, NAMES[i])
            else StringField(read, NAMES[i]) == StringField(bet, NAMES[i])
  {
    var d, name := DocOf(bet), NAMES[i];
    MemberIsPrinted(bet, name);
    assert d.members[i].value == MemberOf(bet, name).value;
    DescribesField(d, read, name);
    hide Name.Bytes, Describes, MemberOf, UnitsOf, PrintsPlain;
    if IsNumber(name) {
      var j :| 0 <= j < |d.members| && d.members[j].Key() == name.Bytes() && IsIntegerOf(d.members[j].value, NumberField(read, name));
      SameName(i, j);
    } else {
      var j :| 0 <= j < |d.members| && d.members[j].Key() == name.Bytes() && IsStringOf(d.members[j].value, StringField(read, name));
      SameName(i, j);
    }
  }

  lemma SameName(i: nat, j: nat)
    requires i < 11 && j < 11 && NAMES[i].Bytes() == NAMES[j].Bytes()
    ensures i == j
  {
    hide Name.Bytes;
    if i < j {
      NamesDistinct(i, j);
    } else if j < i {
      NamesDistinct(j, i);
    }
  }

  lemma DescribesField(d: Doc, bet: BetSubmitted, name: Name)
    requires d.Valid() && Describes(d, bet)
    ensures HasField(d, bet, name)
  {
    hide HasInteger, HasString, Doc.Valid, Doc.Fields;
  }

  lemma NamesAt()
    ensures NAMES[0] == EventId && NAMES[1] == BetId && NAMES[2] == AccountId && NAMES[3] == IdempotencyKey
    ensures NAMES[4] == MatchId && NAMES[5] == MarketId && NAMES[6] == SelectionId && NAMES[7] == StakeCents
    ensures NAMES[8] == PotentialPayoutCents && NAMES[9] == Odds && NAMES[10] == BetTimestampMs
  {
  }

  // What ingress prints, the engine reads as the same bet exactly when the strings are
  // readable; in particular the engine's 128 bytes are the limit, not 128 characters.
  lemma PayloadIsReadIff(bet: BetSubmitted)
    ensures BetOf(Payload(bet)) == Ok(bet) <==> Readable(bet)
  {
    if Readable(bet) {
      PayloadIsRead(bet);
    }
    if BetOf(Payload(bet)) == Ok(bet) {
      AcceptedIsReadable(Payload(bet), bet);
    }
  }

  lemma AcceptedIsReadable(payload: bytes, bet: BetSubmitted)
    requires BetOf(payload) == Ok(bet)
    ensures Readable(bet)
  {
    AcceptedPayloads(payload, bet);
    hide BetOf, HasInteger, HasString, Name.Bytes, Doc.Fields, Doc.Valid, Doc.Render;
    var d: Doc :| d.Valid() && d.Render() == payload && Describes(d, bet);
    forall name: Name | name in NAMES && !IsNumber(name)
      ensures IsPlainId(StringField(bet, name))
    {
      assert HasString(d, name, StringField(bet, name));
      DecodedIsPrintable(d, name, StringField(bet, name));
    }
  }

  lemma DecodedIsPrintable(d: Doc, name: Name, v: bytes)
    requires d.Valid() && HasString(d, name, v)
    ensures IsPlainId(v)
  {
    var i :| 0 <= i < |d.members| && d.members[i].Key() == name.Bytes() && IsStringOf(d.members[i].value, v);
    ValuesArePrintable(d.members[i].value.units);
  }

  lemma PayloadIsRead(bet: BetSubmitted)
    requires Readable(bet)
    ensures BetOf(Payload(bet)) == Ok(bet)
  {
    assert WellFormed(bet) && AllPrintPlain(bet, NAMES);
    hide *;
    var d := DocOf(bet);
    DocIsValid(bet);
    DocIsPrinted(bet);
    KeysAreAllowed(bet);
    DocDescribes(bet);
    AcceptedPayloads(Payload(bet), bet);
  }

  // End to end: a validated request whose ids are short and plain reaches the engine as
  // the bet that was built from it.
  lemma RequestReachesEngine(user: bytes, r: Request, sha256: bytes -> bytes, uuid5: bytes -> bytes)
    requires Validated(r) && r.epochMs > 0
    requires IsPlainId(user) && IsPlainId(r.matchId) && IsPlainId(r.marketId) && IsPlainId(r.selectionId)
    requires forall v :: IsPlainId(sha256(v)) && IsPlainId(uuid5(v))
    ensures SubmitBet(user, r, sha256, uuid5).Some?
    ensures var read := BetOf(Payload(SubmitBet(user, r, sha256, uuid5).value));
      read == Ok(SubmitBet(user, r, sha256, uuid5).value) && IsEventFor(read.value, user, r, sha256, uuid5)
  {
    PublishedEvent(user, r, sha256, uuid5);
    var bet := SubmitBet(user, r, sha256, uuid5).value;
    OddsArePlain(bet.odds);
    assert IsPlainId(bet.eventId) && IsPlainId(bet.idempotencyKey);
    hide ExactCents, DecimalMoneyToCents, ParseOdds, BetOf, Payload;
    PayloadIsRead(bet);
  }

  lemma OddsArePlain(odds: bytes)
    requires ParseOdds(odds).Some? && |odds| <= 32
    ensures IsPlainId(odds)
  {
    var whole, fraction := odds[..|odds| - 5], odds[|odds| - 4..];
    assert odds == whole + [DOT] + fraction;
    forall c | c in odds
      ensures Printable(c)
    {
      if c != DOT {
        assert c in whole + fraction;
      }
    }
  }

  lemma DocDescribes(bet: BetSubmitted)
    requires Readable(bet) && DocOf(bet).Valid() && DocOf(bet).Fields().Keys == ALLOWED
    ensures Describes(DocOf(bet), bet)
  {
    assert WellFormed(bet);
    hide *;
    forall i: nat | i < 11
      ensures HasField(DocOf(bet), bet, NAMES[i])
    {
      HasMember(bet, i);
    }
    FieldsDescribe(DocOf(bet), bet);
  }

  lemma FieldsDescribe(d: Doc, bet: BetSubmitted)
    requires d.Valid() && d.Fields().Keys == ALLOWED && WellFormed(bet)
    requires forall i: nat | i < 11 :: HasField(d, bet, NAMES[i])
    ensures Describes(d, bet)
  {
    hide HasString, HasInteger, Doc.Valid, Doc.Fields, Name.Bytes;
    NamesAt();
    assert HasField(d, bet, NAMES[0]) && HasField(d, bet, NAMES[1]) && HasField(d, bet, NAMES[2]) && HasField(d, bet, NAMES[3]);
    assert HasField(d, bet, NAMES[4]) && HasField(d, bet, NAMES[5]) && HasField(d, bet, NAMES[6]) && HasField(d, bet, NAMES[7]);
    assert HasField(d, bet, NAMES[8]) && HasField(d, bet, NAMES[9]) && HasField(d, bet, NAMES[10]);
  }
}

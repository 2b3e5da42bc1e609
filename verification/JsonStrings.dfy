/** JSON strings as the risk engine reads and writes them: section 7 of RFC 8259
    without `\u`.  The grammar (`Unit`, `Token`) is stated independently of the
    scanner; the loops are proved against `ScanString` and `Escape`, and those
    against the grammar.
  */
module JsonStrings {
  import opened Wrappers

  newtype byte = x: int | 0 <= x < 256
  type bytes = seq<byte>

  const QUOTE: byte := 0x22
  const BACKSLASH: byte := 0x5C
  const QUESTION: byte := 0x3F

  // The byte that `\e` stands for.
  function EscapeValue(e: byte): (v: Option<byte>)
  {
    match e
    case 0x22 => Some(QUOTE)
    case 0x5C => Some(BACKSLASH)
    case 0x2F => Some(0x2F)
    case 0x62 => Some(0x08)
    case 0x66 => Some(0x0C)
    case 0x6E => Some(0x0A)
    case 0x72 => Some(0x0D)
    case 0x74 => Some(0x09)
    case _ => None
  }

  // ------------------------------------------------------------------ grammar

  datatype Unit = Plain(c: byte) | Escaped(e: byte) {
    predicate Valid() {
      match this
      case Plain(c) => c >= 0x20 && c != QUOTE && c != BACKSLASH
      case Escaped(e) => EscapeValue(e).Some?
    }

    function Text(): bytes {
      match this
      case Plain(c) => [c]
      case Escaped(e) => [BACKSLASH, e]
    }

    function Value(): byte
      requires Valid()
    {
      match this
      case Plain(c) => c
      case Escaped(e) => EscapeValue(e).value
    }
  }

  ghost predicate ValidUnits(us: seq<Unit>) {
    forall u | u in us :: u.Valid()
  }

  function Text(us: seq<Unit>): bytes {
    if us == [] then [] else us[0].Text() + Text(us[1..])
  }

  ghost function Value(us: seq<Unit>): (v: bytes)
    requires ValidUnits(us)
  {
    if us == [] then [] else [us[0].Value()] + Value(us[1..])
  }

  function Token(us: seq<Unit>): bytes {
    [QUOTE] + Text(us) + [QUOTE]
  }

  // ------------------------------------------------------------------ scanner

  datatype Scan = Scan(value: bytes, rest: bytes)

  function Prepend(c: byte, tail: Option<Scan>): Option<Scan> {
    if tail.None? then None else Some(Scan([c] + tail.value.value, tail.value.rest))
  }

  // Scanning after the opening quote, on the bytes that remain.
  function ScanBody(t: bytes): (r: Option<Scan>)
    ensures r.Some? ==> |r.value.rest| < |t|
    decreases |t|
  {
    if t == [] then
      None
    else if t[0] == QUOTE then
      Some(Scan([], t[1..]))
    else if t[0] == BACKSLASH then
      if |t| < 2 || EscapeValue(t[1]).None? then None else Prepend(EscapeValue(t[1]).value, ScanBody(t[2..]))
    else if t[0] < 0x20 then
      None
    else
      Prepend(t[0], ScanBody(t[1..]))
  }

  function ScanString(t: bytes): (r: Option<Scan>)
    ensures r.Some? ==> |r.value.rest| < |t|
  {
    if t == [] || t[0] != QUOTE then None else ScanBody(t[1..])
  }

  function PrependAll(out: bytes, tail: Option<Scan>): Option<Scan> {
    if tail.None? then None else Some(Scan(out + tail.value.value, tail.value.rest))
  }

  // parse_json_string_token: reads at i, leaves i behind the closing quote.
  method ParseJsonStringToken(s: bytes, start: nat) returns (ok: bool, i: nat, out: bytes)
    requires start <= |s|
    ensures start <= i <= |s|
    ensures ok <==> ScanString(s[start..]).Some?
    ensures ok ==> ScanString(s[start..]) == Some(Scan(out, s[i..]))
  {
    hide ScanBody;
    i := start;
    out := [];
    if i >= |s| || s[i] != QUOTE {
      return false, i, out;
    }
    i := i + 1;
    assert s[start..][1..] == s[i..];
    PrependNothing(ScanBody(s[i..]));
    while i < |s|
      invariant start < i <= |s|
      invariant ScanString(s[start..]) == PrependAll(out, ScanBody(s[i..]))
    {
      BodyAt(s, i);
      ghost var before := out;
      var c := s[i];
      i := i + 1;
      if c == QUOTE {
        assert out + [] == out;
        return true, i, out;
      }
      if c == BACKSLASH {
        if i >= |s| {
          return false, i, out;
        }
        var v := EscapeValue(s[i]);
        i := i + 1;
        if v.None? {
          return false, i, out;
        }
        out := out + [v.value];
      } else {
        if c < 0x20 {
          return false, i, out;
        }
        out := out + [c];
      }
      PrependStep(before, out[|before|], ScanBody(s[i..]));
    }
    NothingToScan(s[i..]);
    return false, i, out;
  }

  // One step of the scanner, in terms of an index into the whole input.
  lemma BodyAt(s: bytes, i: nat)
    requires i < |s|
    ensures ScanBody(s[i..]) ==
            if s[i] == QUOTE then
              Some(Scan([], s[i + 1..]))
            else if s[i] == BACKSLASH then
              if i + 1 >= |s| || EscapeValue(s[i + 1]).None? then None
              else Prepend(EscapeValue(s[i + 1]).value, ScanBody(s[i + 2..]))
            else if s[i] < 0x20 then
              None
            else
              Prepend(s[i], ScanBody(s[i + 1..]))
  {
    var t := s[i..];
    assert t[1..] == s[i + 1..];
    if |t| >= 2 {
      assert t[2..] == s[i + 2..];
    }
  }

  lemma NothingToScan(t: bytes)
    requires t == []
    ensures ScanBody(t) == None
  {
  }

  lemma PrependNothing(tail: Option<Scan>)
    ensures PrependAll([], tail) == tail
  {
    if tail.Some? {
      assert [] + tail.value.value == tail.value.value;
    }
  }

  lemma PrependStep(out: bytes, c: byte, tail: Option<Scan>)
    ensures PrependAll(out, Prepend(c, tail)) == PrependAll(out + [c], tail)
  {
    if tail.Some? {
      assert out + ([c] + tail.value.value) == out + [c] + tail.value.value;
    }
  }

  // --------------------------------------------------- scanner == grammar

  lemma {:induction false} ScanBodyComplete(us: seq<Unit>, rest: bytes)
    requires ValidUnits(us)
    ensures ScanBody(Text(us) + [QUOTE] + rest) == Some(Scan(Value(us), rest))
  {
    var t := Text(us) + [QUOTE] + rest;
    if us == [] {
      assert t[1..] == rest;
    } else {
      var u := us[0];
      assert u.Valid();
      ScanBodyComplete(us[1..], rest);
      var t' := Text(us[1..]) + [QUOTE] + rest;
      assert t == u.Text() + t';
      assert t[|u.Text()|..] == t';
    }
  }

  lemma {:induction false} ScanBodySound(t: bytes) returns (us: seq<Unit>)
    requires ScanBody(t).Some?
    ensures ValidUnits(us)
    ensures t == Text(us) + [QUOTE] + ScanBody(t).value.rest
    ensures ScanBody(t).value.value == Value(us)
    decreases |t|
  {
    if t[0] == QUOTE {
      us := [];
      assert t == [t[0]] + t[1..];
    } else {
      var u := FirstUnit(t);
      hide ScanBody, EscapeValue, Unit.Valid, Unit.Text, Unit.Value;
      var rest := t[|u.Text()|..];
      var tail := ScanBodySound(rest);
      us := [u] + tail;
      PrependUnit(u, tail);
      hide Text, Value, ValidUnits;
      assert t == (u.Text() + Text(tail)) + [QUOTE] + ScanBody(rest).value.rest;
    }
  }

  lemma PrependUnit(u: Unit, tail: seq<Unit>)
    requires u.Valid() && ValidUnits(tail)
    ensures ValidUnits([u] + tail)
    ensures Text([u] + tail) == u.Text() + Text(tail)
    ensures Value([u] + tail) == [u.Value()] + Value(tail)
  {
    hide Unit.Valid, Unit.Text, Unit.Value;
    assert ([u] + tail)[1..] == tail;
  }

  lemma FirstUnit(t: bytes) returns (u: Unit)
    requires ScanBody(t).Some? && t[0] != QUOTE
    ensures u.Valid() && 0 < |u.Text()| <= |t| && t == u.Text() + t[|u.Text()|..]
    ensures ScanBody(t) == Prepend(u.Value(), ScanBody(t[|u.Text()|..]))
  {
    u := if t[0] == BACKSLASH then Escaped(t[1]) else Plain(t[0]);
  }

  lemma TokenComplete(us: seq<Unit>, rest: bytes)
    requires ValidUnits(us)
    ensures ScanString(Token(us) + rest) == Some(Scan(Value(us), rest))
  {
    ScanBodyComplete(us, rest);
    assert (Token(us) + rest)[1..] == Text(us) + [QUOTE] + rest;
  }

  // A string is scanned, with its value and remaining input, exactly when the input
  // starts with a token of the grammar for that value.
  lemma StringLanguage(t: bytes, value: bytes, rest: bytes)
    ensures ScanString(t) == Some(Scan(value, rest)) <==>
            exists us :: ValidUnits(us) && t == Token(us) + rest && value == Value(us)
  {
    if ScanString(t) == Some(Scan(value, rest)) {
      var us := ScanStringSound(t);
    }
    forall us | ValidUnits(us) && t == Token(us) + rest && value == Value(us)
      ensures ScanString(t) == Some(Scan(value, rest))
    {
      TokenComplete(us, rest);
    }
  }

  lemma ScanStringSound(t: bytes) returns (us: seq<Unit>)
    requires ScanString(t).Some?
    ensures ValidUnits(us)
    ensures t == Token(us) + ScanString(t).value.rest
    ensures ScanString(t).value.value == Value(us)
  {
    us := ScanBodySound(t[1..]);
    assert t == [QUOTE] + t[1..];
  }

  // ------------------------------------------------------------------ printer

  function EscapeByte(c: byte): bytes {
    match c
    case 0x22 => [BACKSLASH, QUOTE]
    case 0x5C => [BACKSLASH, BACKSLASH]
    case 0x08 => [BACKSLASH, 0x62]
    case 0x0C => [BACKSLASH, 0x66]
    case 0x0A => [BACKSLASH, 0x6E]
    case 0x0D => [BACKSLASH, 0x72]
    case 0x09 => [BACKSLASH, 0x74]
    case _ => if c < 0x20 then [QUESTION] else [c]
  }

  function Escape(value: bytes): bytes {
    if value == [] then [] else EscapeByte(value[0]) + Escape(value[1..])
  }

  method JsonEscape(value: bytes) returns (out: bytes)
    ensures out == Escape(value)
  {
    out := [];
    for k := 0 to |value|
      invariant Escape(value) == out + Escape(value[k..])
    {
      assert value[k..][0] == value[k] && value[k..][1..] == value[k + 1..];
      ghost var before := out;
      out := out + EscapeByte(value[k]);
      assert before + (EscapeByte(value[k]) + Escape(value[k + 1..])) == out + Escape(value[k + 1..]);
    }
  }

  // ---------------------------------------------------------------- round trip

  // The control bytes that have a two-character escape.
  predicate HasShortEscape(c: byte) {
    c == 0x08 || c == 0x09 || c == 0x0A || c == 0x0C || c == 0x0D
  }

  // The bytes that survive printing: everything but the other control bytes.
  predicate Printable(c: byte) {
    c >= 0x20 || HasShortEscape(c)
  }

  function Sanitize(value: bytes): (r: bytes)
    ensures |r| == |value|
    ensures forall k | 0 <= k < |value| :: r[k] == if Printable(value[k]) then value[k] else QUESTION
  {
    seq(|value|, k requires 0 <= k < |value| => if Printable(value[k]) then value[k] else QUESTION)
  }

  lemma {:induction false} EscapeIsText(value: bytes) returns (us: seq<Unit>)
    ensures ValidUnits(us) && Text(us) == Escape(value) && Value(us) == Sanitize(value)
  {
    us := [];
    if value != [] {
      var tail := EscapeIsText(value[1..]);
      var text := EscapeByte(value[0]);
      var u := if |text| == 2 then Escaped(text[1]) else Plain(text[0]);
      us := [u] + tail;
      assert us[1..] == tail;
      assert Sanitize(value) == [u.Value()] + Sanitize(value[1..]);
    }
  }

  // Printing any bytes, quoting the result and scanning it again consumes exactly the
  // printed token and gives the bytes back, with `?` for the control bytes that have
  // no short escape.
  lemma EscapeRoundTrip(value: bytes, rest: bytes)
    ensures ScanString([QUOTE] + Escape(value) + [QUOTE] + rest) == Some(Scan(Sanitize(value), rest))
  {
    var us := EscapeIsText(value);
    TokenComplete(us, rest);
  }

  lemma SanitizeIdentityIff(value: bytes)
    ensures Sanitize(value) == value <==> forall k | 0 <= k < |value| :: Printable(value[k])
  {
    if Sanitize(value) == value {
      forall k | 0 <= k < |value|
        ensures Printable(value[k])
      {
        assert Sanitize(value)[k] == value[k];
      }
    }
    if forall k | 0 <= k < |value| :: Printable(value[k]) {
      assert Sanitize(value) == value;
    }
  }

  lemma {:induction false} ValuesArePrintable(us: seq<Unit>)
    requires ValidUnits(us)
    ensures forall k | 0 <= k < |Value(us)| :: Printable(Value(us)[k])
  {
    if us != [] {
      assert us[0].Valid();
      ValuesArePrintable(us[1..]);
    }
  }

  // Whatever the engine decoded it echoes faithfully: the `?` branch is never taken.
  lemma EchoRoundTrip(t: bytes, value: bytes, rest: bytes, after: bytes)
    requires ScanString(t) == Some(Scan(value, rest))
    ensures ScanString([QUOTE] + Escape(value) + [QUOTE] + after) == Some(Scan(value, after))
  {
    var us := ScanStringSound(t);
    ValuesArePrintable(us);
    SanitizeIdentityIff(value);
    EscapeRoundTrip(value, after);
  }

  // The eight escapes of section 7 of RFC 8259 without \u, and no others.
  lemma EscapesAre(e: byte)
    ensures EscapeValue(e) ==
            if e == '"' as int as byte then Some(0x22)
            else if e == '\\' as int as byte then Some(0x5C)
            else if e == '/' as int as byte then Some(0x2F)
            else if e == 'b' as int as byte then Some(0x08)
            else if e == 'f' as int as byte then Some(0x0C)
            else if e == 'n' as int as byte then Some(0x0A)
            else if e == 'r' as int as byte then Some(0x0D)
            else if e == 't' as int as byte then Some(0x09)
            else None
  {
  }
}

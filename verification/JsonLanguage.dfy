/** The language of the risk engine's JSON reader: `ParseObject` accepts exactly the
    documents of the grammar, with exactly their members as fields, and every value it
    stores can be decoded again.
  */
module JsonLanguage {
  import opened Wrappers
  import opened JsonStrings
  import opened JsonObjects

  // -------------------------------------------------------------- white space

  lemma {:induction false} SkipWsOver(w: bytes, t: bytes)
    requires AllWs(w) && (t == [] || !IsWs(t[0]))
    ensures SkipWs(w + t) == t
  {
    if w == [] {
      assert w + t == t;
    } else {
      assert IsWs(w[0]);
      assert (w + t)[1..] == w[1..] + t;
      SkipWsOver(w[1..], t);
    }
  }

  lemma OneInFront(t: bytes, front: bytes, rest: bytes)
    requires t != [] && t[1..] == front + rest
    ensures t == [t[0]] + front + rest
  {
    assert t == [t[0]] + t[1..];
  }

  lemma {:induction false} SkipWsSplit(t: bytes) returns (w: bytes)
    ensures AllWs(w) && t == w + SkipWs(t)
  {
    w := [];
    if t != [] && IsWs(t[0]) {
      var w' := SkipWsSplit(t[1..]);
      w := [t[0]] + w';
      OneInFront(t, w', SkipWs(t[1..]));
    }
  }

  // ------------------------------------------------------------------- values

  lemma {:induction false} SkipDigitsOver(ds: bytes, t: bytes)
    requires (forall c | c in ds :: IsDigit(c)) && (t == [] || !IsDigit(t[0]))
    ensures SkipDigits(ds + t) == t
  {
    if ds == [] {
      assert ds + t == t;
    } else {
      assert IsDigit(ds[0]);
      assert (ds + t)[1..] == ds[1..] + t;
      SkipDigitsOver(ds[1..], t);
    }
  }

  lemma {:induction false} SkipDigitsSplit(t: bytes) returns (ds: bytes)
    ensures (forall c | c in ds :: IsDigit(c)) && t == ds + SkipDigits(t)
  {
    ds := [];
    if t != [] && IsDigit(t[0]) {
      var ds' := SkipDigitsSplit(t[1..]);
      ds := [t[0]] + ds';
      OneInFront(t, ds', SkipDigits(t[1..]));
    }
  }

  lemma BeforeOf(a: bytes, b: bytes)
    ensures Before(a + b, b) == a
  {
  }

  // What may stand behind a value without being read as part of it.
  predicate EndsNumber(rest: bytes) {
    rest == [] || (!IsDigit(rest[0]) && !IsFloatMark(rest[0]))
  }

  lemma ValueComplete(key: bytes, v: ValueToken, rest: bytes)
    requires v.Valid() && EndsNumber(rest)
    ensures ParseValue(key, v.Raw() + rest) == Ok(Scanned(v.Field(), rest))
  {
    var t := v.Raw() + rest;
    BeforeOf(v.Raw(), rest);
    match v
    case StringToken(us) =>
      TokenComplete(us, rest);
    case IntToken(negative, ds) =>
      assert IsDigit(ds[0]);
      SkipDigitsOver(ds, rest);
      if negative {
        assert t[1..] == ds + rest;
      } else {
        assert v.Raw() == ds;
      }
  }

  lemma ValueSound(key: bytes, t: bytes) returns (v: ValueToken)
    requires t != [] && ParseValue(key, t).Ok?
    ensures v.Valid()
    ensures t == v.Raw() + ParseValue(key, t).value.rest
    ensures v.Field() == ParseValue(key, t).value.value
  {
    var rest := ParseValue(key, t).value.rest;
    if t[0] == QUOTE {
      var us := ScanStringSound(t);
      v := StringToken(us);
    } else {
      v := IntegerSound(t);
    }
    BeforeOf(v.Raw(), rest);
  }

  lemma IntegerSound(t: bytes) returns (v: ValueToken)
    requires t != []
    requires var digits := if t[0] == MINUS then t[1..] else t; SkipDigits(digits) != digits
    ensures v.IntToken? && v.Valid()
    ensures t == v.Raw() + SkipDigits(if t[0] == MINUS then t[1..] else t)
  {
    var negative := t[0] == MINUS;
    var digits := if negative then t[1..] else t;
    var ds := SkipDigitsSplit(digits);
    v := IntToken(negative, ds);
    if negative {
      assert t == [MINUS] + t[1..];
      Assoc([MINUS], ds, SkipDigits(digits));
    } else {
      assert v.Raw() == ds;
    }
  }

  lemma Assoc(a: bytes, b: bytes, c: bytes)
    ensures (a + b) + c == a + (b + c)
  {
  }

  // ------------------------------------------------------------------ members

  lemma TextThen(m: Member, rest: bytes)
    ensures m.Text() + rest == Token(m.name) + (m.ws1 + ([COLON] + (m.ws2 + (m.value.Raw() + rest))))
  {
    var raw := m.value.Raw();
    Assoc(Token(m.name), m.ws1 + ([COLON] + (m.ws2 + raw)), rest);
    Assoc(m.ws1, [COLON] + (m.ws2 + raw), rest);
    Assoc([COLON], m.ws2 + raw, rest);
    Assoc(m.ws2, raw, rest);
  }

  lemma MemberComplete(m: Member, rest: bytes, fields: Fields)
    requires m.Valid() && m.Key() !in fields && EndsNumber(rest)
    ensures ParseMember(m.Text() + rest, fields) == Ok(Scanned((m.Key(), m.value.Field()), rest))
  {
    var t3 := m.value.Raw() + rest;
    var t2 := m.ws2 + t3;
    var t1 := m.ws1 + ([COLON] + t2);
    TextThen(m, rest);
    TokenComplete(m.name, t1);
    SkipWsOver(m.ws1, [COLON] + t2);
    assert ([COLON] + t2)[1..] == t2;
    RawStart(m.value);
    SkipWsOver(m.ws2, t3);
    ValueComplete(m.Key(), m.value, rest);
  }

  lemma RawStart(v: ValueToken)
    requires v.Valid()
    ensures v.Raw() != [] && !IsWs(v.Raw()[0])
  {
    if v.IntToken? {
      assert IsDigit(v.digits[0]);
    }
  }

  lemma MemberIsValid(m: Member)
    requires ValidUnits(m.name) && m.value.Valid() && AllWs(m.ws1) && AllWs(m.ws2) && m.ws3 == [] && m.after == []
    ensures m.Valid() && m.Key() == Value(m.name)
  {
  }

  lemma MemberInParts(t: bytes, m: Member, t0: bytes, t1: bytes, t2: bytes, rest: bytes)
    requires t == Token(m.name) + t0 && t0 == m.ws1 + t1 && t1 != []
    requires t1[0] == COLON && t1[1..] == m.ws2 + t2 && t2 == m.value.Raw() + rest
    ensures t == m.Text() + rest
  {
    assert t1 == [COLON] + t1[1..];
    TextThen(m, rest);
  }

  // What a member that was read is made of.
  lemma MemberUnfold(t: bytes, fields: Fields)
    requires ParseMember(t, fields).Ok?
    ensures ScanString(t).Some? && ScanString(t).value.value !in fields
    ensures var t1 := SkipWs(ScanString(t).value.rest);
      && t1 != [] && t1[0] == COLON && SkipWs(t1[1..]) != []
      && var v := ParseValue(ScanString(t).value.value, SkipWs(t1[1..]));
        && v.Ok?
        && ParseMember(t, fields) == Ok(Scanned((ScanString(t).value.value, v.value.value), v.value.rest))
  {
    hide ScanString, SkipWs, ParseValue;
  }

  lemma MemberSound(t: bytes, fields: Fields) returns (m: Member)
    requires ParseMember(t, fields).Ok?
    ensures m.Valid()
    ensures t == m.Text() + ParseMember(t, fields).value.rest
    ensures ParseMember(t, fields).value.value == (m.Key(), m.value.Field())
    ensures m.Key() !in fields
  {
    hide *;
    MemberUnfold(t, fields);
    var name := ScanStringSound(t);
    var t0 := ScanString(t).value.rest;
    var ws1 := SkipWsSplit(t0);
    var t1 := SkipWs(t0);
    var ws2 := SkipWsSplit(t1[1..]);
    var t2 := SkipWs(t1[1..]);
    var v := ValueSound(ScanString(t).value.value, t2);
    m := Member(name, ws1, ws2, v, [], []);
    MemberIsValid(m);
    MemberInParts(t, m, t0, t1, t2, ParseMember(t, fields).value.rest);
  }

  // What stands behind the value and the white space of the first member.
  function Delimiter(ms: seq<Member>, closed: bool, tail: bytes): bytes
    requires ms != []
  {
    if |ms| == 1 && closed then [CLOSE] + tail
    else [COMMA] + (ms[0].after + (MembersText(ms[1..], closed) + tail))
  }

  lemma MembersTextThen(ms: seq<Member>, closed: bool, tail: bytes)
    requires ms != []
    ensures MembersText(ms, closed) + tail == ms[0].Text() + (ms[0].ws3 + Delimiter(ms, closed, tail))
  {
    var m := ms[0];
    if |ms| == 1 && closed {
      Assoc(m.Text(), m.ws3 + [CLOSE], tail);
      Assoc(m.ws3, [CLOSE], tail);
    } else {
      var more := MembersText(ms[1..], closed);
      Assoc(m.Text(), m.ws3 + ([COMMA] + (m.after + more)), tail);
      Assoc(m.ws3, [COMMA] + (m.after + more), tail);
      Assoc([COMMA], m.after + more, tail);
      Assoc(m.after, more, tail);
    }
  }

  lemma MemberThenDelimiter(m: Member, delim: bytes, fields: Fields)
    requires m.Valid() && m.Key() !in fields
    requires delim != [] && (delim[0] == COMMA || delim[0] == CLOSE)
    ensures ParseMember(m.Text() + (m.ws3 + delim), fields) == Ok(Scanned((m.Key(), m.value.Field()), m.ws3 + delim))
    ensures SkipWs(m.ws3 + delim) == delim
  {
    if m.ws3 != [] {
      assert IsWs(m.ws3[0]);
    }
    MemberComplete(m, m.ws3 + delim, fields);
    SkipWsOver(m.ws3, delim);
  }

  lemma TailIsFresh(ms: seq<Member>, fields: Fields)
    requires ms != [] && ValidMembers(ms) && DistinctKeys(ms) && FreshKeys(ms, fields)
    ensures ValidMembers(ms[1..]) && DistinctKeys(ms[1..])
    ensures FreshKeys(ms[1..], fields[ms[0].Key() := ms[0].value.Field()])
  {
  }

  lemma {:induction false} MembersComplete(ms: seq<Member>, closed: bool, tail: bytes, fields: Fields)
    requires ValidMembers(ms) && DistinctKeys(ms) && FreshKeys(ms, fields)
    requires ms != [] || !closed
    requires !closed ==> tail == []
    ensures ParseMembers(MembersText(ms, closed) + tail, fields) == Ok(Scanned(AddMembers(fields, ms), tail))
    decreases |ms|
  {
    if ms == [] {
      assert MembersText(ms, closed) + tail == [];
    } else {
      var m, delim := ms[0], Delimiter(ms, closed, tail);
      assert m.Valid();
      var fields' := fields[m.Key() := m.value.Field()];
      MembersTextThen(ms, closed, tail);
      MemberThenDelimiter(m, delim, fields);
      TailIsFresh(ms, fields);
      if |ms| == 1 && closed {
        assert delim[1..] == tail;
        AddOneMember(ms, fields);
      } else {
        var more := MembersText(ms[1..], closed) + tail;
        assert delim[1..] == m.after + more;
        MembersStart(ms[1..], closed, tail);
        SkipWsOver(m.after, more);
        MembersComplete(ms[1..], closed, tail, fields');
      }
      ParseMembersUnfold(m, delim, fields);
    }
  }

  lemma AddOneMember(ms: seq<Member>, fields: Fields)
    requires |ms| == 1 && ValidMembers(ms)
    ensures AddMembers(fields, ms) == fields[ms[0].Key() := ms[0].value.Field()]
  {
    assert ms[1..] == [];
  }

  lemma ParseMembersUnfold(m: Member, delim: bytes, fields: Fields)
    requires m.Valid()
    requires delim != [] && (delim[0] == COMMA || delim[0] == CLOSE)
    requires ParseMember(m.Text() + (m.ws3 + delim), fields) == Ok(Scanned((m.Key(), m.value.Field()), m.ws3 + delim))
    requires SkipWs(m.ws3 + delim) == delim
    ensures ParseMembers(m.Text() + (m.ws3 + delim), fields) ==
            if delim[0] == COMMA then ParseMembers(SkipWs(delim[1..]), fields[m.Key() := m.value.Field()])
            else Ok(Scanned(fields[m.Key() := m.value.Field()], delim[1..]))
  {
    hide ParseMember, SkipWs;
  }

  lemma MembersStart(ms: seq<Member>, closed: bool, tail: bytes)
    requires ms != [] || tail == []
    ensures MembersText(ms, closed) + tail == [] || (MembersText(ms, closed) + tail)[0] == QUOTE
  {
    if ms != [] {
      assert Token(ms[0].name)[0] == QUOTE;
    }
  }

  lemma {:induction false} MembersSound(t: bytes, fields: Fields) returns (ms: seq<Member>, closed: bool, tail: bytes)
    requires ParseMembers(t, fields).Ok?
    ensures ValidMembers(ms) && DistinctKeys(ms) && FreshKeys(ms, fields)
    ensures ms != [] || !closed
    ensures !closed ==> tail == []
    ensures t == MembersText(ms, closed) + tail
    ensures ParseMembers(t, fields).value == Scanned(AddMembers(fields, ms), tail)
    decreases |t|
  {
    if t == [] {
      ms, closed, tail := [], false, [];
    } else {
      var m, delim := MemberAndDelimiter(t, fields);
      var fields' := fields[m.Key() := m.value.Field()];
      if delim[0] == CLOSE {
        ms, closed, tail := [m], true, delim[1..];
        AddOneMember(ms, fields);
        assert delim == [CLOSE] + tail;
      } else {
        var after := SkipWsSplit(delim[1..]);
        var more;
        more, closed, tail := MembersSound(SkipWs(delim[1..]), fields');
        m := m.(after := after);
        ms := [m] + more;
        HeadIsFresh(m, more, fields);
        AddMembersUnfold(m, more, fields);
        DelimiterOf(m, more, closed, tail, delim);
      }
      MembersTextThen(ms, closed, tail);
    }
  }

  lemma MemberAndDelimiter(t: bytes, fields: Fields) returns (m: Member, delim: bytes)
    requires t != [] && ParseMembers(t, fields).Ok?
    ensures m.Valid() && m.Key() !in fields
    ensures delim != [] && |delim| < |t| && (delim[0] == COMMA || delim[0] == CLOSE)
    ensures t == m.Text() + (m.ws3 + delim)
    ensures ParseMembers(t, fields) ==
            if delim[0] == COMMA then ParseMembers(SkipWs(delim[1..]), fields[m.Key() := m.value.Field()])
            else Ok(Scanned(fields[m.Key() := m.value.Field()], delim[1..]))
  {
    m := MemberSound(t, fields);
    var rest := ParseMember(t, fields).value.rest;
    var ws3 := SkipWsSplit(rest);
    delim := SkipWs(rest);
    var m' := m.(ws3 := ws3);
    assert m'.Text() == m.Text();
    m := m';
  }

  lemma DelimiterOf(m: Member, more: seq<Member>, closed: bool, tail: bytes, delim: bytes)
    requires delim != [] && delim[0] == COMMA && (more != [] || !closed)
    requires delim[1..] == m.after + (MembersText(more, closed) + tail)
    ensures Delimiter([m] + more, closed, tail) == delim
  {
    assert ([m] + more)[1..] == more;
    assert delim == [COMMA] + delim[1..];
  }

  lemma AddMembersUnfold(m: Member, more: seq<Member>, fields: Fields)
    requires m.Valid() && ValidMembers(more) && ValidMembers([m] + more)
    ensures AddMembers(fields, [m] + more) == AddMembers(fields[m.Key() := m.value.Field()], more)
  {
    assert ([m] + more)[1..] == more;
  }

  lemma HeadIsFresh(m: Member, more: seq<Member>, fields: Fields)
    requires m.Valid() && ValidMembers(more) && DistinctKeys(more)
    requires m.Key() !in fields && FreshKeys(more, fields[m.Key() := m.value.Field()])
    ensures ValidMembers([m] + more) && DistinctKeys([m] + more) && FreshKeys([m] + more, fields)
  {
    var ms := [m] + more;
    forall i, j | 0 <= i < j < |ms|
      ensures ms[i].Key() != ms[j].Key()
    {
      assert ms[j] == more[j - 1];
    }
  }

  // ---------------------------------------------------------------- documents

  lemma DocComplete(d: Doc)
    requires d.Valid()
    ensures ParseObject(d.Render()) == Ok(d.Fields())
  {
    hide ParseMembers, SkipWs, MembersText;
    var body := d.Body() + d.trail;
    SkipWsOver(d.lead, [OPEN] + (d.inner + body));
    assert ([OPEN] + (d.inner + body))[1..] == d.inner + body;
    assert SkipWs(d.trail) == [] by {
      assert d.trail + [] == d.trail;
      SkipWsOver(d.trail, []);
    }
    if d.members == [] && d.closed {
      SkipWsOver(d.inner, body);
      assert body[1..] == d.trail;
    } else {
      MembersStart(d.members, d.closed, d.trail);
      SkipWsOver(d.inner, body);
      MembersComplete(d.members, d.closed, d.trail, map[]);
    }
  }

  lemma DocSound(s: bytes) returns (d: Doc)
    requires ParseObject(s).Ok?
    ensures d.Valid() && d.Render() == s && d.Fields() == ParseObject(s).value
  {
    hide ParseMembers, SkipWs, MembersText;
    var lead := SkipWsSplit(s);
    var t := SkipWs(s);
    assert t == [OPEN] + t[1..];
    var inner := SkipWsSplit(t[1..]);
    var t1 := SkipWs(t[1..]);
    if t1 != [] && t1[0] == CLOSE {
      var trail := t1[1..];
      var trail' := SkipWsSplit(trail);
      assert trail' == trail;
      d := Doc(lead, inner, [], true, trail);
      assert t1 == d.Body() + trail;
    } else {
      var ms, closed, tail := MembersSound(t1, map[]);
      var trail' := SkipWsSplit(tail);
      assert trail' == tail;
      d := Doc(lead, inner, ms, closed, tail);
    }
  }

  // The parser accepts a text, with certain fields, exactly when the text is a
  // document of the grammar with those fields.
  lemma ParserLanguage(s: bytes, fields: Fields)
    ensures ParseObject(s) == Ok(fields) <==> exists d: Doc :: d.Valid() && d.Render() == s && d.Fields() == fields
  {
    if ParseObject(s) == Ok(fields) {
      var d := DocSound(s);
    }
    forall d: Doc | d.Valid() && d.Render() == s && d.Fields() == fields
      ensures ParseObject(s) == Ok(fields)
    {
      DocComplete(d);
    }
  }

  // A text that is accepted although it is cut off ends, up to white space, right
  // behind the opening brace or behind the comma of a member.
  lemma TruncatedText(d: Doc)
    requires d.Valid() && !d.closed
    ensures CutOff(d.Render())
  {
    assert d.Body() + d.trail == d.Body();
    if d.members == [] {
      assert d.inner + d.Body() == d.inner;
      Assoc(d.lead, [OPEN], d.inner);
      CutOffAt(d.lead + [OPEN], d.inner);
    } else {
      TruncatedMembers(d.members);
      PrependCutOff(d.inner, d.Body());
      PrependCutOff([OPEN], d.inner + d.Body());
      PrependCutOff(d.lead, [OPEN] + (d.inner + d.Body()));
    }
  }

  ghost predicate CutOff(t: bytes) {
    exists front: bytes, ws: bytes :: EndsInOpenOrComma(front) && AllWs(ws) && t == front + ws
  }

  predicate EndsInOpenOrComma(front: bytes) {
    front != [] && (front[|front| - 1] == OPEN || front[|front| - 1] == COMMA)
  }

  lemma CutOffAt(front: bytes, ws: bytes)
    requires EndsInOpenOrComma(front) && AllWs(ws)
    ensures CutOff(front + ws)
  {
  }

  lemma PrependCutOff(a: bytes, t: bytes)
    requires CutOff(t)
    ensures CutOff(a + t)
  {
    var front, ws :| EndsInOpenOrComma(front) && AllWs(ws) && t == front + ws;
    Assoc(a, front, ws);
    CutOffAt(a + front, ws);
  }

  lemma {:induction false} TruncatedMembers(ms: seq<Member>)
    requires ms != [] && ValidMembers(ms)
    ensures CutOff(MembersText(ms, false))
    decreases |ms|
  {
    var m, more := ms[0], MembersText(ms[1..], false);
    assert m.Valid();
    if |ms| == 1 {
      assert m.after + more == m.after;
      CutOffAt([COMMA], m.after);
    } else {
      TruncatedMembers(ms[1..]);
      PrependCutOff(m.after, more);
      PrependCutOff([COMMA], m.after + more);
    }
    PrependCutOff(m.ws3, [COMMA] + (m.after + more));
    PrependCutOff(m.Text(), m.ws3 + ([COMMA] + (m.after + more)));
  }

  // A document with its closing brace is never such a text, so whether an accepted
  // text was cut off can be told from its last byte that is not white space.
  lemma ClosedTextNotCutOff(d: Doc)
    requires d.Valid() && d.closed
    ensures !CutOff(d.Render())
  {
    var front := ClosedFront(d);
    var text := d.Render();
    if CutOff(text) {
      var front', ws' :| EndsInOpenOrComma(front') && AllWs(ws') && text == front' + ws';
      LastByteUnique(front, d.trail, front', ws');
    }
  }

  lemma ClosedFront(d: Doc) returns (front: bytes)
    requires d.Valid() && d.closed
    ensures front != [] && front[|front| - 1] == CLOSE && d.Render() == front + d.trail
  {
    ClosedBody(d);
    var body := d.Body();
    front := d.lead + ([OPEN] + (d.inner + body));
    Assoc(d.lead, [OPEN] + (d.inner + body), d.trail);
    Assoc([OPEN], d.inner + body, d.trail);
    Assoc(d.inner, body, d.trail);
  }

  lemma ClosedBody(d: Doc)
    requires d.closed
    ensures d.Body() != [] && d.Body()[|d.Body()| - 1] == CLOSE
  {
    if d.members != [] {
      ClosedMembers(d.members);
    }
  }

  lemma {:induction false} ClosedMembers(ms: seq<Member>)
    requires ms != []
    ensures var t := MembersText(ms, true); t != [] && t[|t| - 1] == CLOSE
    decreases |ms|
  {
    if |ms| > 1 {
      ClosedMembers(ms[1..]);
    }
  }

  lemma LastByteUnique(front1: bytes, ws1: bytes, front2: bytes, ws2: bytes)
    requires front1 != [] && front2 != [] && AllWs(ws1) && AllWs(ws2)
    requires front1 + ws1 == front2 + ws2
    requires !IsWs(front1[|front1| - 1]) && !IsWs(front2[|front2| - 1])
    ensures front1[|front1| - 1] == front2[|front2| - 1]
  {
    NotShorter(front1, ws1, front2, ws2);
    NotShorter(front2, ws2, front1, ws1);
    assert (front1 + ws1)[|front1| - 1] == (front2 + ws2)[|front1| - 1];
  }

  lemma NotShorter(front1: bytes, ws1: bytes, front2: bytes, ws2: bytes)
    requires front2 != [] && AllWs(ws1)
    requires front1 + ws1 == front2 + ws2
    requires !IsWs(front2[|front2| - 1])
    ensures |front2| <= |front1|
  {
    var n1, n2 := |front1|, |front2|;
    var c := (front1 + ws1)[n2 - 1];
    assert c == (front2 + ws2)[n2 - 1] == front2[n2 - 1];
  }

  // ------------------------------------------------------------ second decode

  // Members are looked up under their decoded names.
  lemma {:induction false} MemberLookup(fields: Fields, ms: seq<Member>, key: bytes)
    requires ValidMembers(ms) && DistinctKeys(ms)
    ensures key in AddMembers(fields, ms) <==> key in fields || exists i :: 0 <= i < |ms| && ms[i].Key() == key
    ensures forall i | 0 <= i < |ms| && ms[i].Key() == key :: AddMembers(fields, ms)[key] == ms[i].value.Field()
    ensures key in fields && (forall i | 0 <= i < |ms| :: ms[i].Key() != key) ==> AddMembers(fields, ms)[key] == fields[key]
    decreases |ms|
  {
    if ms != [] {
      assert ms[0].Valid();
      var fields', tail := fields[ms[0].Key() := ms[0].value.Field()], ms[1..];
      assert DistinctKeys(tail);
      MemberLookup(fields', tail, key);
      forall i | 1 <= i < |ms|
        ensures ms[i] == tail[i - 1]
      {
      }
      if i :| 0 <= i < |ms| && ms[i].Key() == key {
        if i > 0 {
          assert tail[i - 1].Key() == key;
        }
      }
    }
  }

  // What is stored under a name is the text of that member's value.  For a string, the
  // slice decodes completely when parsed alone, and to the member's value: the same that
  // it decodes to in place, whatever follows it there.
  lemma SecondDecode(s: bytes, key: bytes) returns (d: Doc, i: nat)
    requires ParseObject(s).Ok? && key in ParseObject(s).value
    ensures d.Valid() && d.Render() == s && d.Fields() == ParseObject(s).value
    ensures i < |d.members| && d.members[i].Valid() && d.members[i].Key() == key
    ensures var stored, value := ParseObject(s).value[key], d.members[i].value;
      && stored == value.Field()
      && (if stored.isString
          then ScanString(stored.raw) == Some(Scan(Value(value.units), []))
          else IsIntegerText(stored.raw))
      && (stored.isString ==> forall rest :: ScanString(stored.raw + rest) == Some(Scan(Value(value.units), rest)))
  {
    d := DocSound(s);
    MemberLookup(map[], d.members, key);
    i :| 0 <= i < |d.members| && d.members[i].Key() == key;
    assert d.members[i].Valid();
    hide ParseObject, ScanString, IsIntegerText, AddMembers, Doc.Render, Member.Key, ValueToken.Raw;
    ValueDecodes(d.members[i].value);
  }

  lemma ValueDecodes(v: ValueToken)
    requires v.Valid()
    ensures if v.StringToken? then ScanString(v.Raw()) == Some(Scan(Value(v.units), [])) else IsIntegerText(v.Raw())
    ensures v.StringToken? ==> forall rest :: ScanString(v.Raw() + rest) == Some(Scan(Value(v.units), rest))
  {
    hide ScanString;
    if v.StringToken? {
      forall rest
        ensures ScanString(v.Raw() + rest) == Some(Scan(Value(v.units), rest))
      {
        TokenComplete(v.units, rest);
      }
      assert v.Raw() + [] == v.Raw();
    } else {
      assert IsDigit(v.digits[0]);
      assert v.negative ==> v.Raw()[1..] == v.digits;
      assert !v.negative ==> v.Raw() == v.digits;
    }
  }

  function Digits(raw: bytes): bytes {
    if raw != [] && raw[0] == MINUS then raw[1..] else raw
  }

  predicate IsIntegerText(raw: bytes) {
    Digits(raw) != [] && forall c | c in Digits(raw) :: IsDigit(c)
  }

  // -------------------------------------------------------------- which error

  // A value fails as a string when no token of the grammar starts it, and otherwise for
  // want of a digit or for a mark of a fraction or exponent behind its digits.
  lemma ValueErrors(key: bytes, t: bytes)
    requires t != []
    ensures var r := ParseValue(key, t); var digits := if t[0] == 0x2D then t[1..] else t;
      && (r == Err(InvalidStringValue(key)) <==>
            t[0] == 0x22 && forall us, rest | ValidUnits(us) :: t != Token(us) + rest)
      && (r == Err(NotIntegerOrString(key)) <==> t[0] != 0x22 && (digits == [] || !(0x30 <= digits[0] <= 0x39)))
      && (r == Err(FloatForbidden(key)) <==>
            t[0] != 0x22 && digits != [] && 0x30 <= digits[0] <= 0x39 && SkipDigits(digits) != [] &&
            SkipDigits(digits)[0] in {0x2E, 0x65, 0x45})
      && (r.Err? ==> r.error in {InvalidStringValue(key), NotIntegerOrString(key), FloatForbidden(key)})
  {
    NoTokenIff(t);
    hide ScanString, Token, ValidUnits;
    var digits := if t[0] == MINUS then t[1..] else t;
    if digits != [] && IsDigit(digits[0]) {
      assert |SkipDigits(digits)| <= |digits[1..]|;
    }
  }

  lemma NoTokenIff(t: bytes)
    ensures ScanString(t).None? <==> forall us, rest | ValidUnits(us) :: t != Token(us) + rest
  {
    if ScanString(t).Some? {
      var us := ScanStringSound(t);
    }
    forall us, rest | ValidUnits(us) && t == Token(us) + rest
      ensures ScanString(t).Some?
    {
      TokenComplete(us, rest);
    }
  }

  // The first thing missing from a member.
  lemma MemberErrors(t: bytes, fields: Fields)
    ensures var r := ParseMember(t, fields);
      && (r == Err(KeyNotString) <==> forall us, rest | ValidUnits(us) :: t != Token(us) + rest)
      && (forall key :: r == Err(DuplicateField(key)) <==> NameIs(t, key) && key in fields)
      && (forall key :: r == Err(ExpectedColon(key)) <==> NameIs(t, key) && key !in fields && !ColonFollows(t))
      && (forall key :: r == Err(MissingValue(key)) <==>
            NameIs(t, key) && key !in fields && ColonFollows(t) && SkipWs(SkipWs(ScanString(t).value.rest)[1..]) == [])
  {
    NoTokenIff(t);
    hide ScanString, SkipWs, ParseValue, Token, ValidUnits;
    if ScanString(t).Some? && ColonFollows(t) {
      var t2 := SkipWs(SkipWs(ScanString(t).value.rest)[1..]);
      if t2 != [] {
        ValueErrors(ScanString(t).value.value, t2);
      }
    }
  }

  predicate NameIs(t: bytes, key: bytes) {
    ScanString(t).Some? && ScanString(t).value.value == key
  }

  predicate ColonFollows(t: bytes)
    requires ScanString(t).Some?
  {
    SkipWs(ScanString(t).value.rest) != [] && SkipWs(ScanString(t).value.rest)[0] == 0x3A
  }

  // The first of several members is read, and then comes its comma, its brace, or neither.
  lemma MembersErrors(t: bytes, fields: Fields)
    requires t != []
    ensures var m, r := ParseMember(t, fields), ParseMembers(t, fields);
      && (m.Err? ==> r == Err(m.error))
      && (m.Ok? ==>
            var next := SkipWs(m.value.rest); var fields' := fields[m.value.value.0 := m.value.value.1];
            && (next != [] && next[0] == 0x2C ==> r == ParseMembers(SkipWs(next[1..]), fields'))
            && (next != [] && next[0] == 0x7D ==> r == Ok(Scanned(fields', next[1..])))
            && (next == [] || (next[0] != 0x2C && next[0] != 0x7D) ==> r == Err(ExpectedCommaOrClose)))
  {
    hide ParseMember, SkipWs;
  }

  lemma ObjectErrors(s: bytes)
    ensures var t := SkipWs(s); var r := ParseObject(s);
      && (t == [] || t[0] != 0x7B ==> r == Err(NotAnObject))
      && (t != [] && t[0] == 0x7B ==>
            var inner := SkipWs(t[1..]);
            var members := if inner != [] && inner[0] == 0x7D then Ok(Scanned(map[], inner[1..])) else ParseMembers(inner, map[]);
            && (members.Err? ==> r == Err(members.error))
            && (members.Ok? && SkipWs(members.value.rest) != [] ==> r == Err(TrailingBytes))
            && (members.Ok? && SkipWs(members.value.rest) == [] ==> r == Ok(members.value.value)))
  {
    hide ParseMembers, SkipWs;
  }
}

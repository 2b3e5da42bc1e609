/** What the settlement transactions mean: their answers, and what becomes of each row, wallet
    and ledger entry, written out in the members of their inputs.
  */
module SettlementMeaning {
  import opened Wrappers
  import opened BetSchema
  import opened Money
  import opened SettlementTables

  // The part of a user name that comes from the id: its first eight characters.
  lemma UsernameMeaning(user: Id)
    ensures Ascii("user-") <= Username(user)
    ensures |user| >= 8 ==> Username(user) == Ascii("user-") + user[..8]
    ensures |user| < 8 ==> Username(user) == Ascii("user-") + user
  {
  }

  // Ids of at least eight characters, such as UUIDs, share a user name exactly when they
  // share their first eight.
  lemma SharedUsernameIff(a: Id, b: Id)
    requires |a| >= 8 && |b| >= 8
    ensures Username(a) == Username(b) <==> a[..8] == b[..8]
  {
    var p := Ascii("user-");
    assert Username(a)[|p|..] == a[..8] && Username(b)[|p|..] == b[..8];
  }

  // ------------------------------------------------- process_bet_result_event

  predicate Accepts(e: ResultEvent) {
    e.accepted && e.reasonCode == Ascii("ACCEPTED")
  }

  ghost predicate KeyOnRecord(db: Db, key: Id) {
    exists id | id in db.bets :: db.bets[id].key == key
  }

  // The stake is more than the wallet holds, or than the 1000.00 that would open it.
  predicate Short(db: Db, e: ResultEvent) {
    Accepts(e) && (if e.user in db.wallets then db.wallets[e.user] else 100_000) < e.stake
  }

  predicate NameTaken(db: Db, user: Id) {
    user !in db.users && Username(user) in db.users.Values
  }

  ghost predicate EventAnswer(db: Db, e: ResultEvent, outcome: Outcome) {
    && (outcome.Duplicate? <==> KeyOnRecord(db, e.key))
    && (outcome.InsufficientFunds? <==> !KeyOnRecord(db, e.key) && !NameTaken(db, e.user) && Short(db, e))
    && (outcome.IntegrityError? <==>
          !KeyOnRecord(db, e.key) && (NameTaken(db, e.user) || (!Short(db, e) && e.betId in db.bets)))
    && (outcome.Written? <==>
          !KeyOnRecord(db, e.key) && !NameTaken(db, e.user) && !Short(db, e) && e.betId !in db.bets)
  }

  // One new row with the members of the event; the stake leaves the user's own wallet, with
  // a ledger entry, exactly if the event accepts.
  ghost predicate EventWritten(db: Db, e: ResultEvent, db': Db) {
    && db'.bets == db.bets[e.betId := BetRow(
         e.user, e.key, e.matchId, e.selection, e.stake, e.odds,
         if Accepts(e) then BetAccepted else BetRejected,
         if Accepts(e) then None
         else Some(if e.reason.Some? && e.reason.value != [] then e.reason.value else e.reasonCode))]
    && db'.ledger == db.ledger + (if Accepts(e) then [Entry(e.user, -(e.stake as int), BetStake, e.betId)] else [])
    && db'.mpesa == db.mpesa
    && db'.users == (if e.user in db.users then db.users else db.users[e.user := Username(e.user)])
    && db'.wallets.Keys == db.wallets.Keys + {e.user}
    && (forall u | u in db'.wallets :: db'.wallets[u] ==
          (if u in db.wallets then db.wallets[u] else 100_000) - (if Accepts(e) && u == e.user then e.stake else 0))
  }

  lemma EventMeaning(db: Db, e: ResultEvent)
    ensures var (db', outcome) := ProcessEvent(db, e);
      && EventAnswer(db, e, outcome)
      && (if outcome.Written? then EventWritten(db, e, db') else db' == db)
  {
    var (db', outcome) := ProcessEvent(db, e);
    hide Username;
    if outcome.Written? {
      assert db'.wallets.Keys == db.wallets.Keys + {e.user};
    }
  }

  // ------------------------------------------------------ settle_match_outcome

  // The rows on the winning selection, the entries that they bring, and what one user is
  // due from them.
  function Winners(bets: map<Id, BetRow>, rows: seq<Id>, winner: Id): seq<Id>
    requires forall id | id in rows :: id in bets
  {
    if rows == [] then []
    else
      var last := rows[|rows| - 1];
      Winners(bets, rows[..|rows| - 1], winner) + if bets[last].selection == winner then [last] else []
  }

  function PaidEntries(bets: map<Id, BetRow>, winners: seq<Id>): (entries: seq<Entry>)
    requires forall id | id in winners :: id in bets
    ensures |entries| == |winners|
    ensures forall k | 0 <= k < |winners| :: entries[k] ==
              Entry(bets[winners[k]].user, PayoutCents(bets[winners[k]].stake, bets[winners[k]].odds), BetPayout, winners[k])
  {
    seq(|winners|, k requires 0 <= k < |winners| =>
      Entry(bets[winners[k]].user, PayoutCents(bets[winners[k]].stake, bets[winners[k]].odds), BetPayout, winners[k]))
  }

  function WinningsOf(bets: map<Id, BetRow>, rows: seq<Id>, winner: Id, user: Id): nat
    requires forall id | id in rows :: id in bets
  {
    if rows == [] then 0
    else
      var row := bets[rows[|rows| - 1]];
      WinningsOf(bets, rows[..|rows| - 1], winner, user) +
      if row.user == user && row.selection == winner then PayoutCents(row.stake, row.odds) else 0
  }

  lemma {:induction false} WinnersAre(bets: map<Id, BetRow>, rows: seq<Id>, winner: Id)
    requires forall id | id in rows :: id in bets
    ensures forall id :: id in Winners(bets, rows, winner) <==> id in rows && bets[id].selection == winner
    ensures Distinct(rows) ==> Distinct(Winners(bets, rows, winner))
  {
    if rows != [] {
      var front, last := rows[..|rows| - 1], rows[|rows| - 1];
      WinnersAre(bets, front, winner);
      assert rows == front + [last];
      if Distinct(rows) {
        assert Distinct(front) && last !in front;
        DistinctAppend(Winners(bets, front, winner), last);
      }
    }
  }

  lemma DistinctAppend(xs: seq<Id>, x: Id)
    requires Distinct(xs) && x !in xs
    ensures Distinct(xs + [x])
  {
  }

  // What a settlement of given rows does to every table.
  ghost predicate RowsSettled(db: Db, rows: seq<Id>, winner: Id, db': Db)
    requires forall id | id in rows :: id in db.bets
  {
    && db'.bets.Keys == db.bets.Keys
    && (forall id | id in db.bets :: db'.bets[id] ==
          if id !in rows then db.bets[id]
          else db.bets[id].(status := if db.bets[id].selection == winner then BetWon else BetLost))
    && WinnersIn(db, rows, winner)
    && db'.ledger == db.ledger + PaidEntries(db.bets, Winners(db.bets, rows, winner))
    && db'.wallets.Keys == db.wallets.Keys
    && (forall u | u in db.wallets :: db'.wallets[u] == db.wallets[u] + WinningsOf(db.bets, rows, winner, u))
    && db'.users == db.users && db'.mpesa == db.mpesa
  }

  ghost predicate WinnersIn(db: Db, rows: seq<Id>, winner: Id)
    requires forall id | id in rows :: id in db.bets
  {
    forall id | id in Winners(db.bets, rows, winner) :: id in db.bets
  }

  lemma {:induction false} SettledRow(s: Settlement, rows: seq<Id>, id: Id, winner: Id)
    requires id in s.db.bets && forall r | r in rows :: r in s.db.bets
    ensures SettleRows(s, rows, winner).db.bets[id] ==
            if id !in rows then s.db.bets[id]
            else s.db.bets[id].(status := if s.db.bets[id].selection == winner then BetWon else BetLost)
  {
    if rows != [] {
      hide PayoutOf, CreditWallet;
      var front, last := rows[..|rows| - 1], rows[|rows| - 1];
      SettledRow(s, front, id, winner);
      assert rows == front + [last];
    }
  }

  lemma {:induction false} SettledMoney(s: Settlement, rows: seq<Id>, winner: Id)
    requires Distinct(rows) && forall id | id in rows :: id in s.db.bets
    ensures WinnersIn(s.db, rows, winner)
    ensures var s' := SettleRows(s, rows, winner); var winners := Winners(s.db.bets, rows, winner);
      && s'.db.ledger == s.db.ledger + PaidEntries(s.db.bets, winners)
      && s'.won == s.won + |winners| && s'.lost == s.lost + |rows| - |winners|
      && s'.db.users == s.db.users && s'.db.mpesa == s.db.mpesa && s'.db.wallets.Keys == s.db.wallets.Keys
  {
    WinnersAre(s.db.bets, rows, winner);
    if rows != [] {
      var front, last := rows[..|rows| - 1], rows[|rows| - 1];
      SettledMoney(s, front, winner);
      SettledRow(s, front, last, winner);
      var mid := SettleRows(s, front, winner);
      assert last !in front;
      assert mid.db.bets[last] == s.db.bets[last];
      hide SettleRows, PayoutCents, WinnersIn, Distinct;
      MoneyOfOne(s, mid, front, last, winner);
    } else {
      assert s.db.ledger + PaidEntries(s.db.bets, []) == s.db.ledger;
    }
  }

  lemma MoneyOfOne(s: Settlement, mid: Settlement, front: seq<Id>, last: Id, winner: Id)
    requires forall id | id in front :: id in s.db.bets
    requires forall id | id in Winners(s.db.bets, front, winner) :: id in s.db.bets
    requires last in s.db.bets && last in mid.db.bets && mid.db.bets[last] == s.db.bets[last]
    requires mid.db.ledger == s.db.ledger + PaidEntries(s.db.bets, Winners(s.db.bets, front, winner))
    ensures var row := s.db.bets[last];
      var winners := Winners(s.db.bets, front, winner) + if row.selection == winner then [last] else [];
      SettleOne(mid, last, winner).db.ledger == s.db.ledger + PaidEntries(s.db.bets, winners)
  {
    var before := Winners(s.db.bets, front, winner);
    if s.db.bets[last].selection == winner {
      assert PaidEntries(s.db.bets, before + [last]) == PaidEntries(s.db.bets, before) + PaidEntries(s.db.bets, [last]);
    } else {
      assert before + [] == before;
    }
  }

  lemma {:induction false} SettledWallet(s: Settlement, rows: seq<Id>, winner: Id, user: Id)
    requires Distinct(rows) && user in s.db.wallets && forall id | id in rows :: id in s.db.bets
    ensures var s' := SettleRows(s, rows, winner);
      user in s'.db.wallets && s'.db.wallets[user] == s.db.wallets[user] + WinningsOf(s.db.bets, rows, winner, user)
  {
    if rows != [] {
      hide PayoutCents;
      var front, last := rows[..|rows| - 1], rows[|rows| - 1];
      SettledWallet(s, front, winner, user);
      SettledRow(s, front, last, winner);
    }
  }

  lemma MatchMeaning(db: Db, rows: seq<Id>, winner: Id)
    requires Distinct(rows) && forall id | id in rows :: id in db.bets
    ensures var s := SettleMatch(db, rows, winner);
      && RowsSettled(db, rows, winner, s.db)
      && s.won == |Winners(db.bets, rows, winner)| && s.lost == |rows| - s.won
  {
    var start := Settlement(db, 0, 0, 0);
    SettledMoney(start, rows, winner);
    hide SettleRows, Winners, PaidEntries, WinningsOf, Distinct;
    forall id | id in db.bets
      ensures SettleMatch(db, rows, winner).db.bets[id] ==
        if id !in rows then db.bets[id]
        else db.bets[id].(status := if db.bets[id].selection == winner then BetWon else BetLost)
    {
      SettledRow(start, rows, id, winner);
    }
    forall u | u in db.wallets
      ensures SettleMatch(db, rows, winner).db.wallets[u] == db.wallets[u] + WinningsOf(db.bets, rows, winner, u)
    {
      SettledWallet(start, rows, winner, u);
    }
  }

  // Whatever a settlement of a match may select: bets of other matches, and bets that were
  // not accepted, stay the same rows, and no new ledger entry refers to one of them.
  lemma OtherMatchesUntouched(db: Db, matchId: Id, rows: seq<Id>, winner: Id)
    requires Enabled(db, Settle(matchId, rows, winner))
    ensures var db' := Apply(db, Settle(matchId, rows, winner));
      && db'.bets.Keys == db.bets.Keys && db.ledger <= db'.ledger
      && (forall id | id in db.bets && (db.bets[id].matchId != matchId || !db.bets[id].status.BetAccepted?) ::
            db'.bets[id] == db.bets[id])
      && (forall k | |db.ledger| <= k < |db'.ledger| ::
            var entry := db'.ledger[k];
            && entry.kind == BetPayout && entry.reference in db.bets
            && db.bets[entry.reference].matchId == matchId && db.bets[entry.reference].selection == winner
            && db.bets[entry.reference].status.BetAccepted?)
  {
    MatchMeaning(db, rows, winner);
    WinnersAre(db.bets, rows, winner);
    hide SettleMatch, Winners, Distinct;
    var db' := Apply(db, Settle(matchId, rows, winner));
    var winners := Winners(db.bets, rows, winner);
    forall k | |db.ledger| <= k < |db'.ledger|
      ensures db'.ledger[k] == PaidEntries(db.bets, winners)[k - |db.ledger|] && winners[k - |db.ledger|] in winners
    {
    }
  }

  // ------------------------------------------------------------- M-Pesa rows

  predicate IsPending(db: Db, body: CallbackBody) {
    body.StkCallback? && body.checkout.Some? && body.checkout.value != [] &&
    body.checkout.value in db.mpesa && db.mpesa[body.checkout.value].status.MpesaPending?
  }

  // The four answers.
  ghost predicate CallbackAnswer(db: Db, body: CallbackBody, reply: CallbackReply) {
    && (reply.BadRequest? <==> body.Malformed? || body.checkout.None? || body.checkout.value == [])
    && (reply.WalletNotFound? <==>
          IsPending(db, body) && body.resultCode == 0 && db.mpesa[body.checkout.value].user !in db.wallets)
  }

  // A pending row takes code and description; it succeeds on code 0 alone, and exactly then
  // takes the receipt, and its user the amount, with one deposit entry.
  ghost predicate CallbackTaken(db: Db, body: CallbackBody, db': Db)
    requires IsPending(db, body)
  {
    var c := body.checkout.value;
    var row := db.mpesa[c];
    && db'.mpesa == db.mpesa[c := MpesaRow(
         row.user, row.amount, if body.resultCode == 0 then MpesaSuccess else MpesaFailed,
         Some(body.resultCode), body.resultDesc, if body.resultCode == 0 then body.receipt else row.receipt)]
    && db'.ledger == db.ledger + (if body.resultCode == 0 then [Entry(row.user, row.amount * 100, Deposit, c)] else [])
    && db'.wallets.Keys == db.wallets.Keys
    && (forall u | u in db.wallets ::
          db'.wallets[u] == db.wallets[u] + if body.resultCode == 0 && u == row.user then row.amount * 100 else 0)
    && db'.users == db.users && db'.bets == db.bets
  }

  lemma CallbackMeaning(db: Db, body: CallbackBody)
    ensures var (db', reply) := Callback(db, body);
      && CallbackAnswer(db, body, reply)
      && (if IsPending(db, body) && reply.Ack? then CallbackTaken(db, body, db') else db' == db)
  {
  }

  // A push opens an empty wallet where there is none, whatever the gateway answers, and
  // leaves a pending row for a checkout id that is new.
  ghost predicate PushTaken(db: Db, user: Id, amount: nat, gateway: Option<Id>, db': Db, ok: bool) {
    && (ok <==> !NameTaken(db, user) && gateway.Some? && gateway.value !in db.mpesa)
    && db'.bets == db.bets && db'.ledger == db.ledger
    && db'.mpesa == (if ok then db.mpesa[gateway.value := MpesaRow(user, amount, MpesaPending, None, None, None)] else db.mpesa)
    && (if NameTaken(db, user) then db'.users == db.users && db'.wallets == db.wallets
        else
          && db'.users == (if user in db.users then db.users else db.users[user := Username(user)])
          && db'.wallets == (if user in db.wallets then db.wallets else db.wallets[user := 0]))
  }

  lemma PushMeaning(db: Db, user: Id, amount: nat, gateway: Option<Id>)
    ensures var (base, welcome) := StkOpen(db, user);
      var (db', ok) := if !welcome || gateway.None? then (base, false) else StkInsert(base, gateway.value, user, amount);
      PushTaken(db, user, amount, gateway, db', ok)
  {
    hide Username;
  }
}

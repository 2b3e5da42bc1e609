/** The settlement service's transactions as they run: statement by statement on the
    tables, with a rollback to the state at `begin`.
  */
module SettlementStore {
  import opened Wrappers
  import opened Money
  import opened BetSchema
  import opened SettlementTables
  import opened SettlementMeaning

  lemma OneRowMore(db: Db, rows: seq<Id>, id: Id, winner: Id)
    requires id in db.bets && forall r | r in rows :: r in db.bets
    ensures forall r | r in rows + [id] :: r in db.bets
    ensures SettleMatch(db, rows + [id], winner) == SettleOne(SettleMatch(db, rows, winner), id, winner)
  {
    assert (rows + [id])[..|rows|] == rows;
  }

  lemma NoRows(db: Db, winner: Id)
    ensures SettleMatch(db, [], winner) == Settlement(db, 0, 0, 0)
  {
  }

  class Store {
    var users: map<Id, Id>
    var wallets: map<Id, int>
    var bets: map<Id, BetRow>
    var ledger: seq<Entry>
    var mpesa: map<Id, MpesaRow>

    constructor ()
      ensures Tables() == EMPTY_DB
    {
      users, wallets, bets, ledger, mpesa := map[], map[], map[], [], map[];
    }

    function Tables(): Db
      reads this
    {
      Db(users, wallets, bets, ledger, mpesa)
    }

    method Rollback(begin: Db)
      modifies this
      ensures Tables() == begin
    {
      users, wallets, bets, ledger, mpesa := begin.users, begin.wallets, begin.bets, begin.ledger, begin.mpesa;
    }

    method InsertUserAndWallet(user: Id, seed: int) returns (ok: bool)
      modifies this
      ensures ok <==> UsernameFree(old(Tables()), user)
      ensures Tables() == if ok then EnsureUser(old(Tables()), user, seed) else old(Tables())
    {
      if user !in users {
        if Username(user) in users.Values {
          return false;
        }
        users := users[user := Username(user)];
      }
      if user !in wallets {
        wallets := wallets[user := seed];
      }
      return true;
    }

    // UPDATE wallets SET balance = balance - stake WHERE user_id = ... AND balance >= stake
    method DebitWallet(user: Id, stake: nat) returns (rowcount: nat)
      modifies this`wallets
      ensures rowcount == if user in old(wallets) && old(wallets)[user] >= stake then 1 else 0
      ensures wallets == if rowcount == 1 then old(wallets)[user := old(wallets)[user] - stake] else old(wallets)
    {
      if user in wallets && wallets[user] >= stake {
        wallets := wallets[user := wallets[user] - stake];
        return 1;
      }
      return 0;
    }

    method CreditWalletRow(user: Id, amount: int) returns (rowcount: nat)
      modifies this`wallets
      ensures rowcount == if user in old(wallets) then 1 else 0
      ensures wallets == CreditWallet(old(wallets), user, amount)
    {
      if user in wallets {
        wallets := wallets[user := wallets[user] + amount];
        return 1;
      }
      return 0;
    }

    // The flush of one new bet: primary key and unique idempotency key.
    method InsertBet(id: Id, row: BetRow) returns (ok: bool)
      modifies this`bets
      ensures ok <==> id !in old(bets) && !KeyUsed(old(bets), row.key)
      ensures bets == if ok then old(bets)[id := row] else old(bets)
    {
      if id in bets || KeyUsed(bets, row.key) {
        return false;
      }
      bets := bets[id := row];
      return true;
    }

    method ProcessBetResultEvent(e: ResultEvent) returns (outcome: Outcome)
      modifies this
      ensures (Tables(), outcome) == ProcessEvent(old(Tables()), e)
      ensures EventAnswer(old(Tables()), e, outcome)
      ensures if outcome.Written? then EventWritten(old(Tables()), e, Tables()) else Tables() == old(Tables())
    {
      EventMeaning(Tables(), e);
      hide EventAnswer, EventWritten, KeyUsed, Username;
      var status := if e.accepted && e.reasonCode == Ascii("ACCEPTED") then BetAccepted else BetRejected;
      var begin := Tables();
      if KeyUsed(bets, e.key) {
        return Duplicate;
      }
      var ok := InsertUserAndWallet(e.user, WORKER_SEED_CENTS);
      if !ok {
        Rollback(begin);
        return IntegrityError;
      }
      if status.BetAccepted? {
        var rowcount := DebitWallet(e.user, e.stake);
        if rowcount != 1 {
          Rollback(begin);
          return InsufficientFunds;
        }
        var inserted := InsertBet(e.betId, BetRow(e.user, e.key, e.matchId, e.selection, e.stake, e.odds, BetAccepted, None));
        if !inserted {
          Rollback(begin);
          return IntegrityError;
        }
        ledger := ledger + [Entry(e.user, -(e.stake as int), BetStake, e.betId)];
      } else {
        var reason := if e.reason.Some? && e.reason.value != [] then e.reason.value else e.reasonCode;
        var inserted := InsertBet(e.betId, BetRow(e.user, e.key, e.matchId, e.selection, e.stake, e.odds, BetRejected, Some(reason)));
        if !inserted {
          Rollback(begin);
          return IntegrityError;
        }
      }
      return Written;
    }

    // One round of the loop below, with its counters.
    method SettleBet(id: Id, winner: Id, won0: nat, lost0: nat, total0: nat) returns (won: nat, lost: nat, total: nat)
      requires id in bets
      modifies this
      ensures Settlement(Tables(), won, lost, total) == SettleOne(Settlement(old(Tables()), won0, lost0, total0), id, winner)
      ensures id in bets && bets == old(bets)[id := bets[id]]
    {
      hide PayoutCents;
      won, lost, total := won0, lost0, total0;
      var bet := bets[id];
      if bet.selection == winner {
        var payout := PayoutCents(bet.stake, bet.odds);
        var _ := CreditWalletRow(bet.user, payout);
        bets := bets[id := bet.(status := BetWon)];
        ledger := ledger + [Entry(bet.user, payout, BetPayout, id)];
        won := won + 1;
        total := total + payout;
      } else {
        bets := bets[id := bet.(status := BetLost)];
        lost := lost + 1;
      }
    }

    // Rows locked by others are skipped; the query returns the rest in some order, which
    // is reported in `rows`.
    method SettleMatchOutcome(matchId: Id, winner: Id, locked: set<Id>)
      returns (won: nat, lost: nat, total: nat, rows: seq<Id>)
      modifies this
      ensures Selection(old(Tables()), matchId, rows)
      ensures Settlement(Tables(), won, lost, total) == SettleMatch(old(Tables()), rows, winner)
      ensures forall id :: id in rows <==>
                id in old(bets) && old(bets)[id].matchId == matchId && old(bets)[id].status.BetAccepted? && id !in locked
      ensures bets.Keys == old(bets).Keys
      ensures forall id | id in old(bets) ::
                if old(bets)[id].matchId == matchId && old(bets)[id].status.BetAccepted? && id !in locked
                then bets[id] == old(bets)[id].(status := if old(bets)[id].selection == winner then BetWon else BetLost)
                else bets[id] == old(bets)[id]
      ensures RowsSettled(old(Tables()), rows, winner, Tables())
      ensures won == |Winners(old(bets), rows, winner)| && lost == |rows| - won
    {
      NoRows(Tables(), winner);
      assert Distinct([]);
      hide SettleRows, PayoutCents, Winners, PaidEntries, WinningsOf, WinnersIn, Distinct, SettleOne;
      rows, won, lost, total := [], 0, 0, 0;
      ghost var begin := Tables();
      var left := set id | id in bets && Selectable(Tables(), matchId, id) && id !in locked;
      ghost var selected := left;
      while left != {}
        invariant left <= selected
        invariant forall id :: id in rows <==> id in selected && id !in left
        invariant Distinct(rows)
        invariant forall id | id in rows :: id in begin.bets
        invariant Settlement(Tables(), won, lost, total) == SettleMatch(begin, rows, winner)
        invariant forall id | id in left :: id in bets && bets[id] == begin.bets[id]
        decreases left
      {
        var id :| id in left;
        left := left - {id};
        ghost var before := Settlement(Tables(), won, lost, total);
        won, lost, total := SettleBet(id, winner, won, lost, total);
        assert bets == before.db.bets[id := bets[id]];
        OneRowMore(begin, rows, id, winner);
        DistinctAppend(rows, id);
        rows := rows + [id];
      }
      MatchMeaning(begin, rows, winner);
    }

    // The gateway's answer is a parameter: the checkout id of an accepted push, or none.
    method StkPushDeposit(user: Id, amount: nat, gateway: Option<Id>) returns (ok: bool)
      requires 0 < amount
      modifies this
      ensures PushTaken(old(Tables()), user, amount, gateway, Tables(), ok)
      ensures var (base, welcome) := StkOpen(old(Tables()), user);
        (Tables(), ok) == if !welcome || gateway.None? then (base, false) else StkInsert(base, gateway.value, user, amount)
    {
      PushMeaning(Tables(), user, amount, gateway);
      hide PushTaken;
      var welcome := InsertUserAndWallet(user, STK_SEED_CENTS);
      if !welcome {
        return false;
      }
      if gateway.None? {
        return false;
      }
      if user !in users || gateway.value in mpesa {
        return false;
      }
      mpesa := mpesa[gateway.value := MpesaRow(user, amount, MpesaPending, None, None, None)];
      return true;
    }

    method MpesaStkCallback(body: CallbackBody) returns (reply: CallbackReply)
      modifies this
      ensures (Tables(), reply) == Callback(old(Tables()), body)
      ensures CallbackAnswer(old(Tables()), body, reply)
      ensures if IsPending(old(Tables()), body) && reply.Ack?
              then CallbackTaken(old(Tables()), body, Tables()) else Tables() == old(Tables())
    {
      CallbackMeaning(Tables(), body);
      hide CallbackAnswer, CallbackTaken, IsPending;
      if body.Malformed? {
        return BadRequest;
      }
      if body.checkout.None? || body.checkout.value == [] {
        return BadRequest;
      }
      var begin := Tables();
      var checkout := body.checkout.value;
      if checkout !in mpesa || !mpesa[checkout].status.MpesaPending? {
        return Ack;
      }
      ghost var row := mpesa[checkout].(resultCode := Some(body.resultCode), resultDesc := body.resultDesc);
      mpesa := mpesa[checkout := mpesa[checkout].(resultCode := Some(body.resultCode), resultDesc := body.resultDesc)];
      if body.resultCode == 0 {
        mpesa := mpesa[checkout := mpesa[checkout].(receipt := body.receipt)];
        mpesa := mpesa[checkout := mpesa[checkout].(status := MpesaSuccess)];
        assert mpesa == begin.mpesa[checkout := row.(status := MpesaSuccess, receipt := body.receipt)];
        var txn := mpesa[checkout];
        var amountCents := txn.amount * 100;
        var rowcount := CreditWalletRow(txn.user, amountCents);
        if rowcount != 1 {
          Rollback(begin);
          return WalletNotFound;
        }
        ledger := ledger + [Entry(txn.user, amountCents, Deposit, checkout)];
      } else {
        mpesa := mpesa[checkout := mpesa[checkout].(status := MpesaFailed)];
        assert mpesa == begin.mpesa[checkout := row.(status := MpesaFailed)];
      }
      return Ack;
    }
  }
}

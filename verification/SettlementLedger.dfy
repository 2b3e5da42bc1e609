/** What every reachable state of the settlement database keeps, whatever way the
    transactions interleave and abort: the ledger is exactly what bets and M-Pesa rows
    call for, every wallet reconciles with it, and final rows never change.
  */
module SettlementLedger {
  import opened Wrappers
  import opened Money
  import opened SettlementTables
  import opened SettlementMeaning

  // ------------------------------------------------------------ ledger queries

  // The ledger rows of one kind for one reference, oldest first.
  function Matching(ledger: seq<Entry>, kind: LedgerKind, reference: Id): seq<Entry> {
    if ledger == [] then
      []
    else
      var last := ledger[|ledger| - 1];
      Matching(ledger[..|ledger| - 1], kind, reference) +
      if last.kind == kind && last.reference == reference then [last] else []
  }

  // The sum of a user's ledger amounts.
  function LedgerSum(ledger: seq<Entry>, user: Id): int {
    if ledger == [] then
      0
    else
      var last := ledger[|ledger| - 1];
      LedgerSum(ledger[..|ledger| - 1], user) + if last.user == user then last.amount else 0
  }

  lemma AppendMatching(ledger: seq<Entry>, e: Entry, kind: LedgerKind, reference: Id)
    ensures Matching(ledger + [e], kind, reference) ==
            Matching(ledger, kind, reference) + if e.kind == kind && e.reference == reference then [e] else []
  {
    assert (ledger + [e])[..|ledger|] == ledger;
  }

  lemma AppendSum(ledger: seq<Entry>, e: Entry, user: Id)
    ensures LedgerSum(ledger + [e], user) == LedgerSum(ledger, user) + if e.user == user then e.amount else 0
  {
    assert (ledger + [e])[..|ledger|] == ledger;
  }

  // ------------------------------------------------------------- ledger shape

  // The rows that the tables call for under a kind and reference: one stake row for a bet
  // that was not rejected, one payout row for a bet that won, one deposit row for a
  // successful M-Pesa transaction, and nothing else.
  function Expected(db: Db, kind: LedgerKind, reference: Id): seq<Entry> {
    match kind
    case BetStake =>
      if reference in db.bets && !db.bets[reference].status.BetRejected?
      then [Entry(db.bets[reference].user, -(db.bets[reference].stake as int), BetStake, reference)] else []
    case BetPayout =>
      if reference in db.bets && db.bets[reference].status.BetWon?
      then [PayoutEntry(reference, db.bets[reference])] else []
    case Deposit =>
      if reference in db.mpesa && db.mpesa[reference].status.MpesaSuccess?
      then [DepositEntry(reference, db.mpesa[reference])] else []
  }

  ghost predicate LedgerShape(db: Db) {
    forall kind: LedgerKind, reference: Id :: Matching(db.ledger, kind, reference) == Expected(db, kind, reference)
  }

  ghost predicate TablesOk(db: Db) {
    && db.users.Keys == db.wallets.Keys
    && (forall u | u in db.wallets :: 0 <= db.wallets[u])
    && (forall id | id in db.bets :: BetOk(db, db.bets[id]))
    && (forall i, j | i in db.bets && j in db.bets && db.bets[i].key == db.bets[j].key :: i == j)
    && (forall c | c in db.mpesa :: db.mpesa[c].user in db.wallets && 0 < db.mpesa[c].amount)
  }

  // Owners have a wallet, and the columns are those of a valid event.
  ghost predicate BetOk(db: Db, row: BetRow) {
    row.user in db.wallets && 0 < row.stake && 10000 < row.odds < Pow10(10)
  }

  ghost predicate Inv(db: Db) {
    TablesOk(db) && LedgerShape(db)
  }

  // What a wallet started from: its balance less all that the ledger records for it.
  function Opening(db: Db, user: Id): int
    requires user in db.wallets
  {
    db.wallets[user] - LedgerSum(db.ledger, user)
  }

  // -------------------------------------------------------------- how rows move

  ghost predicate BetMoves(before: BetRow, after: BetRow) {
    after == before || (before.status.BetAccepted? && (after == before.(status := BetWon) || after == before.(status := BetLost)))
  }

  ghost predicate MpesaMoves(before: MpesaRow, after: MpesaRow) {
    after == before || (before.status.MpesaPending? && !after.status.MpesaPending? &&
                        after.user == before.user && after.amount == before.amount)
  }

  // Rows are never deleted; only ACCEPTED bets and PENDING deposits change, once; the
  // ledger is append-only; and every wallet keeps its opening balance.
  ghost predicate Evolves(db: Db, db': Db) {
    && (forall u | u in db.users :: u in db'.users && db'.users[u] == db.users[u])
    && (forall id | id in db.bets :: id in db'.bets && BetMoves(db.bets[id], db'.bets[id]))
    && (forall c | c in db.mpesa :: c in db'.mpesa && MpesaMoves(db.mpesa[c], db'.mpesa[c]))
    && db.ledger <= db'.ledger
    && (forall u | u in db.wallets :: u in db'.wallets && Opening(db', u) == Opening(db, u))
  }

  // A wallet that a step creates opens with the seed of the transaction that created it.
  ghost predicate NewWallets(db: Db, db': Db, seed: int) {
    forall u | u in db'.wallets && u !in db.wallets :: Opening(db', u) == seed
  }

  lemma EvolvesTransitive(a: Db, b: Db, c: Db)
    requires Evolves(a, b) && Evolves(b, c)
    ensures Evolves(a, c)
  {
    hide LedgerSum;
    forall id | id in a.bets
      ensures id in c.bets && BetMoves(a.bets[id], c.bets[id])
    {
      assert id in b.bets && BetMoves(a.bets[id], b.bets[id]) && BetMoves(b.bets[id], c.bets[id]);
    }
    forall k | k in a.mpesa
      ensures k in c.mpesa && MpesaMoves(a.mpesa[k], c.mpesa[k])
    {
      assert k in b.mpesa && MpesaMoves(a.mpesa[k], b.mpesa[k]) && MpesaMoves(b.mpesa[k], c.mpesa[k]);
    }
  }

  // ------------------------------------------------------------- entry by entry

  // In a state with the right shape, every ledger row stands under its own reference, so
  // its owner has a wallet and a user without a wallet has no ledger rows.
  lemma {:induction false} MatchingHolds(ledger: seq<Entry>, k: nat)
    requires k < |ledger|
    ensures ledger[k] in Matching(ledger, ledger[k].kind, ledger[k].reference)
  {
    var front := ledger[..|ledger| - 1];
    if k < |front| {
      assert front[k] == ledger[k];
      MatchingHolds(front, k);
    }
  }

  lemma EntryOwner(db: Db, k: nat)
    requires Inv(db) && k < |db.ledger|
    ensures db.ledger[k].user in db.wallets
    ensures Expected(db, db.ledger[k].kind, db.ledger[k].reference) == [db.ledger[k]]
  {
    var e := db.ledger[k];
    MatchingHolds(db.ledger, k);
    hide Matching;
    assert Matching(db.ledger, e.kind, e.reference) == Expected(db, e.kind, e.reference);
    if e.kind.Deposit? {
      assert e.reference in db.mpesa;
    } else {
      assert e.reference in db.bets;
    }
  }

  lemma {:induction false} NoRowsNoSum(ledger: seq<Entry>, user: Id)
    requires forall k | 0 <= k < |ledger| :: ledger[k].user != user
    ensures LedgerSum(ledger, user) == 0
  {
    if ledger != [] {
      NoRowsNoSum(ledger[..|ledger| - 1], user);
    }
  }

  lemma NewWalletOpening(db: Db, user: Id)
    requires Inv(db) && user !in db.wallets
    ensures LedgerSum(db.ledger, user) == 0
  {
    forall k | 0 <= k < |db.ledger|
      ensures db.ledger[k].user != user
    {
      EntryOwner(db, k);
    }
    NoRowsNoSum(db.ledger, user);
  }

  // -------------------------------------------------------------- building blocks

  lemma EnsureUserOk(db: Db, user: Id, seed: int)
    requires Inv(db) && 0 <= seed
    ensures var db' := EnsureUser(db, user, seed);
      && Inv(db') && Evolves(db, db') && NewWallets(db, db', seed) && user in db'.wallets
      && db'.bets == db.bets && db'.mpesa == db.mpesa && db'.ledger == db.ledger
  {
    hide Matching, LedgerSum;
    var db' := EnsureUser(db, user, seed);
    if user !in db.wallets {
      NewWalletOpening(db, user);
    }
    SameTablesShape(db, db');
    hide LedgerShape;
    assert db'.wallets.Keys == db.wallets.Keys + {user};
    assert db'.users.Keys == db.users.Keys + {user};
    forall id | id in db'.bets
      ensures BetOk(db', db'.bets[id])
    {
      assert BetOk(db, db.bets[id]);
    }
  }

  // The shape is a matter of bets, M-Pesa rows and ledger only.
  lemma SameTablesShape(db: Db, db': Db)
    requires LedgerShape(db) && db'.bets == db.bets && db'.mpesa == db.mpesa && db'.ledger == db.ledger
    ensures LedgerShape(db')
  {
    hide Matching;
    forall kind: LedgerKind, reference: Id
      ensures Matching(db'.ledger, kind, reference) == Expected(db', kind, reference)
    {
      assert Expected(db', kind, reference) == Expected(db, kind, reference);
    }
  }

  // Appending the one row that the changed tables newly call for keeps the shape.
  lemma ShapeAfterEntry(db: Db, db': Db, e: Entry)
    requires LedgerShape(db) && db'.ledger == db.ledger + [e]
    requires Expected(db, e.kind, e.reference) == [] && Expected(db', e.kind, e.reference) == [e]
    requires forall kind: LedgerKind, r: Id | kind != e.kind || r != e.reference :: Expected(db', kind, r) == Expected(db, kind, r)
    ensures LedgerShape(db')
  {
    forall kind: LedgerKind, r: Id
      ensures Matching(db'.ledger, kind, r) == Expected(db', kind, r)
    {
      AppendMatching(db.ledger, e, kind, r);
      hide Matching, Expected;
      assert Matching(db.ledger, kind, r) == Expected(db, kind, r);
    }
  }

  lemma ShapeAfterTables(db: Db, db': Db)
    requires LedgerShape(db) && db'.ledger == db.ledger
    requires forall kind: LedgerKind, r: Id :: Expected(db', kind, r) == Expected(db, kind, r)
    ensures LedgerShape(db')
  {
    hide Matching, Expected;
  }

  // A wallet update together with the ledger row of the same amount keeps all openings.
  lemma OpeningsAfterEntry(db: Db, db': Db, e: Entry)
    requires e.user in db.wallets
    requires db'.wallets == db.wallets[e.user := db.wallets[e.user] + e.amount] && db'.ledger == db.ledger + [e]
    ensures forall u | u in db.wallets :: u in db'.wallets && Opening(db', u) == Opening(db, u)
  {
    forall u | u in db.wallets
      ensures Opening(db', u) == Opening(db, u)
    {
      AppendSum(db.ledger, e, u);
    }
  }

  // ------------------------------------------------------------- transactions

  // A new bet calls for its stake row, unless it was rejected, and for nothing else.
  lemma NewBetExpected(db: Db, db': Db, id: Id, row: BetRow)
    requires id !in db.bets && db'.bets == db.bets[id := row] && db'.mpesa == db.mpesa
    requires row.status.BetAccepted? || row.status.BetRejected?
    ensures forall kind: LedgerKind, r: Id | kind != BetStake || r != id :: Expected(db', kind, r) == Expected(db, kind, r)
    ensures Expected(db, BetStake, id) == []
    ensures Expected(db', BetStake, id) ==
            if row.status.BetAccepted? then [Entry(row.user, -(row.stake as int), BetStake, id)] else []
  {
    hide PayoutOf;
  }

  lemma NewBetTables(db: Db, db': Db, id: Id, row: BetRow)
    requires TablesOk(db) && BetOk(db, row)
    requires id !in db.bets && !KeyUsed(db.bets, row.key)
    requires db'.bets == db.bets[id := row]
    requires db'.users == db.users && db'.mpesa == db.mpesa && db'.wallets.Keys == db.wallets.Keys
    requires forall u | u in db'.wallets :: 0 <= db'.wallets[u]
    ensures TablesOk(db')
  {
    forall i | i in db'.bets
      ensures BetOk(db', db'.bets[i])
    {
      if i != id {
        assert BetOk(db, db.bets[i]);
      }
    }
    forall i, j | i in db'.bets && j in db'.bets && db'.bets[i].key == db'.bets[j].key
      ensures i == j
    {
      assert forall k | k in db.bets :: db.bets[k].key != row.key;
    }
  }

  lemma RejectedBetOk(db: Db, id: Id, row: BetRow)
    requires Inv(db) && BetOk(db, row) && row.status.BetRejected?
    requires id !in db.bets && !KeyUsed(db.bets, row.key)
    ensures var db' := db.(bets := db.bets[id := row]); Inv(db') && Evolves(db, db')
  {
    hide Matching, LedgerSum, Expected, KeyUsed;
    var db' := db.(bets := db.bets[id := row]);
    NewBetExpected(db, db', id, row);
    ShapeAfterTables(db, db');
    NewBetTables(db, db', id, row);
    SameOpenings(db, db');
    hide TablesOk, LedgerShape, Evolves;
    NewBetEvolves(db, db', id, row);
  }

  lemma NewBetEvolves(db: Db, db': Db, id: Id, row: BetRow)
    requires id !in db.bets && db'.bets == db.bets[id := row]
    requires db'.users == db.users && db'.mpesa == db.mpesa && db.ledger <= db'.ledger
    requires forall u | u in db.wallets :: u in db'.wallets && Opening(db', u) == Opening(db, u)
    ensures Evolves(db, db')
  {
    hide Opening;
  }

  lemma AcceptedBetOk(db: Db, id: Id, row: BetRow, e: Entry)
    requires Inv(db) && BetOk(db, row) && row.status.BetAccepted? && row.stake <= db.wallets[row.user]
    requires id !in db.bets && !KeyUsed(db.bets, row.key)
    requires e == Entry(row.user, -(row.stake as int), BetStake, id)
    ensures var db' := db.(wallets := db.wallets[row.user := db.wallets[row.user] - row.stake],
                           bets := db.bets[id := row], ledger := db.ledger + [e]);
      Inv(db') && Evolves(db, db')
  {
    hide Matching, LedgerSum, Expected, KeyUsed, Opening;
    var db' := db.(wallets := db.wallets[row.user := db.wallets[row.user] - row.stake],
                   bets := db.bets[id := row], ledger := db.ledger + [e]);
    OpeningsAfterEntry(db, db', e);
    NewBetExpected(db, db', id, row);
    ShapeAfterEntry(db, db', e);
    NewBetTables(db, db', id, row);
    hide TablesOk, LedgerShape, Evolves;
    NewBetEvolves(db, db', id, row);
  }

  lemma FinishEventOk(db: Db, e: ResultEvent)
    requires Inv(db) && ValidEvent(e)
    ensures var db' := FinishEvent(db, e).0;
      Inv(db') && Evolves(db, db') && NewWallets(db, db', WORKER_SEED_CENTS)
  {
    hide Inv, Evolves, KeyUsed, Opening;
    var (db', outcome) := FinishEvent(db, e);
    if outcome.Written? {
      EnsureUserOk(db, e.user, WORKER_SEED_CENTS);
      var base := EnsureUser(db, e.user, WORKER_SEED_CENTS);
      if StatusOf(e).BetAccepted? {
        AcceptedBetOk(base, e.betId, RowOf(e), StakeEntry(e));
      } else {
        RejectedBetOk(base, e.betId, RowOf(e));
      }
      EvolvesTransitive(db, base, db');
      LaterWallets(db, base, db', WORKER_SEED_CENTS);
    } else {
      EvolvesReflexive(db);
    }
  }

  lemma EvolvesReflexive(db: Db)
    ensures Evolves(db, db)
  {
    hide LedgerSum;
  }

  lemma LaterWallets(a: Db, b: Db, c: Db, seed: int)
    requires NewWallets(a, b, seed) && Evolves(b, c) && c.wallets.Keys == b.wallets.Keys
    ensures NewWallets(a, c, seed)
  {
    hide LedgerSum;
  }

  // The unique key at commit decides a race exactly as the early duplicate check would:
  // only the reported outcome differs.
  lemma RaceIsHarmless(db: Db, e: ResultEvent)
    ensures FinishEvent(db, e).0 == ProcessEvent(db, e).0
    ensures FinishEvent(db, e).1.Written? <==> ProcessEvent(db, e).1.Written?
    ensures !ProcessEvent(db, e).1.Written? ==> ProcessEvent(db, e).0 == db
  {
  }

  lemma SettleOneOk(s: Settlement, id: Id, winner: Id)
    requires Inv(s.db) && id in s.db.bets && s.db.bets[id].status.BetAccepted?
    ensures var s' := SettleOne(s, id, winner);
      && Inv(s'.db) && Evolves(s.db, s'.db) && s'.db.wallets.Keys == s.db.wallets.Keys
      && s'.db.bets == s.db.bets[id := s'.db.bets[id]]
  {
    if s.db.bets[id].selection == winner {
      WinOk(s.db, id);
    } else {
      LossOk(s.db, id);
    }
    hide Inv, Evolves, PayoutOf;
  }

  lemma WinOk(db: Db, id: Id)
    requires Inv(db) && id in db.bets && db.bets[id].status.BetAccepted?
    ensures var row := db.bets[id];
      var db' := db.(wallets := CreditWallet(db.wallets, row.user, PayoutOf(row)),
                     bets := db.bets[id := row.(status := BetWon)], ledger := db.ledger + [PayoutEntry(id, row)]);
      Inv(db') && Evolves(db, db') && db'.wallets.Keys == db.wallets.Keys
  {
    hide Matching, LedgerSum, Expected, PayoutOf, Opening;
    var row := db.bets[id];
    assert BetOk(db, row);
    var db' := db.(wallets := CreditWallet(db.wallets, row.user, PayoutOf(row)),
                   bets := db.bets[id := row.(status := BetWon)], ledger := db.ledger + [PayoutEntry(id, row)]);
    SettledExpected(db, db', id);
    OpeningsAfterEntry(db, db', PayoutEntry(id, row));
    ShapeAfterEntry(db, db', PayoutEntry(id, row));
    SettledTables(db, db', id);
    hide BetOk, TablesOk, LedgerShape, Evolves;
    BetStepEvolves(db, db', id);
  }

  lemma BetStepEvolves(db: Db, db': Db, id: Id)
    requires id in db.bets && id in db'.bets && db'.bets == db.bets[id := db'.bets[id]]
    requires BetMoves(db.bets[id], db'.bets[id])
    requires db'.users == db.users && db'.mpesa == db.mpesa && db.ledger <= db'.ledger
    requires forall u | u in db.wallets :: u in db'.wallets && Opening(db', u) == Opening(db, u)
    ensures Evolves(db, db')
  {
    hide Opening;
  }

  lemma LossOk(db: Db, id: Id)
    requires Inv(db) && id in db.bets && db.bets[id].status.BetAccepted?
    ensures var db' := db.(bets := db.bets[id := db.bets[id].(status := BetLost)]); Inv(db') && Evolves(db, db')
  {
    hide Matching, LedgerSum, Expected, PayoutOf, Opening, BetOk;
    var db' := db.(bets := db.bets[id := db.bets[id].(status := BetLost)]);
    SettledExpected(db, db', id);
    ShapeAfterTables(db, db');
    SameOpenings(db, db');
    SettledTables(db, db', id);
    hide TablesOk, LedgerShape, Evolves;
    BetStepEvolves(db, db', id);
  }

  // Winning calls for the payout row, losing for nothing.
  lemma SettledExpected(db: Db, db': Db, id: Id)
    requires id in db.bets && db.bets[id].status.BetAccepted? && db'.mpesa == db.mpesa
    requires id in db'.bets && db'.bets == db.bets[id := db.bets[id].(status := db'.bets[id].status)]
    requires db'.bets[id].status.BetWon? || db'.bets[id].status.BetLost?
    ensures forall kind: LedgerKind, r: Id | kind != BetPayout || r != id :: Expected(db', kind, r) == Expected(db, kind, r)
    ensures Expected(db, BetPayout, id) == []
    ensures Expected(db', BetPayout, id) == if db'.bets[id].status.BetWon? then [PayoutEntry(id, db.bets[id])] else []
  {
    hide PayoutCents;
  }

  lemma SettledTables(db: Db, db': Db, id: Id)
    requires TablesOk(db) && id in db.bets
    requires id in db'.bets && db'.bets == db.bets[id := db.bets[id].(status := db'.bets[id].status)]
    requires db'.users == db.users && db'.mpesa == db.mpesa && db'.wallets.Keys == db.wallets.Keys
    requires forall u | u in db'.wallets :: db.wallets[u] <= db'.wallets[u]
    ensures TablesOk(db')
  {
    forall i | i in db'.bets
      ensures BetOk(db', db'.bets[i])
    {
      assert BetOk(db, db.bets[i]);
    }
  }

  lemma {:induction false} SettleRowsOk(s: Settlement, rows: seq<Id>, winner: Id)
    requires Inv(s.db) && Distinct(rows)
    requires forall id | id in rows :: id in s.db.bets && s.db.bets[id].status.BetAccepted?
    ensures var s' := SettleRows(s, rows, winner);
      && Inv(s'.db) && Evolves(s.db, s'.db) && s'.db.wallets.Keys == s.db.wallets.Keys
      && forall id | id in s.db.bets && id !in rows :: s'.db.bets[id] == s.db.bets[id]
  {
    hide Matching, LedgerSum, Opening, Expected;
    if rows != [] {
      var front, last := rows[..|rows| - 1], rows[|rows| - 1];
      assert forall id | id in front :: id in rows;
      assert Distinct(front);
      SettleRowsOk(s, front, winner);
      var mid := SettleRows(s, front, winner);
      assert forall k | 0 <= k < |front| :: rows[k] != last;
      assert mid.db.bets[last] == s.db.bets[last];
      SettleOneOk(mid, last, winner);
      EvolvesTransitive(s.db, mid.db, SettleRows(s, rows, winner).db);
    }
  }

  lemma InsertStkOk(db: Db, checkout: Id, user: Id, amount: nat)
    requires Inv(db) && 0 < amount
    ensures var db' := StkInsert(db, checkout, user, amount).0;
      Inv(db') && Evolves(db, db') && db'.wallets == db.wallets
  {
    hide Matching, LedgerSum, PayoutOf;
    var db' := StkInsert(db, checkout, user, amount).0;
    assert forall kind: LedgerKind, r: Id :: Expected(db', kind, r) == Expected(db, kind, r);
    hide Expected;
    ShapeAfterTables(db, db');
    SameOpenings(db, db');
    hide Opening, LedgerShape;
    forall id | id in db'.bets
      ensures BetOk(db', db'.bets[id])
    {
      assert BetOk(db, db.bets[id]);
    }
  }

  lemma CallbackOk(db: Db, body: CallbackBody)
    requires Inv(db)
    ensures var (db', reply) := Callback(db, body);
      Inv(db') && Evolves(db, db') && db'.wallets.Keys == db.wallets.Keys && !reply.WalletNotFound?
  {
    hide Inv, Evolves, Opening;
    var (db', reply) := Callback(db, body);
    if body.Malformed? || body.checkout.None? || body.checkout.value == [] || body.checkout.value !in db.mpesa ||
       !db.mpesa[body.checkout.value].status.MpesaPending? {
      EvolvesReflexive(db);
    } else {
      ApplyCallbackOk(db, body.checkout.value, body.resultCode, body.resultDesc, body.receipt);
    }
  }

  lemma ApplyCallbackOk(db: Db, checkout: Id, resultCode: int, resultDesc: Option<Id>, receipt: Option<Id>)
    requires Inv(db) && checkout in db.mpesa && db.mpesa[checkout].status.MpesaPending?
    ensures var (db', reply) := ApplyCallback(db, checkout, resultCode, resultDesc, receipt);
      Inv(db') && Evolves(db, db') && db'.wallets.Keys == db.wallets.Keys && !reply.WalletNotFound?
  {
    hide Matching, LedgerSum, Expected, Opening;
    var db' := ApplyCallback(db, checkout, resultCode, resultDesc, receipt).0;
    var row := db.mpesa[checkout];
    DepositExpected(db, db', checkout);
    if resultCode == 0 {
      OpeningsAfterEntry(db, db', DepositEntry(checkout, row));
      ShapeAfterEntry(db, db', DepositEntry(checkout, row));
    } else {
      ShapeAfterTables(db, db');
      SameOpenings(db, db');
    }
    CallbackTables(db, db', checkout);
    hide TablesOk, LedgerShape, Evolves;
    MpesaStepEvolves(db, db', checkout);
  }

  lemma MpesaStepEvolves(db: Db, db': Db, checkout: Id)
    requires checkout in db.mpesa && checkout in db'.mpesa && db'.mpesa == db.mpesa[checkout := db'.mpesa[checkout]]
    requires MpesaMoves(db.mpesa[checkout], db'.mpesa[checkout])
    requires db'.users == db.users && db'.bets == db.bets && db.ledger <= db'.ledger
    requires forall u | u in db.wallets :: u in db'.wallets && Opening(db', u) == Opening(db, u)
    ensures Evolves(db, db')
  {
    hide Opening;
  }

  lemma SameOpenings(db: Db, db': Db)
    requires db'.wallets == db.wallets && db'.ledger == db.ledger
    ensures forall u | u in db.wallets :: Opening(db', u) == Opening(db, u)
  {
    hide LedgerSum;
  }

  lemma DepositExpected(db: Db, db': Db, checkout: Id)
    requires checkout in db.mpesa && checkout in db'.mpesa && db.mpesa[checkout].status.MpesaPending?
    requires db'.bets == db.bets && db'.mpesa == db.mpesa[checkout := db'.mpesa[checkout]]
    requires db'.mpesa[checkout].user == db.mpesa[checkout].user && db'.mpesa[checkout].amount == db.mpesa[checkout].amount
    ensures forall kind: LedgerKind, r: Id | kind != Deposit || r != checkout :: Expected(db', kind, r) == Expected(db, kind, r)
    ensures Expected(db, Deposit, checkout) == []
    ensures Expected(db', Deposit, checkout) ==
            if db'.mpesa[checkout].status.MpesaSuccess? then [DepositEntry(checkout, db.mpesa[checkout])] else []
  {
    hide PayoutOf;
  }

  lemma CallbackTables(db: Db, db': Db, checkout: Id)
    requires TablesOk(db) && checkout in db.mpesa && checkout in db'.mpesa
    requires db'.users == db.users && db'.bets == db.bets && db'.wallets.Keys == db.wallets.Keys
    requires db'.mpesa == db.mpesa[checkout := db'.mpesa[checkout]]
    requires db'.mpesa[checkout].user == db.mpesa[checkout].user && db'.mpesa[checkout].amount == db.mpesa[checkout].amount
    requires forall u | u in db'.wallets :: db.wallets[u] <= db'.wallets[u]
    ensures TablesOk(db')
  {
    forall id | id in db'.bets
      ensures BetOk(db', db'.bets[id])
    {
      assert BetOk(db, db.bets[id]);
    }
  }

  // --------------------------------------------------------------------- runs

  function SeedOf(t: Txn): int {
    if t.Process? then WORKER_SEED_CENTS else STK_SEED_CENTS
  }

  lemma StepOk(db: Db, t: Txn)
    requires Inv(db) && Enabled(db, t)
    ensures Inv(Apply(db, t)) && Evolves(db, Apply(db, t)) && NewWallets(db, Apply(db, t), SeedOf(t))
  {
    hide Matching, LedgerSum, Opening, Expected;
    match t
    case Process(e) =>
      RaceIsHarmless(db, e);
      FinishEventOk(db, e);
    case Settle(matchId, rows, winner) =>
      SettleRowsOk(Settlement(db, 0, 0, 0), rows, winner);
    case OpenStk(user) =>
      EnsureUserOk(db, user, STK_SEED_CENTS);
    case InsertStk(checkout, user, amount) =>
      InsertStkOk(db, checkout, user, amount);
    case OnCallback(body) =>
      CallbackOk(db, body);
  }

  lemma EmptyOk()
    ensures Inv(EMPTY_DB)
  {
  }

  // Every reachable state: the ledger is exactly the rows that bets and deposits call
  // for, keys are unique, owners have wallets, and no balance is negative.
  lemma {:induction false} RunOk(txns: seq<Txn>)
    requires Run(EMPTY_DB, txns).Some?
    ensures Inv(Run(EMPTY_DB, txns).value)
  {
    if txns == [] {
      EmptyOk();
    } else {
      RunOk(txns[..|txns| - 1]);
      StepOk(Run(EMPTY_DB, txns[..|txns| - 1]).value, txns[|txns| - 1]);
    }
  }

  // From any reachable state on: rows only move forward, final ones never change, the
  // ledger is only appended to, and openings stay what they are.
  lemma {:induction false} RunEvolves(txns: seq<Txn>, more: seq<Txn>)
    requires Run(EMPTY_DB, txns + more).Some?
    ensures Run(EMPTY_DB, txns).Some?
    ensures Evolves(Run(EMPTY_DB, txns).value, Run(EMPTY_DB, txns + more).value)
  {
    hide LedgerSum;
    if more == [] {
      assert txns + more == txns;
    } else {
      var all := txns + more;
      var front := more[..|more| - 1];
      assert all[..|all| - 1] == txns + front;
      RunEvolves(txns, front);
      RunOk(txns + front);
      StepOk(Run(EMPTY_DB, txns + front).value, all[|all| - 1]);
      EvolvesTransitive(Run(EMPTY_DB, txns).value, Run(EMPTY_DB, txns + front).value, Run(EMPTY_DB, all).value);
    }
  }

  // The transaction of a run that first gave a user a wallet.
  ghost predicate OpenedBy(txns: seq<Txn>, k: nat, user: Id)
    requires k < |txns|
  {
    && Run(EMPTY_DB, txns[..k]).Some? && user !in Run(EMPTY_DB, txns[..k]).value.wallets
    && Run(EMPTY_DB, txns[..k + 1]).Some? && user in Run(EMPTY_DB, txns[..k + 1]).value.wallets
  }

  // Reconciliation: in every reachable state each wallet's balance is not negative and is
  // the sum of its ledger amounts on top of what it was opened with: 1000.00 if a result
  // event of the worker opened it, nothing if an STK push did.
  lemma {:induction false} Reconciliation(txns: seq<Txn>, user: Id) returns (k: nat)
    requires Run(EMPTY_DB, txns).Some? && user in Run(EMPTY_DB, txns).value.wallets
    ensures k < |txns| && OpenedBy(txns, k, user) && (txns[k].Process? || txns[k].OpenStk?)
    ensures var db := Run(EMPTY_DB, txns).value;
      && db.wallets[user] == (if txns[k].Process? then 100_000 else 0) + LedgerSum(db.ledger, user)
      && db.wallets[user] >= 0
  {
    k := OpeningOf(txns, user);
    RunOk(txns);
    hide LedgerSum, LedgerShape, Run;
  }

  lemma {:induction false} OpeningOf(txns: seq<Txn>, user: Id) returns (k: nat)
    requires Run(EMPTY_DB, txns).Some? && user in Run(EMPTY_DB, txns).value.wallets
    ensures k < |txns| && OpenedBy(txns, k, user) && (txns[k].Process? || txns[k].OpenStk?)
    ensures Opening(Run(EMPTY_DB, txns).value, user) == SeedOf(txns[k])
  {
    hide LedgerSum, Opening, Inv, Apply, Enabled;
    var n := |txns| - 1;
    var front := txns[..n];
    var before := Run(EMPTY_DB, front).value;
    RunOk(front);
    StepOk(before, txns[n]);
    if user in before.wallets {
      k := OpeningOf(front, user);
      assert front[..k] == txns[..k] && front[..k + 1] == txns[..k + 1];
    } else {
      k := n;
      assert txns[..n + 1] == txns;
      OnlyOpenersOpen(before, txns[n], user);
    }
  }

  lemma OnlyOpenersOpen(db: Db, t: Txn, user: Id)
    requires Inv(db) && Enabled(db, t)
    requires user !in db.wallets && user in Apply(db, t).wallets
    ensures t.Process? || t.OpenStk?
  {
    hide Matching, LedgerSum, Opening, Expected;
    if t.Settle? {
      SettleRowsOk(Settlement(db, 0, 0, 0), t.rows, t.winner);
    }
  }

  lemma ShapeAt(db: Db, kind: LedgerKind, reference: Id)
    requires LedgerShape(db)
    ensures Matching(db.ledger, kind, reference) == Expected(db, kind, reference)
  {
  }

  // The exact ledger of one bet, one way of reading the invariant.
  lemma BetLedger(txns: seq<Txn>, id: Id)
    requires Run(EMPTY_DB, txns).Some? && id in Run(EMPTY_DB, txns).value.bets
    ensures var db := Run(EMPTY_DB, txns).value; var row := db.bets[id];
      && Matching(db.ledger, BetStake, id) == (if row.status.BetRejected? then [] else [Entry(row.user, -(row.stake as int), BetStake, id)])
      && Matching(db.ledger, BetPayout, id) == (if row.status.BetWon? then [Entry(row.user, PayoutCents(row.stake, row.odds), BetPayout, id)] else [])
  {
    hide *;
    RunOk(txns);
    StakeRows(Run(EMPTY_DB, txns).value, id);
    PayoutRows(Run(EMPTY_DB, txns).value, id);
  }

  lemma StakeRows(db: Db, id: Id)
    requires Inv(db) && id in db.bets
    ensures Matching(db.ledger, BetStake, id) ==
            if db.bets[id].status.BetRejected? then []
            else [Entry(db.bets[id].user, -(db.bets[id].stake as int), BetStake, id)]
  {
    hide Matching, LedgerShape;
    ShapeAt(db, BetStake, id);
  }

  lemma PayoutRows(db: Db, id: Id)
    requires Inv(db) && id in db.bets
    ensures Matching(db.ledger, BetPayout, id) ==
            if db.bets[id].status.BetWon?
            then [Entry(db.bets[id].user, PayoutCents(db.bets[id].stake, db.bets[id].odds), BetPayout, id)] else []
  {
    hide Matching, LedgerShape, PayoutCents;
    ShapeAt(db, BetPayout, id);
  }

  lemma DepositLedger(txns: seq<Txn>, checkout: Id)
    requires Run(EMPTY_DB, txns).Some? && checkout in Run(EMPTY_DB, txns).value.mpesa
    ensures var db := Run(EMPTY_DB, txns).value; var row := db.mpesa[checkout];
      && row.user in db.wallets
      && Matching(db.ledger, Deposit, checkout) ==
         (if row.status.MpesaSuccess? then [Entry(row.user, row.amount * 100, Deposit, checkout)] else [])
  {
    RunOk(txns);
    hide Matching, PayoutCents, Run, LedgerShape;
    var db := Run(EMPTY_DB, txns).value;
    ShapeAt(db, Deposit, checkout);
  }

  // The checks that the invariant makes redundant: the payout update, whose row count is
  // not looked at, always finds a wallet, and the callback's 404 is never answered.
  lemma UncheckedUpdatesAreSafe(txns: seq<Txn>)
    requires Run(EMPTY_DB, txns).Some?
    ensures var db := Run(EMPTY_DB, txns).value;
      && (forall id | id in db.bets :: db.bets[id].user in db.wallets)
      && (forall body: CallbackBody :: !Callback(db, body).1.WalletNotFound?)
  {
    RunOk(txns);
    hide LedgerSum, Matching;
    var db := Run(EMPTY_DB, txns).value;
    forall id | id in db.bets
      ensures db.bets[id].user in db.wallets
    {
      assert BetOk(db, db.bets[id]);
    }
    forall body: CallbackBody
      ensures !Callback(db, body).1.WalletNotFound?
    {
      CallbackOk(db, body);
    }
  }

  // ------------------------------------------------------------- result codes

  // The gateway's code decides the status, and only success has a receipt.
  ghost predicate CodesDecide(db: Db) {
    forall c | c in db.mpesa :: CodeDecides(db.mpesa[c])
  }

  predicate CodeDecides(row: MpesaRow) {
    && (row.status.MpesaSuccess? <==> row.resultCode == Some(0))
    && (row.status.MpesaFailed? <==> row.resultCode.Some? && row.resultCode.value != 0)
    && (row.status.MpesaPending? <==> row.resultCode.None?)
    && (row.receipt.Some? ==> row.status.MpesaSuccess?)
  }

  lemma CodesStep(db: Db, t: Txn)
    requires CodesDecide(db) && Enabled(db, t)
    ensures CodesDecide(Apply(db, t))
  {
    hide Username;
    var db' := Apply(db, t);
    match t
    case Process(e) =>
      EventMeaning(db, e);
    case Settle(_, rows, winner) =>
      MatchMeaning(db, rows, winner);
    case OpenStk(_) =>
    case InsertStk(_, _, _) =>
    case OnCallback(body) =>
      CallbackMeaning(db, body);
  }

  // In every reachable state an M-Pesa row is SUCCESS exactly with code 0, FAILED exactly
  // with another code, and PENDING exactly without one.
  lemma {:induction false} CodesDecideAlways(txns: seq<Txn>)
    requires Run(EMPTY_DB, txns).Some?
    ensures CodesDecide(Run(EMPTY_DB, txns).value)
  {
    if txns != [] {
      hide CodesDecide, Apply, Enabled;
      CodesDecideAlways(txns[..|txns| - 1]);
      CodesStep(Run(EMPTY_DB, txns[..|txns| - 1]).value, txns[|txns| - 1]);
    }
    EmptyCodes();
  }

  lemma EmptyCodes()
    ensures CodesDecide(EMPTY_DB)
  {
  }
}

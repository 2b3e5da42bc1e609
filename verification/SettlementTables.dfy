/** The settlement database: its tables, and each transaction as a function from the
    tables before to the tables after.  A transaction that aborts leaves them unchanged;
    constraints are those of the schema (primary keys, unique columns, foreign keys).
  */
module SettlementTables {
  import opened Wrappers
  import opened JsonStrings
  import opened BetSchema
  import opened Money

  type Id = bytes

  const WORKER_SEED_CENTS: int := 100_000
  const STK_SEED_CENTS: int := 0

  // PENDING, the column default, is never written by these transactions.
  datatype BetStatus = BetAccepted | BetRejected | BetWon | BetLost

  // Odds are counted in ten-thousandths, money in cents.
  datatype BetRow = BetRow(
    user: Id, key: Id, matchId: Id, selection: Id, stake: nat, odds: nat, status: BetStatus, rejection: Option<Id>)

  datatype LedgerKind = Deposit | BetStake | BetPayout

  datatype Entry = Entry(user: Id, amount: int, kind: LedgerKind, reference: Id)

  datatype MpesaStatus = MpesaPending | MpesaSuccess | MpesaFailed

  datatype MpesaRow = MpesaRow(
    user: Id, amount: nat, status: MpesaStatus, resultCode: Option<int>, resultDesc: Option<Id>, receipt: Option<Id>)

  // `users` maps an id to its unique user name; the ledger is in order of its row ids.
  datatype Db = Db(
    users: map<Id, Id>, wallets: map<Id, int>, bets: map<Id, BetRow>, ledger: seq<Entry>, mpesa: map<Id, MpesaRow>)

  const EMPTY_DB: Db := Db(map[], map[], map[], [], map[])

  // f"user-{str(id)[:8]}", which two ids may share.
  function Username(user: Id): Id {
    Ascii("user-") + if |user| <= 8 then user else user[..8]
  }

  // ------------------------------------------------------------------- events

  // A message of topic bets-results that passed the schema.
  datatype ResultEvent = ResultEvent(
    betId: Id, user: Id, key: Id, matchId: Id, selection: Id, stake: nat, odds: nat,
    accepted: bool, reasonCode: Id, reason: Option<Id>)

  // stake_cents > 0, odds > 1.00 with at most ten digits, four of them decimals.
  predicate ValidEvent(e: ResultEvent) {
    0 < e.stake && 10000 < e.odds < Pow10(10)
  }

  function StatusOf(e: ResultEvent): BetStatus {
    if e.accepted && e.reasonCode == Ascii("ACCEPTED") then BetAccepted else BetRejected
  }

  // `event.reason or event.reason_code`: an empty reason counts as none.
  function RejectionReason(e: ResultEvent): Id {
    if e.reason.Some? && e.reason.value != [] then e.reason.value else e.reasonCode
  }

  function RowOf(e: ResultEvent): BetRow {
    var status := StatusOf(e);
    BetRow(e.user, e.key, e.matchId, e.selection, e.stake, e.odds, status,
           if status.BetRejected? then Some(RejectionReason(e)) else None)
  }

  function StakeEntry(e: ResultEvent): Entry {
    Entry(e.user, -(e.stake as int), BetStake, e.betId)
  }

  // ------------------------------------------------- process_bet_result_event

  datatype Outcome = Written | Duplicate | IntegrityError | InsufficientFunds

  predicate KeyUsed(bets: map<Id, BetRow>, key: Id) {
    exists id | id in bets :: bets[id].key == key
  }

  predicate UsernameFree(db: Db, user: Id) {
    user in db.users || Username(user) !in db.users.Values
  }

  // Two inserts with ON CONFLICT DO NOTHING on the primary key; the unique user name may
  // still fail the first one.
  function EnsureUser(db: Db, user: Id, seed: int): Db {
    db.(users := if user in db.users then db.users else db.users[user := Username(user)],
        wallets := if user in db.wallets then db.wallets else db.wallets[user := seed])
  }

  // The transaction behind its duplicate check, up to and including the commit, where
  // the inserts meet the primary key and the unique idempotency key.
  function FinishEvent(db: Db, e: ResultEvent): (Db, Outcome) {
    if !UsernameFree(db, e.user) then
      (db, IntegrityError)
    else
      var base := EnsureUser(db, e.user, WORKER_SEED_CENTS);
      if StatusOf(e).BetAccepted? then
        if base.wallets[e.user] < e.stake then
          (db, InsufficientFunds)
        else if e.betId in db.bets || KeyUsed(db.bets, e.key) then
          (db, IntegrityError)
        else
          (base.(wallets := base.wallets[e.user := base.wallets[e.user] - e.stake],
                   bets := base.bets[e.betId := RowOf(e)],
                   ledger := base.ledger + [StakeEntry(e)]), Written)
      else if e.betId in db.bets || KeyUsed(db.bets, e.key) then
        (db, IntegrityError)
      else
        (base.(bets := base.bets[e.betId := RowOf(e)]), Written)
  }

  function ProcessEvent(db: Db, e: ResultEvent): (Db, Outcome) {
    if KeyUsed(db.bets, e.key) then (db, Duplicate) else FinishEvent(db, e)
  }

  // ------------------------------------------------------ settle_match_outcome

  datatype Settlement = Settlement(db: Db, won: nat, lost: nat, total: nat)

  // The rows that SELECT ... FOR UPDATE SKIP LOCKED may return for a match.
  predicate Selectable(db: Db, matchId: Id, id: Id) {
    id in db.bets && db.bets[id].matchId == matchId && db.bets[id].status.BetAccepted?
  }

  ghost predicate Distinct(rows: seq<Id>) {
    forall i, j | 0 <= i < j < |rows| :: rows[i] != rows[j]
  }

  ghost predicate Selection(db: Db, matchId: Id, rows: seq<Id>) {
    Distinct(rows) && forall id | id in rows :: Selectable(db, matchId, id)
  }

  function PayoutOf(row: BetRow): nat {
    PayoutCents(row.stake, row.odds)
  }

  function PayoutEntry(id: Id, row: BetRow): Entry {
    Entry(row.user, PayoutOf(row), BetPayout, id)
  }

  // The wallet update's row count is not checked.
  function CreditWallet(wallets: map<Id, int>, user: Id, amount: int): map<Id, int> {
    if user in wallets then wallets[user := wallets[user] + amount] else wallets
  }

  function SettleOne(s: Settlement, id: Id, winner: Id): Settlement
    requires id in s.db.bets
  {
    var row := s.db.bets[id];
    if row.selection == winner then
      Settlement(
        s.db.(wallets := CreditWallet(s.db.wallets, row.user, PayoutOf(row)),
              bets := s.db.bets[id := row.(status := BetWon)],
              ledger := s.db.ledger + [PayoutEntry(id, row)]),
        s.won + 1, s.lost, s.total + PayoutOf(row))
    else
      s.(db := s.db.(bets := s.db.bets[id := row.(status := BetLost)]), lost := s.lost + 1)
  }

  function SettleRows(s: Settlement, rows: seq<Id>, winner: Id): (r: Settlement)
    requires forall id | id in rows :: id in s.db.bets
    ensures r.db.bets.Keys == s.db.bets.Keys
  {
    if rows == [] then s
    else SettleOne(SettleRows(s, rows[..|rows| - 1], winner), rows[|rows| - 1], winner)
  }

  function SettleMatch(db: Db, rows: seq<Id>, winner: Id): Settlement
    requires forall id | id in rows :: id in db.bets
  {
    SettleRows(Settlement(db, 0, 0, 0), rows, winner)
  }

  // --------------------------------------------------------------- M-Pesa rows

  // First transaction of stk_push_deposit.
  function StkOpen(db: Db, user: Id): (Db, bool) {
    if UsernameFree(db, user) then (EnsureUser(db, user, STK_SEED_CENTS), true) else (db, false)
  }

  // Second transaction, after the gateway answered: foreign key on the user, unique
  // checkout id.
  function StkInsert(db: Db, checkout: Id, user: Id, amount: nat): (Db, bool) {
    if user !in db.users || checkout in db.mpesa then (db, false)
    else (db.(mpesa := db.mpesa[checkout := MpesaRow(user, amount, MpesaPending, None, None, None)]), true)
  }

  datatype CallbackBody =
    | Malformed
    | StkCallback(checkout: Option<Id>, resultCode: int, resultDesc: Option<Id>, receipt: Option<Id>)

  datatype CallbackReply = Ack | BadRequest | WalletNotFound

  function DepositEntry(checkout: Id, row: MpesaRow): Entry {
    Entry(row.user, row.amount * 100, Deposit, checkout)
  }

  function Callback(db: Db, body: CallbackBody): (Db, CallbackReply) {
    match body
    case Malformed => (db, BadRequest)
    case StkCallback(checkout, resultCode, resultDesc, receipt) =>
      if checkout.None? || checkout.value == [] then (db, BadRequest)
      else if checkout.value !in db.mpesa || !db.mpesa[checkout.value].status.MpesaPending? then (db, Ack)
      else ApplyCallback(db, checkout.value, resultCode, resultDesc, receipt)
  }

  function ApplyCallback(db: Db, checkout: Id, resultCode: int, resultDesc: Option<Id>, receipt: Option<Id>): (Db, CallbackReply)
    requires checkout in db.mpesa
  {
    var row := db.mpesa[checkout].(resultCode := Some(resultCode), resultDesc := resultDesc);
    if resultCode != 0 then
      (db.(mpesa := db.mpesa[checkout := row.(status := MpesaFailed)]), Ack)
    else if row.user !in db.wallets then
      (db, WalletNotFound)
    else
      (db.(mpesa := db.mpesa[checkout := row.(status := MpesaSuccess, receipt := receipt)],
           wallets := CreditWallet(db.wallets, row.user, row.amount * 100),
           ledger := db.ledger + [DepositEntry(checkout, row)]), Ack)
  }

  // ---------------------------------------------------------------------- runs

  datatype Txn =
    | Process(event: ResultEvent)
    | Settle(matchId: Id, rows: seq<Id>, winner: Id)
    | OpenStk(user: Id)
    | InsertStk(checkout: Id, user: Id, amount: nat)
    | OnCallback(body: CallbackBody)

  // What may be asked of the database in a given state: events that passed the schema,
  // selections that the query can return, positive deposits.
  ghost predicate Enabled(db: Db, t: Txn) {
    match t
    case Process(e) => ValidEvent(e)
    case Settle(matchId, rows, _) => Selection(db, matchId, rows)
    case InsertStk(_, _, amount) => 0 < amount
    case _ => true
  }

  ghost function Apply(db: Db, t: Txn): Db
    requires Enabled(db, t)
  {
    match t
    case Process(e) => ProcessEvent(db, e).0
    case Settle(_, rows, winner) => SettleMatch(db, rows, winner).db
    case OpenStk(user) => StkOpen(db, user).0
    case InsertStk(checkout, user, amount) => StkInsert(db, checkout, user, amount).0
    case OnCallback(body) => Callback(db, body).0
  }

  // Transactions in the order of their commits.
  ghost function Run(db: Db, txns: seq<Txn>): Option<Db> {
    if txns == [] then
      Some(db)
    else
      var before := Run(db, txns[..|txns| - 1]);
      if before.None? || !Enabled(before.value, txns[|txns| - 1]) then None
      else Some(Apply(before.value, txns[|txns| - 1]))
  }
}

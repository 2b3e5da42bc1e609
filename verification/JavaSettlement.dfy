/** The Java settlement service, which processes the same events on the same tables plus an
    idempotency key in the ledger, and when it agrees with the Python worker.
  */
module JavaSettlement {
  import opened Wrappers
  import opened BetSchema
  import opened SettlementTables
  import opened SettlementMeaning

  datatype KeyedEntry = KeyedEntry(entry: Entry, key: Id)

  datatype JavaDb = JavaDb(users: map<Id, Id>, wallets: map<Id, int>, bets: map<Id, BetRow>, ledger: seq<KeyedEntry>)

  const EMPTY_JAVA_DB: JavaDb := JavaDb(map[], map[], map[], [])

  // String.isBlank on ASCII text.
  predicate IsBlank(text: Id) {
    forall c | c in text :: c == 0x20 || 0x09 <= c <= 0x0D || 0x1C <= c <= 0x1F
  }

  function JavaReason(e: ResultEvent): Id {
    if e.reason.Some? && !IsBlank(e.reason.value) then e.reason.value else e.reasonCode
  }

  function JavaRow(e: ResultEvent): BetRow {
    var status := StatusOf(e);
    BetRow(e.user, e.key, e.matchId, e.selection, e.stake, e.odds, status,
           if status.BetRejected? then Some(JavaReason(e)) else None)
  }

  // JpaRepository.save of an entity whose id is assigned: a row with that id is merged
  // into, which updates its updatable columns only, status and rejection reason.
  function SaveBet(bets: map<Id, BetRow>, id: Id, row: BetRow): map<Id, BetRow> {
    if id in bets then bets[id := bets[id].(status := row.status, rejection := row.rejection)] else bets[id := row]
  }

  predicate LedgerKeyUsed(ledger: seq<KeyedEntry>, key: Id) {
    exists k | 0 <= k < |ledger| :: ledger[k].key == key
  }

  // The exceptions of the source are outcomes that leave the tables alone.
  function JavaProcess(db: JavaDb, e: ResultEvent): (JavaDb, Outcome) {
    if KeyUsed(db.bets, e.key) || LedgerKeyUsed(db.ledger, e.key) then
      (db, Duplicate)
    else if e.user !in db.users && Username(e.user) in db.users.Values then
      (db, IntegrityError)
    else
      var base := db.(
        users := if e.user in db.users then db.users else db.users[e.user := Username(e.user)],
        wallets := if e.user in db.wallets then db.wallets else db.wallets[e.user := WORKER_SEED_CENTS]);
      if StatusOf(e).BetAccepted? then
        if base.wallets[e.user] < e.stake then
          (db, InsufficientFunds)
        else
          (base.(wallets := base.wallets[e.user := base.wallets[e.user] - e.stake],
                 bets := SaveBet(base.bets, e.betId, JavaRow(e)),
                 ledger := base.ledger + [KeyedEntry(StakeEntry(e), e.key)]), Written)
      else
        (base.(bets := SaveBet(base.bets, e.betId, JavaRow(e))), Written)
  }

  class SettlementService {
    var users: map<Id, Id>
    var wallets: map<Id, int>
    var bets: map<Id, BetRow>
    var ledger: seq<KeyedEntry>

    constructor ()
      ensures Tables() == EMPTY_JAVA_DB
    {
      users, wallets, bets, ledger := map[], map[], map[], [];
    }

    function Tables(): JavaDb
      reads this
    {
      JavaDb(users, wallets, bets, ledger)
    }

    predicate IsDuplicate(key: Id)
      reads this
    {
      KeyUsed(bets, key) || LedgerKeyUsed(ledger, key)
    }

    method EnsureUserAndWallet(user: Id) returns (ok: bool)
      modifies this`users, this`wallets
      ensures ok <==> user in old(users) || Username(user) !in old(users).Values
      ensures ok ==> users == if user in old(users) then old(users) else old(users)[user := Username(user)]
      ensures ok ==> wallets == if user in old(wallets) then old(wallets) else old(wallets)[user := WORKER_SEED_CENTS]
      ensures !ok ==> users == old(users) && wallets == old(wallets)
    {
      if user !in users {
        if Username(user) in users.Values {
          return false;
        }
        users := users[user := Username(user)];
      }
      if user !in wallets {
        wallets := wallets[user := WORKER_SEED_CENTS];
      }
      return true;
    }

    // False when the funds are insufficient; nothing is written then.
    method AcceptBet(e: ResultEvent) returns (ok: bool)
      requires e.user in wallets && StatusOf(e).BetAccepted?
      modifies this`wallets, this`bets, this`ledger
      ensures ok <==> e.stake <= old(wallets)[e.user]
      ensures ok ==> wallets == old(wallets)[e.user := old(wallets)[e.user] - e.stake]
      ensures ok ==> bets == SaveBet(old(bets), e.betId, JavaRow(e))
      ensures ok ==> ledger == old(ledger) + [KeyedEntry(StakeEntry(e), e.key)]
      ensures !ok ==> wallets == old(wallets) && bets == old(bets) && ledger == old(ledger)
    {
      if wallets[e.user] < e.stake {
        return false;
      }
      wallets := wallets[e.user := wallets[e.user] - e.stake];
      bets := SaveBet(bets, e.betId, BetRow(e.user, e.key, e.matchId, e.selection, e.stake, e.odds, BetAccepted, None));
      ledger := ledger + [KeyedEntry(Entry(e.user, -(e.stake as int), BetStake, e.betId), e.key)];
      return true;
    }

    method PersistRejectedBet(e: ResultEvent)
      requires StatusOf(e).BetRejected?
      modifies this`bets
      ensures bets == SaveBet(old(bets), e.betId, JavaRow(e))
    {
      var reason := if e.reason.Some? && !IsBlank(e.reason.value) then e.reason.value else e.reasonCode;
      bets := SaveBet(bets, e.betId, BetRow(e.user, e.key, e.matchId, e.selection, e.stake, e.odds, BetRejected, Some(reason)));
    }

    method ProcessBetResult(e: ResultEvent) returns (outcome: Outcome)
      modifies this
      ensures (Tables(), outcome) == JavaProcess(old(Tables()), e)
      ensures outcome.Duplicate? <==> old(IsDuplicate(e.key))
    {
      if IsDuplicate(e.key) {
        return Duplicate;
      }
      var users0, wallets0 := users, wallets;
      var ok := EnsureUserAndWallet(e.user);
      if !ok {
        return IntegrityError;
      }
      var status := if e.accepted && e.reasonCode == Ascii("ACCEPTED") then BetAccepted else BetRejected;
      if status.BetAccepted? {
        var paid := AcceptBet(e);
        if !paid {
          // rollback
          users, wallets := users0, wallets0;
          return InsufficientFunds;
        }
      } else {
        PersistRejectedBet(e);
      }
      return Written;
    }
  }

  // ---------------------------------------------------------------- agreement

  function Forget(ledger: seq<KeyedEntry>): (r: seq<Entry>)
    ensures |r| == |ledger|
  {
    seq(|ledger|, k requires 0 <= k < |ledger| => ledger[k].entry)
  }

  // The same tables, up to the ledger's keys, which all have a bet.
  ghost predicate Related(db: Db, java: JavaDb) {
    && db.users == java.users && db.wallets == java.wallets && db.bets == java.bets
    && db.ledger == Forget(java.ledger)
    && forall k | 0 <= k < |java.ledger| :: KeyUsed(java.bets, java.ledger[k].key)
  }

  ghost predicate Agree(db: Db, java: JavaDb, e: ResultEvent) {
    ProcessEvent(db, e).1 == JavaProcess(java, e).1 && Related(ProcessEvent(db, e).0, JavaProcess(java, e).0)
  }

  // Both services get as far as saving a bet row.
  predicate SavesBet(db: Db, e: ResultEvent) {
    && !KeyUsed(db.bets, e.key) && UsernameFree(db, e.user)
    && (StatusOf(e).BetAccepted? ==> e.stake <= EnsureUser(db, e.user, WORKER_SEED_CENTS).wallets[e.user])
  }

  // A bet id that is already taken under another key: refused here, merged into there.
  predicate IdReused(db: Db, e: ResultEvent) {
    SavesBet(db, e) && e.betId in db.bets
  }

  // A reason of white space only: stored here, replaced by the reason code there.
  predicate BlankReason(db: Db, e: ResultEvent) {
    && SavesBet(db, e) && e.betId !in db.bets && StatusOf(e).BetRejected?
    && e.reason.Some? && e.reason.value != [] && IsBlank(e.reason.value) && e.reason.value != e.reasonCode
  }

  lemma LedgerKeysAreBetKeys(db: Db, java: JavaDb, e: ResultEvent)
    requires Related(db, java)
    ensures KeyUsed(java.bets, e.key) || LedgerKeyUsed(java.ledger, e.key) <==> KeyUsed(db.bets, e.key)
  {
    if LedgerKeyUsed(java.ledger, e.key) {
      var k :| 0 <= k < |java.ledger| && java.ledger[k].key == e.key;
      assert KeyUsed(java.bets, java.ledger[k].key);
    }
  }

  lemma ForgetAppend(ledger: seq<KeyedEntry>, x: KeyedEntry)
    ensures Forget(ledger + [x]) == Forget(ledger) + [x.entry]
  {
  }

  // From related tables the two services agree on an event, in outcome and in the tables
  // after it, exactly when it neither reuses a bet id nor brings a blank reason.
  lemma AgreeIff(db: Db, java: JavaDb, e: ResultEvent)
    requires Related(db, java)
    ensures Agree(db, java, e) <==> !IdReused(db, e) && !BlankReason(db, e)
  {
    LedgerKeysAreBetKeys(db, java, e);
    if SavesBet(db, e) && e.betId !in db.bets {
      FreshIdAgrees(db, java, e);
    }
    hide LedgerKeyUsed, KeyUsed, Forget, JavaRow, RowOf, Username, SaveBet;
  }

  lemma FreshIdAgrees(db: Db, java: JavaDb, e: ResultEvent)
    requires Related(db, java) && SavesBet(db, e) && e.betId !in db.bets
    ensures Agree(db, java, e) <==> !BlankReason(db, e)
  {
    LedgerKeysAreBetKeys(db, java, e);
    var after, java' := ProcessEvent(db, e).0, JavaProcess(java, e).0;
    ForgetAppend(java.ledger, KeyedEntry(StakeEntry(e), e.key));
    assert after.bets == db.bets[e.betId := RowOf(e)] && java'.bets == db.bets[e.betId := JavaRow(e)];
    assert RowOf(e) == JavaRow(e) <==> !BlankReason(db, e);
    if BlankReason(db, e) {
      assert after.bets[e.betId] != java'.bets[e.betId];
    } else {
      LedgerKeysStay(java, java', e);
    }
  }

  lemma LedgerKeysStay(java: JavaDb, java': JavaDb, e: ResultEvent)
    requires e.betId !in java.bets && java'.bets == java.bets[e.betId := JavaRow(e)]
    requires java'.ledger == java.ledger || java'.ledger == java.ledger + [KeyedEntry(StakeEntry(e), e.key)]
    requires forall k | 0 <= k < |java.ledger| :: KeyUsed(java.bets, java.ledger[k].key)
    ensures forall k | 0 <= k < |java'.ledger| :: KeyUsed(java'.bets, java'.ledger[k].key)
  {
    forall k | 0 <= k < |java'.ledger|
      ensures KeyUsed(java'.bets, java'.ledger[k].key)
    {
      if k < |java.ledger| {
        assert KeyUsed(java.bets, java.ledger[k].key);
        var id :| id in java.bets && java.bets[id].key == java.ledger[k].key;
        assert java'.bets[id].key == java'.ledger[k].key;
      } else {
        assert java'.bets[e.betId].key == e.key;
      }
    }
  }

  // White space in Java's sense, among ASCII: the separators 28 to 31 count, others such as
  // 0 do not.
  lemma BlankMeaning(text: Id)
    ensures IsBlank(text) <==> forall k | 0 <= k < |text| :: text[k] in {9, 10, 11, 12, 13, 28, 29, 30, 31, 32}
  {
    forall k | 0 <= k < |text|
      ensures text[k] in text
    {
    }
    if forall k | 0 <= k < |text| :: text[k] in {9, 10, 11, 12, 13, 28, 29, 30, 31, 32} {
      forall c | c in text
        ensures c == 0x20 || 0x09 <= c <= 0x0D || 0x1C <= c <= 0x1F
      {
        var k :| 0 <= k < |text| && text[k] == c;
      }
    }
  }

  // What the Java service answers and writes; a row under a reused id keeps all but its
  // status and reason.
  ghost predicate JavaWritten(db: JavaDb, e: ResultEvent, db': JavaDb) {
    var status := if Accepts(e) then BetAccepted else BetRejected;
    var reason := if Accepts(e) then None
                  else Some(if e.reason.Some? && !IsBlank(e.reason.value) then e.reason.value else e.reasonCode);
    && db'.bets == db.bets[e.betId :=
         if e.betId in db.bets then db.bets[e.betId].(status := status, rejection := reason)
         else BetRow(e.user, e.key, e.matchId, e.selection, e.stake, e.odds, status, reason)]
    && db'.ledger == db.ledger +
         (if Accepts(e) then [KeyedEntry(Entry(e.user, -(e.stake as int), BetStake, e.betId), e.key)] else [])
    && db'.users == (if e.user in db.users then db.users else db.users[e.user := Username(e.user)])
    && db'.wallets.Keys == db.wallets.Keys + {e.user}
    && (forall u | u in db'.wallets :: db'.wallets[u] ==
          (if u in db.wallets then db.wallets[u] else 100_000) - (if Accepts(e) && u == e.user then e.stake else 0))
  }

  ghost predicate JavaKeyOnRecord(db: JavaDb, key: Id) {
    (exists id | id in db.bets :: db.bets[id].key == key) || exists k | 0 <= k < |db.ledger| :: db.ledger[k].key == key
  }

  predicate JavaShort(db: JavaDb, e: ResultEvent) {
    Accepts(e) && (if e.user in db.wallets then db.wallets[e.user] else 100_000) < e.stake
  }

  lemma JavaMeaning(db: JavaDb, e: ResultEvent)
    ensures var (db', outcome) := JavaProcess(db, e);
      var taken := e.user !in db.users && Username(e.user) in db.users.Values;
      && (outcome.Duplicate? <==> JavaKeyOnRecord(db, e.key))
      && (outcome.IntegrityError? <==> !JavaKeyOnRecord(db, e.key) && taken)
      && (outcome.InsufficientFunds? <==> !JavaKeyOnRecord(db, e.key) && !taken && JavaShort(db, e))
      && (outcome.Written? <==> !JavaKeyOnRecord(db, e.key) && !taken && !JavaShort(db, e))
      && (if outcome.Written? then JavaWritten(db, e, db') else db' == db)
  {
    hide Username, IsBlank;
    var (db', outcome) := JavaProcess(db, e);
    if outcome.Written? {
      assert db'.wallets.Keys == db.wallets.Keys + {e.user};
    }
  }

  // ------------------------------------------------------------- whole streams

  function PythonRun(db: Db, es: seq<ResultEvent>): Db {
    if es == [] then db else ProcessEvent(PythonRun(db, es[..|es| - 1]), es[|es| - 1]).0
  }

  function JavaRun(db: JavaDb, es: seq<ResultEvent>): JavaDb {
    if es == [] then db else JavaProcess(JavaRun(db, es[..|es| - 1]), es[|es| - 1]).0
  }

  function PythonOutcome(es: seq<ResultEvent>, k: nat): Outcome
    requires k < |es|
  {
    ProcessEvent(PythonRun(EMPTY_DB, es[..k]), es[k]).1
  }

  function JavaOutcome(es: seq<ResultEvent>, k: nat): Outcome
    requires k < |es|
  {
    JavaProcess(JavaRun(EMPTY_JAVA_DB, es[..k]), es[k]).1
  }

  // As ingress makes them: the bet id is derived from the idempotency key.
  ghost predicate Paired(es: seq<ResultEvent>) {
    forall i, j | 0 <= i < |es| && 0 <= j < |es| && es[i].betId == es[j].betId :: es[i].key == es[j].key
  }

  ghost predicate CleanReasons(es: seq<ResultEvent>) {
    forall k | 0 <= k < |es| && es[k].reason.Some? && es[k].reason.value != [] :: !IsBlank(es[k].reason.value)
  }

  ghost predicate RowsFrom(db: Db, es: seq<ResultEvent>) {
    forall id | id in db.bets :: exists k :: 0 <= k < |es| && es[k].betId == id && es[k].key == db.bets[id].key
  }

  // On every stream of such events, duplicates included, both services report the same
  // outcome for each event and end with the same tables.
  lemma {:induction false} StreamsAgree(es: seq<ResultEvent>)
    requires Paired(es) && CleanReasons(es)
    ensures Related(PythonRun(EMPTY_DB, es), JavaRun(EMPTY_JAVA_DB, es))
    ensures RowsFrom(PythonRun(EMPTY_DB, es), es)
    ensures forall k | 0 <= k < |es| :: PythonOutcome(es, k) == JavaOutcome(es, k)
  {
    hide ProcessEvent, JavaProcess, KeyUsed;
    if es != [] {
      var n := |es| - 1;
      var front, e := es[..n], es[n];
      assert forall i | 0 <= i < n :: front[i] == es[i];
      StreamsAgree(front);
      var db, java := PythonRun(EMPTY_DB, front), JavaRun(EMPTY_JAVA_DB, front);
      NoReuse(db, es);
      AgreeIff(db, java, e);
      RowsFromStep(db, es);
      forall k | 0 <= k < |es|
        ensures PythonOutcome(es, k) == JavaOutcome(es, k)
      {
        if k < n {
          assert front[..k] == es[..k];
          assert PythonOutcome(front, k) == JavaOutcome(front, k);
        }
      }
    }
  }

  lemma NoReuse(db: Db, es: seq<ResultEvent>)
    requires es != [] && RowsFrom(db, es[..|es| - 1]) && Paired(es) && CleanReasons(es)
    ensures var e := es[|es| - 1]; !IdReused(db, e) && !BlankReason(db, e)
  {
    var n := |es| - 1;
    if es[n].betId in db.bets {
      var k :| 0 <= k < n && es[..n][k].betId == es[n].betId && es[..n][k].key == db.bets[es[n].betId].key;
      assert es[k].key == es[n].key;
      assert KeyUsed(db.bets, es[n].key);
    }
  }

  lemma RowsFromStep(db: Db, es: seq<ResultEvent>)
    requires es != [] && RowsFrom(db, es[..|es| - 1])
    ensures RowsFrom(ProcessEvent(db, es[|es| - 1]).0, es)
  {
    var n := |es| - 1;
    var after := ProcessEvent(db, es[n]).0;
    forall id | id in after.bets
      ensures exists k :: 0 <= k < |es| && es[k].betId == id && es[k].key == after.bets[id].key
    {
      if id in db.bets {
        var k :| 0 <= k < n && es[..n][k].betId == id && es[..n][k].key == db.bets[id].key;
        assert es[k].betId == id && es[k].key == after.bets[id].key;
      } else {
        assert es[n].betId == id && es[n].key == after.bets[id].key;
      }
    }
  }

  // What a reused bet id does: the worker refuses the event, the Java service takes the
  // stake and turns the bet that was rejected under the other key into an accepted one.
  lemma ReusedIdDiverges(first: ResultEvent, second: ResultEvent)
    requires ValidEvent(first) && ValidEvent(second)
    requires StatusOf(first).BetRejected? && StatusOf(second).BetAccepted?
    requires first.betId == second.betId && first.key != second.key && first.user == second.user
    requires second.stake <= WORKER_SEED_CENTS
    ensures var db, java := ProcessEvent(EMPTY_DB, first).0, JavaProcess(EMPTY_JAVA_DB, first).0;
      && ProcessEvent(db, second) == (db, IntegrityError)
      && JavaProcess(java, second).1 == Written
      && first.betId in db.bets && db.bets[first.betId].status.BetRejected?
      && first.betId in JavaProcess(java, second).0.bets
      && JavaProcess(java, second).0.bets[first.betId].status.BetAccepted?
      && JavaProcess(java, second).0.wallets == map[first.user := WORKER_SEED_CENTS - second.stake]
  {
    hide Username;
    var db, java := ProcessEvent(EMPTY_DB, first).0, JavaProcess(EMPTY_JAVA_DB, first).0;
    assert db.bets == map[first.betId := RowOf(first)];
    assert java.bets == map[first.betId := JavaRow(first)] && java.ledger == [];
    assert !KeyUsed(db.bets, second.key) && !KeyUsed(java.bets, second.key);
    assert first.user in db.users && first.user in java.users;
    assert db.wallets == map[first.user := WORKER_SEED_CENTS] == java.wallets;
  }
}

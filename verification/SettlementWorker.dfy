/** The Kafka consumer that drives the settlement database: one worker as a loop, and any
    number of workers that race, crash and are redelivered messages.
  */
module SettlementWorker {
  import opened Wrappers
  import opened SettlementTables
  import opened SettlementStore
  import opened SettlementLedger
  import opened SettlementMeaning

  // ------------------------------------------------------------------- replay

  predicate Effective(db: Db, t: Txn) {
    t.Process? ==> ProcessEvent(db, t.event).1.Written?
  }

  // The transactions of a run without the deliveries that did not return True.
  ghost function Kept(db: Db, txns: seq<Txn>): (kept: seq<Txn>)
    requires Run(db, txns).Some?
  {
    if txns == [] then []
    else
      var front, t := txns[..|txns| - 1], txns[|txns| - 1];
      Kept(db, front) + if Effective(Run(db, front).value, t) then [t] else []
  }

  // The idempotency keys that have a bet row.
  function Keys(bets: map<Id, BetRow>): set<Id> {
    set id | id in bets :: bets[id].key
  }

  function KeysOf(txns: seq<Txn>): set<Id> {
    set t | t in txns && t.Process? :: t.event.key
  }

  // Run after run in commit order: a step appended.
  lemma RunAppend(db: Db, txns: seq<Txn>, t: Txn)
    requires Run(db, txns).Some? && Enabled(Run(db, txns).value, t)
    ensures Run(db, txns + [t]) == Some(Apply(Run(db, txns).value, t))
  {
    assert (txns + [t])[..|txns|] == txns;
  }

  lemma StepKeys(db: Db, t: Txn)
    requires Inv(db) && Enabled(db, t)
    ensures Keys(Apply(db, t).bets) == Keys(db.bets) + if t.Process? && Effective(db, t) then {t.event.key} else {}
    ensures t.Process? && Effective(db, t) ==> t.event.key !in Keys(db.bets)
    ensures !Effective(db, t) ==> Apply(db, t) == db
  {
    hide LedgerSum, Matching, Expected;
    var db' := Apply(db, t);
    match t
    case Process(e) =>
      RaceIsHarmless(db, e);
      if Effective(db, t) {
        assert db'.bets == db.bets[e.betId := RowOf(e)] && e.betId !in db.bets;
        KeysOfNewBet(db.bets, e.betId, RowOf(e));
      }
    case Settle(_, rows, winner) =>
      SettleRowsOk(Settlement(db, 0, 0, 0), rows, winner);
      SameKeys(db, db');
    case _ =>
  }

  lemma KeysOfNewBet(bets: map<Id, BetRow>, id: Id, row: BetRow)
    requires id !in bets
    ensures Keys(bets[id := row]) == Keys(bets) + {row.key}
  {
    var bets' := bets[id := row];
    assert bets'[id].key == row.key;
    forall k | k in Keys(bets)
      ensures k in Keys(bets')
    {
      var i :| i in bets && bets[i].key == k;
      assert bets'[i].key == k;
    }
  }

  lemma SameKeys(db: Db, db': Db)
    requires Evolves(db, db') && db'.bets.Keys == db.bets.Keys
    ensures Keys(db'.bets) == Keys(db.bets)
  {
    hide LedgerSum;
    forall k
      ensures k in Keys(db'.bets) <==> k in Keys(db.bets)
    {
      if k in Keys(db.bets) {
        var i :| i in db.bets && db.bets[i].key == k;
        assert db'.bets[i].key == k;
      }
      if k in Keys(db'.bets) {
        var i :| i in db'.bets && db'.bets[i].key == k;
        assert db.bets[i].key == k;
      }
    }
  }

  ghost predicate DistinctKeys(txns: seq<Txn>) {
    forall i, j | 0 <= i < j < |txns| && txns[i].Process? && txns[j].Process? :: txns[i].event.key != txns[j].event.key
  }

  // Each kept delivery wrote its row at its place in the kept run.
  ghost predicate AllWrite(txns: seq<Txn>) {
    forall i | 0 <= i < |txns| :: Run(EMPTY_DB, txns[..i]).Some? && Effective(Run(EMPTY_DB, txns[..i]).value, txns[i])
  }

  // Exactly-once effects: deliveries that did not return True can be struck from any run
  // without changing the outcome; the ones that remain have pairwise distinct keys, are
  // exactly the keys on record, and each writes its row.
  lemma {:induction false} ReplayIsExactlyOnce(txns: seq<Txn>)
    requires Run(EMPTY_DB, txns).Some?
    ensures var kept := Kept(EMPTY_DB, txns);
      && Run(EMPTY_DB, kept) == Run(EMPTY_DB, txns)
      && DistinctKeys(kept) && AllWrite(kept)
      && Keys(Run(EMPTY_DB, txns).value.bets) == KeysOf(kept)
  {
    hide Inv, Effective, Apply, Enabled;
    if txns != [] {
      var front, t := txns[..|txns| - 1], txns[|txns| - 1];
      ReplayIsExactlyOnce(front);
      RunOk(front);
      var db := Run(EMPTY_DB, front).value;
      StepKeys(db, t);
      if Effective(db, t) {
        KeepOneMore(Kept(EMPTY_DB, front), t, db);
      } else {
        assert Kept(EMPTY_DB, txns) == Kept(EMPTY_DB, front);
      }
    }
  }

  lemma KeepOneMore(kept: seq<Txn>, t: Txn, db: Db)
    requires Run(EMPTY_DB, kept) == Some(db) && Enabled(db, t) && Effective(db, t)
    requires DistinctKeys(kept) && AllWrite(kept) && Keys(db.bets) == KeysOf(kept)
    requires t.Process? ==> t.event.key !in Keys(db.bets)
    ensures Run(EMPTY_DB, kept + [t]) == Some(Apply(db, t))
    ensures DistinctKeys(kept + [t]) && AllWrite(kept + [t])
    ensures KeysOf(kept + [t]) == KeysOf(kept) + if t.Process? then {t.event.key} else {}
  {
    RunAppend(EMPTY_DB, kept, t);
    hide Run, Apply, Enabled, Effective, Keys;
    KeysOfAppend(kept, t);
    DistinctAppend(kept, t);
    hide KeysOf, DistinctKeys;
    var kept' := kept + [t];
    forall i | 0 <= i < |kept'|
      ensures Run(EMPTY_DB, kept'[..i]).Some? && Effective(Run(EMPTY_DB, kept'[..i]).value, kept'[i])
    {
      assert kept'[..i] == kept[..i];
      if i == |kept| {
        assert kept[..i] == kept;
      }
    }
  }

  lemma DistinctAppend(kept: seq<Txn>, t: Txn)
    requires DistinctKeys(kept) && (t.Process? ==> t.event.key !in KeysOf(kept))
    ensures DistinctKeys(kept + [t])
  {
    forall i | 0 <= i < |kept| && kept[i].Process?
      ensures kept[i].event.key in KeysOf(kept)
    {
      assert kept[i] in kept;
    }
  }

  lemma KeysOfAppend(txns: seq<Txn>, t: Txn)
    ensures KeysOf(txns + [t]) == KeysOf(txns) + if t.Process? then {t.event.key} else {}
  {
    forall k
      ensures k in KeysOf(txns + [t]) <==> k in KeysOf(txns) || (t.Process? && k == t.event.key)
    {
      if k in KeysOf(txns) {
        var x :| x in txns && x.Process? && x.event.key == k;
        assert x in txns + [t];
      }
      if t.Process? && k == t.event.key {
        assert t in txns + [t];
      }
    }
  }

  // --------------------------------------------------------------- one worker

  // What a record of the topic is to process_raw_message: not JSON (an exception that is
  // not caught there), refused by the schema, or an event.
  datatype Message = NotJson | Refused | Valid(event: ResultEvent)

  // True and False are both followed by an offset commit; a raise is not.
  datatype RawResult = Returned(wrote: bool) | Raised

  function RawOf(db: Db, m: Message): (Db, RawResult) {
    match m
    case NotJson => (db, Raised)
    case Refused => (db, Returned(false))
    case Valid(e) =>
      var (db', outcome) := ProcessEvent(db, e);
      (db', if outcome.InsufficientFunds? then Raised else Returned(outcome.Written?))
  }

  // True exactly for an event that wrote its row, False for a refused message, a duplicate
  // and a conflict, a raise for bytes that are no JSON and for want of funds.
  lemma RawMeaning(db: Db, m: Message)
    ensures var (db', r) := RawOf(db, m);
      && (r == Returned(true) <==>
            m.Valid? && !KeyOnRecord(db, m.event.key) && !NameTaken(db, m.event.user) && !Short(db, m.event) &&
            m.event.betId !in db.bets)
      && (r == Raised <==>
            m.NotJson? || (m.Valid? && !KeyOnRecord(db, m.event.key) && !NameTaken(db, m.event.user) && Short(db, m.event)))
      && (if r == Returned(true) then EventWritten(db, m.event, db') else db' == db)
  {
    if m.Valid? {
      EventMeaning(db, m.event);
      hide ProcessEvent, KeyOnRecord, NameTaken, Short, EventWritten;
    }
  }

  datatype Progress = Progress(db: Db, committed: Option<nat>)

  function AfterRecord(p: Progress, offset: nat, m: Message): Progress {
    var (db, result) := RawOf(p.db, m);
    Progress(db, if result.Raised? then p.committed else Some(offset + 1))
  }

  function AfterRecords(p: Progress, records: seq<(nat, Message)>): Progress {
    if records == [] then p
    else
      var last := records[|records| - 1];
      AfterRecord(AfterRecords(p, records[..|records| - 1]), last.0, last.1)
  }

  function AfterBatches(p: Progress, batches: seq<seq<(nat, Message)>>): Progress {
    if batches == [] then p
    else AfterRecords(AfterBatches(p, batches[..|batches| - 1]), batches[|batches| - 1])
  }

  method ProcessRawMessage(store: Store, m: Message) returns (r: RawResult)
    modifies store
    ensures (store.Tables(), r) == RawOf(old(store.Tables()), m)
  {
    hide ProcessEvent;
    match m
    case NotJson => return Raised;
    case Refused => return Returned(false);
    case Valid(e) =>
      var outcome := store.ProcessBetResultEvent(e);
      match outcome {
        case Written => return Returned(true);
        case Duplicate => return Returned(false);
        case IntegrityError => return Returned(false);
        case InsufficientFunds => return Raised;
      }
  }

  // The batches of one partition that getmany hands out until the stop event is set.
  method RunWorker(store: Store, batches: seq<seq<(nat, Message)>>) returns (committed: Option<nat>)
    modifies store
    ensures Progress(store.Tables(), committed) == AfterBatches(Progress(old(store.Tables()), None), batches)
  {
    hide RawOf;
    committed := None;
    ghost var start := Progress(store.Tables(), None);
    for b := 0 to |batches|
      invariant Progress(store.Tables(), committed) == AfterBatches(start, batches[..b])
    {
      var messages := batches[b];
      ghost var before := Progress(store.Tables(), committed);
      for k := 0 to |messages|
        invariant Progress(store.Tables(), committed) == AfterRecords(before, messages[..k])
      {
        assert messages[..k + 1][..k] == messages[..k];
        var result := ProcessRawMessage(store, messages[k].1);
        if result.Raised? {
          continue;
        }
        committed := Some(messages[k].0 + 1);
      }
      assert messages[..|messages|] == messages;
      assert batches[..b + 1][..b] == batches[..b];
    }
    assert batches[..|batches|] == batches;
  }

  // ------------------------------------------------- what manual commits keep

  // The guard of the branch that raises: bytes that are no JSON, or an accepted event, not
  // on record yet, that its user's wallet cannot pay.
  predicate CannotProcess(db: Db, m: Message) {
    m.NotJson? || (m.Valid? && !KeyUsed(db.bets, m.event.key) && UsernameFree(db, m.event.user) &&
                   StatusOf(m.event).BetAccepted? && Funds(db, m.event.user) < m.event.stake)
  }

  // What the wallet holds, or will hold when the event opens it.
  function Funds(db: Db, user: Id): int {
    if user in db.wallets then db.wallets[user] else WORKER_SEED_CENTS
  }

  lemma RaisesIff(db: Db, m: Message)
    ensures RawOf(db, m).1.Raised? <==> CannotProcess(db, m)
    ensures CannotProcess(db, m) ==> RawOf(db, m).0 == db
  {
  }

  ghost predicate Ascending(records: seq<(nat, Message)>) {
    forall i, j | 0 <= i < j < |records| :: records[i].0 < records[j].0
  }

  // The tables in front of a record.
  function TablesAt(p: Progress, records: seq<(nat, Message)>, k: nat): Db
    requires k <= |records|
  {
    AfterRecords(p, records[..k]).db
  }

  // The tables after some records, offsets apart.
  function TablesAfter(db: Db, records: seq<(nat, Message)>): Db {
    if records == [] then db else RawOf(TablesAfter(db, records[..|records| - 1]), records[|records| - 1].1).0
  }

  ghost predicate ReturnsAt(db: Db, records: seq<(nat, Message)>, k: int) {
    0 <= k < |records| && RawOf(TablesAfter(db, records[..k]), records[k].1).1.Returned?
  }

  ghost predicate LastReturn(db: Db, records: seq<(nat, Message)>, k: int) {
    ReturnsAt(db, records, k) && forall j | k < j < |records| :: !ReturnsAt(db, records, j)
  }

  // After any records the committed offset is the one behind the last record whose
  // processing returned, whether it wrote or not; without one it stays.
  lemma {:induction false} WorkerMeaning(p: Progress, records: seq<(nat, Message)>)
    ensures var q := AfterRecords(p, records);
      && q.db == TablesAfter(p.db, records)
      && ((forall k :: !ReturnsAt(p.db, records, k)) ==> q.committed == p.committed)
      && (forall k :: LastReturn(p.db, records, k) ==> q.committed == Some(records[k].0 + 1))
      && ((forall k :: !ReturnsAt(p.db, records, k)) || exists k :: LastReturn(p.db, records, k))
  {
    hide RawOf;
    if records != [] {
      var n := |records| - 1;
      var front := records[..n];
      WorkerMeaning(p, front);
      ReturnsOneMore(p.db, records);
      if ReturnsAt(p.db, records, n) {
        assert LastReturn(p.db, records, n);
      } else if exists k :: LastReturn(p.db, front, k) {
        var k :| LastReturn(p.db, front, k);
        assert LastReturn(p.db, records, k);
      }
    }
  }

  lemma ReturnsOneMore(db: Db, records: seq<(nat, Message)>)
    requires records != []
    ensures var n := |records| - 1;
      && (forall k :: k != n ==> (ReturnsAt(db, records, k) <==> ReturnsAt(db, records[..n], k)))
      && (forall k :: LastReturn(db, records, k) <==>
            if ReturnsAt(db, records, n) then k == n else LastReturn(db, records[..n], k))
      && (ReturnsAt(db, records, n) <==> RawOf(TablesAfter(db, records[..n]), records[n].1).1.Returned?)
  {
    hide RawOf, TablesAfter;
    var n := |records| - 1;
    var front := records[..n];
    forall k | k != n
      ensures ReturnsAt(db, records, k) <==> ReturnsAt(db, front, k)
    {
      if 0 <= k < n {
        assert front[..k] == records[..k] && front[k] == records[k];
      }
    }
  }

  // The records whose processing returned.
  function ReturnedOnes(p: Progress, records: seq<(nat, Message)>): seq<(nat, Message)> {
    if records == [] then []
    else
      var front, last := records[..|records| - 1], records[|records| - 1];
      ReturnedOnes(p, front) + if RawOf(AfterRecords(p, front).db, last.1).1.Raised? then [] else [last]
  }

  // The processing of every record in front of an offset returned.
  ghost predicate ReturnedUpTo(p: Progress, records: seq<(nat, Message)>, end: nat) {
    forall k | 0 <= k < |records| && records[k].0 < end :: records[k] in ReturnedOnes(p, records)
  }

  ghost predicate ProcessableUpTo(p: Progress, records: seq<(nat, Message)>, end: nat) {
    forall k | 0 <= k < |records| && records[k].0 < end :: !CannotProcess(TablesAt(p, records, k), records[k].1)
  }

  // Tables and committed offset are those of the records that returned: the others are
  // passed over for good, as if they had never been in the topic.
  lemma {:induction false} OnlyReturnedCount(p: Progress, records: seq<(nat, Message)>)
    ensures AfterRecords(p, records) == AfterRecords(p, ReturnedOnes(p, records))
  {
    hide RawOf, CannotProcess;
    if records != [] {
      var front, last := records[..|records| - 1], records[|records| - 1];
      OnlyReturnedCount(p, front);
      RaisesIff(AfterRecords(p, front).db, last.1);
      var kept := ReturnedOnes(p, records);
      if kept != ReturnedOnes(p, front) {
        assert kept[..|kept| - 1] == ReturnedOnes(p, front);
      }
    }
  }

  lemma {:induction false} ReturnedAt(p: Progress, records: seq<(nat, Message)>, k: nat)
    requires Ascending(records) && k < |records|
    ensures forall x | x in ReturnedOnes(p, records) :: exists j :: 0 <= j < |records| && records[j] == x
    ensures records[k] in ReturnedOnes(p, records) <==> !CannotProcess(TablesAt(p, records, k), records[k].1)
  {
    hide AfterRecords, CannotProcess, RawOf;
    var n := |records| - 1;
    var front := records[..n];
    assert Ascending(front);
    RaisesIff(TablesAt(p, records, k), records[k].1);
    if k < n {
      ReturnedAt(p, front, k);
      assert front[..k] == records[..k];
    } else if n > 0 {
      ReturnedAt(p, front, 0);
      forall x | x in ReturnedOnes(p, front)
        ensures x != records[n]
      {
        var j :| 0 <= j < |front| && front[j] == x;
        assert records[j] == x;
      }
    }
  }

  // After any records, all of those in front of the committed offset have returned exactly
  // when none of them met the guard of the raising branch in its own state.
  lemma CommittedIsProcessedIff(p: Progress, records: seq<(nat, Message)>)
    requires Ascending(records)
    ensures var q := AfterRecords(p, records);
      && q == AfterRecords(p, ReturnedOnes(p, records))
      && (q.committed.Some? ==>
            (ReturnedUpTo(p, records, q.committed.value) <==> ProcessableUpTo(p, records, q.committed.value)))
  {
    OnlyReturnedCount(p, records);
    hide AfterRecords, ReturnedOnes, CannotProcess;
    forall k | 0 <= k < |records|
      ensures records[k] in ReturnedOnes(p, records) <==> !CannotProcess(TablesAt(p, records, k), records[k].1)
    {
      ReturnedAt(p, records, k);
    }
  }

  function Flatten(batches: seq<seq<(nat, Message)>>): seq<(nat, Message)> {
    if batches == [] then [] else Flatten(batches[..|batches| - 1]) + batches[|batches| - 1]
  }

  lemma {:induction false} RecordsInParts(p: Progress, front: seq<(nat, Message)>, back: seq<(nat, Message)>)
    ensures AfterRecords(p, front + back) == AfterRecords(AfterRecords(p, front), back)
  {
    hide AfterRecord;
    if back == [] {
      assert front + back == front;
    } else {
      RecordsInParts(p, front, back[..|back| - 1]);
      assert (front + back)[..|front + back| - 1] == front + back[..|back| - 1];
    }
  }

  // How the records are cut into batches does not matter, so all this holds of the loop.
  lemma {:induction false} BatchesAreRecords(p: Progress, batches: seq<seq<(nat, Message)>>)
    ensures AfterBatches(p, batches) == AfterRecords(p, Flatten(batches))
  {
    hide AfterRecords;
    if batches == [] {
      NoRecords(p);
    } else {
      BatchesAreRecords(p, batches[..|batches| - 1]);
      RecordsInParts(p, Flatten(batches[..|batches| - 1]), batches[|batches| - 1]);
    }
  }

  lemma NoRecords(p: Progress)
    ensures AfterRecords(p, []) == p
  {
  }

  // The failing branch at work: a record whose processing raised is passed over for good
  // once the next one returns.
  lemma RaisedRecordIsLost(p: Progress, offset: nat, raising: Message, next: Message)
    requires RawOf(p.db, raising).1.Raised? && RawOf(p.db, next).1.Returned?
    ensures AfterRecords(p, [(offset, raising), (offset + 1, next)]) == AfterRecords(p, [(offset + 1, next)])
    ensures AfterRecords(p, [(offset + 1, next)]).committed == Some(offset + 2)
  {
    hide ProcessEvent;
    RaisedLeavesNoTrace(p.db, raising);
    var two, one := [(offset, raising), (offset + 1, next)], [(offset + 1, next)];
    assert two[..1] == [(offset, raising)] && two[..1][..0] == [] && one[..0] == [];
    assert AfterRecords(p, two[..1]) == AfterRecord(p, offset, raising) == p;
    assert AfterRecords(p, one[..0]) == p;
  }

  lemma RaisedLeavesNoTrace(db: Db, m: Message)
    requires RawOf(db, m).1.Raised?
    ensures RawOf(db, m).0 == db
  {
  }

  // ---------------------------------------------------- racing, crashing workers

  // Where a worker is with the record at its position: not begun, past the duplicate
  // check of an open transaction, or back from process_raw_message.
  datatype Phase = Ready | Open(event: ResultEvent) | Processed

  datatype Worker = Worker(position: nat, phase: Phase)

  // `history` lists the transactions that took effect, in commit order, and `attempted`
  // the offsets that some worker has brought to a result.
  datatype System = System(
    log: seq<Message>, db: Db, committed: nat, workers: seq<Worker>, history: seq<Txn>, attempted: set<nat>)

  datatype Event =
    | Join                  // a worker starts at the committed offset
    | Crash(w: nat)         // it loses what it had open and restarts there
    | Begin(w: nat)
    | Finish(w: nat)
    | CommitOffset(w: nat)
    | Elsewhere(t: Txn)     // another transaction of the service commits

  function SetWorker(s: System, w: nat, position: nat, phase: Phase): System
    requires w < |s.workers|
  {
    s.(workers := s.workers[w := Worker(position, phase)])
  }

  // The exception path: the loop continues behind the record without a commit.
  function SkipRecord(s: System, w: nat): System
    requires w < |s.workers|
  {
    var p := s.workers[w].position;
    SetWorker(s, w, p + 1, Ready).(attempted := s.attempted + {p})
  }

  function Return(s: System, w: nat): System
    requires w < |s.workers|
  {
    var p := s.workers[w].position;
    SetWorker(s, w, p, Processed).(attempted := s.attempted + {p})
  }

  ghost function Step(s: System, e: Event): Option<System> {
    match e
    case Join => Some(s.(workers := s.workers + [Worker(s.committed, Ready)]))
    case Crash(w) => if w >= |s.workers| then None else Some(SetWorker(s, w, s.committed, Ready))
    case Begin(w) =>
      if w >= |s.workers| || !s.workers[w].phase.Ready? || s.workers[w].position >= |s.log| then None
      else Some(AfterBegin(s, w))
    case Finish(w) =>
      if w >= |s.workers| || !s.workers[w].phase.Open? then None else Some(AfterFinish(s, w))
    case CommitOffset(w) =>
      if w >= |s.workers| || !s.workers[w].phase.Processed? then None
      else
        var p := s.workers[w].position;
        Some(SetWorker(s, w, p + 1, Ready).(committed := p + 1))
    case Elsewhere(t) =>
      if t.Process? || !Enabled(s.db, t) then None
      else Some(s.(db := Apply(s.db, t), history := s.history + [t]))
  }

  function AfterBegin(s: System, w: nat): System
    requires w < |s.workers| && s.workers[w].position < |s.log|
  {
    var p := s.workers[w].position;
    match s.log[p]
    case NotJson => SkipRecord(s, w)
    case Refused => Return(s, w)
    case Valid(e) => if KeyUsed(s.db.bets, e.key) then Return(s, w) else SetWorker(s, w, p, Open(e))
  }

  function AfterFinish(s: System, w: nat): System
    requires w < |s.workers| && s.workers[w].phase.Open?
  {
    var e := s.workers[w].phase.event;
    var (db, outcome) := FinishEvent(s.db, e);
    match outcome
    case InsufficientFunds => SkipRecord(s, w)
    case Written => Return(s, w).(db := db, history := s.history + [Process(e)])
    case _ => Return(s, w)
  }

  ghost function RunSystem(s: System, events: seq<Event>): Option<System> {
    if events == [] then Some(s)
    else
      var before := RunSystem(s, events[..|events| - 1]);
      if before.None? then None else Step(before.value, events[|events| - 1])
  }

  function Initial(log: seq<Message>): System {
    System(log, EMPTY_DB, 0, [], [], {})
  }

  ghost predicate ValidLog(log: seq<Message>) {
    forall m | m in log && m.Valid? :: ValidEvent(m.event)
  }

  ghost predicate WorkerOk(s: System, worker: Worker) {
    && (forall o: nat | o < worker.position :: o in s.attempted)
    && (worker.phase.Processed? ==> worker.position in s.attempted)
    && (worker.phase.Open? ==>
          worker.position < |s.log| && s.log[worker.position] == Valid(worker.phase.event))
  }

  ghost predicate OffsetsOk(s: System) {
    && (forall o: nat | o < s.committed :: o in s.attempted)
    && (forall w | 0 <= w < |s.workers| :: WorkerOk(s, s.workers[w]))
  }

  ghost predicate HistoryOk(s: System) {
    && Run(EMPTY_DB, s.history) == Some(s.db)
    && DistinctKeys(s.history) && AllWrite(s.history)
    && Keys(s.db.bets) == KeysOf(s.history)
  }

  ghost predicate FromLog(log: seq<Message>, history: seq<Txn>) {
    forall t | t in history && t.Process? :: Valid(t.event) in log
  }

  lemma OffsetsStep(s: System, e: Event)
    requires OffsetsOk(s) && Step(s, e).Some?
    ensures OffsetsOk(Step(s, e).value)
  {
    hide Apply, Enabled, FinishEvent, KeyUsed;
    var s' := Step(s, e).value;
    forall w | 0 <= w < |s'.workers|
      ensures WorkerOk(s', s'.workers[w])
    {
      if w < |s.workers| {
        assert WorkerOk(s, s.workers[w]);
      }
    }
  }

  lemma HistoryStep(s: System, e: Event)
    requires ValidLog(s.log) && HistoryOk(s) && OffsetsOk(s) && FromLog(s.log, s.history) && Step(s, e).Some?
    ensures HistoryOk(Step(s, e).value) && FromLog(s.log, Step(s, e).value.history)
  {
    hide Inv, Apply, Enabled, FinishEvent, ProcessEvent, KeyUsed, KeysOf, DistinctKeys, AllWrite, Run;
    RunOk(s.history);
    if e.Finish? && AfterFinish(s, e.w).history != s.history {
      assert WorkerOk(s, s.workers[e.w]);
      WriteStep(s, s.workers[e.w].phase.event);
    } else if e.Elsewhere? {
      OtherStep(s, e.t);
    }
  }

  lemma WriteStep(s: System, e: ResultEvent)
    requires HistoryOk(s) && Inv(s.db) && ValidEvent(e) && FinishEvent(s.db, e).1.Written?
    ensures HistoryOk(s.(db := FinishEvent(s.db, e).0, history := s.history + [Process(e)]))
  {
    RaceIsHarmless(s.db, e);
    StepKeys(s.db, Process(e));
    hide Run;
    KeepOneMore(s.history, Process(e), s.db);
    KeysOfAppend(s.history, Process(e));
  }

  lemma OtherStep(s: System, t: Txn)
    requires HistoryOk(s) && Inv(s.db) && !t.Process? && Enabled(s.db, t)
    ensures HistoryOk(s.(db := Apply(s.db, t), history := s.history + [t]))
  {
    hide Run, Enabled;
    StepKeys(s.db, t);
    KeepOneMore(s.history, t, s.db);
    KeysOfAppend(s.history, t);
  }

  // However workers race, crash and are redelivered records: the database is the one that
  // the effective deliveries produce in the order of their commits, each exactly once and
  // each from the log, and no offset is ever committed before every record in front of it
  // has been brought to a result.
  lemma {:induction false} WorkersExactlyOnce(log: seq<Message>, events: seq<Event>)
    requires ValidLog(log) && RunSystem(Initial(log), events).Some?
    ensures var s := RunSystem(Initial(log), events).value;
      && s.log == log
      && HistoryOk(s) && FromLog(log, s.history)
      && (forall o: nat | o < s.committed :: o in s.attempted)
      && OffsetsOk(s)
  {
    hide HistoryOk, OffsetsOk, Step;
    if events == [] {
      InitialOk(log);
    } else {
      var front := events[..|events| - 1];
      WorkersExactlyOnce(log, front);
      var s := RunSystem(Initial(log), front).value;
      LogStays(s, events[|events| - 1]);
      OffsetsStep(s, events[|events| - 1]);
      HistoryStep(s, events[|events| - 1]);
      CommittedAttempted(RunSystem(Initial(log), events).value);
    }
  }

  lemma LogStays(s: System, e: Event)
    requires Step(s, e).Some?
    ensures Step(s, e).value.log == s.log
  {
    hide Apply, Enabled, FinishEvent, KeyUsed;
  }

  lemma InitialOk(log: seq<Message>)
    ensures HistoryOk(Initial(log)) && OffsetsOk(Initial(log))
  {
  }

  lemma CommittedAttempted(s: System)
    requires OffsetsOk(s)
    ensures forall o: nat | o < s.committed :: o in s.attempted
  {
  }

  // -------------------------------------------- one worker as a run of the machine

  lemma OneMore(s: System, events: seq<Event>, e: Event) returns (more: seq<Event>)
    requires RunSystem(s, events).Some?
    ensures RunSystem(s, more) == Step(RunSystem(s, events).value, e)
  {
    hide Step;
    more := events + [e];
    assert more[..|events|] == events;
  }

  // A worker that nothing interleaves with does with its next record what the sequential
  // loop does: the tables of RawOf, and a commit behind the record exactly if it returned.
  lemma RecordIsRun(s: System, w: nat) returns (events: seq<Event>)
    requires w < |s.workers| && s.workers[w].phase.Ready? && s.workers[w].position < |s.log|
    ensures RunSystem(s, events).Some?
    ensures var p := s.workers[w].position;
      var s' := RunSystem(s, events).value;
      var after := AfterRecord(Progress(s.db, Some(s.committed)), p, s.log[p]);
      && s'.db == after.db && Some(s'.committed) == after.committed
      && s'.log == s.log && s'.workers == s.workers[w := Worker(p + 1, Ready)]
  {
    assert RunSystem(s, []) == Some(s);
    var s1 := AfterBegin(s, w);
    var s2 := if s1.workers[w].phase.Open? then AfterFinish(s1, w) else s1;
    StepsOfRecord(s, w);
    hide RunSystem, KeyUsed, FinishEvent, AfterBegin, AfterFinish, AfterRecord;
    BeginStep(s, w);
    events := OneMore(s, [], Begin(w));
    if s1.workers[w].phase.Open? {
      FinishStep(s1, w);
      events := OneMore(s, events, Finish(w));
    }
    if s2.workers[w].phase.Processed? {
      CommitStep(s2, w);
      events := OneMore(s, events, CommitOffset(w));
    }
  }

  lemma BeginStep(s: System, w: nat)
    requires w < |s.workers| && s.workers[w].phase.Ready? && s.workers[w].position < |s.log|
    ensures Step(s, Begin(w)) == Some(AfterBegin(s, w))
  {
    hide AfterBegin;
  }

  lemma FinishStep(s: System, w: nat)
    requires w < |s.workers| && s.workers[w].phase.Open?
    ensures Step(s, Finish(w)) == Some(AfterFinish(s, w))
  {
    hide AfterFinish;
  }

  lemma CommitStep(s: System, w: nat)
    requires w < |s.workers| && s.workers[w].phase.Processed?
    ensures Step(s, CommitOffset(w)) == Some(Committed(s, w))
  {
  }

  function Committed(s: System, w: nat): System
    requires w < |s.workers|
  {
    SetWorker(s, w, s.workers[w].position + 1, Ready).(committed := s.workers[w].position + 1)
  }

  // Where Begin, Finish and the commit lead, put side by side with the loop's round.
  lemma StepsOfRecord(s: System, w: nat)
    requires w < |s.workers| && s.workers[w].phase.Ready? && s.workers[w].position < |s.log|
    ensures var p := s.workers[w].position;
      var s1 := AfterBegin(s, w);
      && w < |s1.workers|
      && var s2 := if s1.workers[w].phase.Open? then AfterFinish(s1, w) else s1;
        && w < |s2.workers|
        && var s3 := if s2.workers[w].phase.Processed? then Committed(s2, w) else s2;
        var after := AfterRecord(Progress(s.db, Some(s.committed)), p, s.log[p]);
          && s3.db == after.db && Some(s3.committed) == after.committed && s3.log == s.log
          && s3.workers == s.workers[w := Worker(p + 1, Ready)]
  {
    hide KeyUsed, FinishEvent;
    var p := s.workers[w].position;
    var s1 := AfterBegin(s, w);
    if s1.workers[w].phase.Open? {
      var e := s1.workers[w].phase.event;
      RaceIsHarmless(s.db, e);
      OpenRecord(s, w, e);
    }
  }

  lemma OpenRecord(s: System, w: nat, e: ResultEvent)
    requires w < |s.workers| && s.workers[w].phase.Ready? && s.workers[w].position < |s.log|
    requires s.log[s.workers[w].position] == Valid(e) && !KeyUsed(s.db.bets, e.key)
    ensures var p := s.workers[w].position;
      var s1 := SetWorker(s, w, p, Open(e));
      var s2 := AfterFinish(s1, w);
      var s3 := if s2.workers[w].phase.Processed? then Committed(s2, w) else s2;
      var after := AfterRecord(Progress(s.db, Some(s.committed)), p, s.log[p]);
      && s3.db == after.db && Some(s3.committed) == after.committed && s3.log == s.log
      && s3.workers == s.workers[w := Worker(p + 1, Ready)]
  {
    hide KeyUsed;
    NotWrittenKeeps(s.db, e);
    hide FinishEvent;
  }

  lemma NotWrittenKeeps(db: Db, e: ResultEvent)
    ensures !FinishEvent(db, e).1.Written? ==> FinishEvent(db, e).0 == db
    ensures !KeyUsed(db.bets, e.key) ==> ProcessEvent(db, e) == FinishEvent(db, e) && !FinishEvent(db, e).1.Duplicate?
  {
    hide KeyUsed;
  }
}

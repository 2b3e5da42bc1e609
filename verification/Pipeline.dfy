/** The whole money pipeline: ingress, the bytes on its topic, the risk engine with its
    threads, the results log and the settlement database, with messages redelivered at any
    point.  What settlement pays is tied to what the engine reserved.  One engine lifetime,
    sequentially consistent memory.
  */
module Pipeline {
  import opened Wrappers
  import opened JsonStrings
  import opened BetSchema
  import opened Money
  import opened RiskBooks
  import opened Ingress
  import opened IngressWire
  import opened SettlementTables
  import opened ResultWire
  import R = RiskConcurrency
  import L = SettlementLedger

  // ------------------------------------------------------------------- machine

  // `topic` and `log` hold everything ever published on bets-submitted and bets-results.
  datatype Sys = Sys(topic: seq<bytes>, engine: R.State, log: seq<ResultJson>, db: Db)

  datatype Event =
    | Post(user: Id, request: Request)
    | Consume(k: nat, now: int)
    | Engine(step: R.Event)
    | Publish(t: nat)
    | Deliver(k: nat)
    | Other(txn: Txn)

  datatype Hashes = Hashes(sha256: bytes -> bytes, uuid5: bytes -> bytes)

  // Any message may be consumed or delivered any number of times.  A payload that the
  // engine refuses yields a result without identifiers, which settlement refuses too.
  ghost function Step(s: Sys, e: Event, h: Hashes): Option<Sys> {
    match e
    case Post(user, r) =>
      if !Validated(r) || r.epochMs <= 0 then None
      else Some(s.(topic := s.topic + [Payload(SubmitBet(user, r, h.sha256, h.uuid5).value)]))
    case Consume(k, now) =>
      if k >= |s.topic| then None
      else if BetOf(s.topic[k]).Err? then Some(s)
      else WithEngine(s, R.Step(s.engine, R.Submit(BetOf(s.topic[k]).value, now)))
    case Engine(step) =>
      if step.Submit? then None else WithEngine(s, R.Step(s.engine, step))
    case Publish(t) =>
      if t >= |s.engine.tasks| || !s.engine.tasks[t].pc.Done? then None
      else Some(s.(log := s.log + [Emit(s.engine.tasks[t].bet, s.engine.tasks[t].pc.decision)]))
    case Deliver(k) =>
      if k >= |s.log| then None
      else
        var result := Read(s.log[k]);
        if result.None? || !ValidEvent(result.value) then Some(s)
        else Some(s.(db := ProcessEvent(s.db, result.value).0))
    case Other(txn) =>
      if txn.Process? || !Enabled(s.db, txn) then None else Some(s.(db := Apply(s.db, txn)))
  }

  function WithEngine(s: Sys, engine: Option<R.State>): Option<Sys> {
    if engine.None? then None else Some(s.(engine := engine.value))
  }

  ghost function RunPipeline(s: Sys, events: seq<Event>, h: Hashes): Option<Sys> {
    if events == [] then Some(s)
    else
      var before := RunPipeline(s, events[..|events| - 1], h);
      if before.None? then None else Step(before.value, events[|events| - 1], h)
  }

  function Initial(cap: int, seeds: map<bytes, int>): Sys {
    Sys([], R.Initial(cap, seeds), [], EMPTY_DB)
  }

  // ----------------------------------------------------------------- invariant

  // What ingress guarantees of every bet on the topic.
  ghost predicate FromIngress(bet: BetSubmitted) {
    && WellFormed(bet) && (bet.payout as int) < Pow10(18)
    && ParseOdds(bet.odds) == Some(OddsTicks(bet.stake as nat, bet.payout as nat))
  }

  // Odds that settlement's schema takes: the payout exceeds the stake by at least half a
  // ten-thousandth of it and stays below a million times the stake.
  predicate Deliverable(stake: int, payout: int) {
    stake <= 20000 * (payout - stake) && 20000 * payout < 19_999_999_999 * stake
  }

  lemma OddsInRangeIff(stake: nat, payout: nat)
    requires 0 < stake
    ensures 10000 < OddsTicks(stake, payout) < Pow10(10) <==> Deliverable(stake, payout)
  {
    var o := OddsTicks(stake, payout);
    DoubleAssoc(stake, o, stake * o);
    Pow10Sum(5, 5);
    Hundred();
    assert Pow10(5) == 100000 && Pow10(10) == 10_000_000_000 by { assert Pow10(3) == 1000; }
    hide HalfUp, Pow10, OddsTicks;
    if o <= 10000 {
      MulMonotone(stake, o, 10000);
    } else {
      MulMonotone(stake, 10001, o);
    }
    if o < 10_000_000_000 {
      MulMonotone(stake, o, 9_999_999_999);
    } else {
      MulMonotone(stake, 10_000_000_000, o);
    }
  }

  // Of a bet from ingress, settlement's schema takes the result exactly then.
  lemma DeliverableIff(bet: BetSubmitted, d: Decision)
    requires FromIngress(bet)
    ensures ResultOf(bet, d).Some?
    ensures ValidEvent(ResultOf(bet, d).value) <==> Deliverable(bet.stake as int, bet.payout as int)
  {
    OddsInRangeIff(bet.stake as nat, bet.payout as nat);
    hide Pow10, ParseOdds, OddsTicks, Deliverable;
  }

  // The decision that a bet row stems from.
  ghost predicate Backs(task: R.Task, row: BetRow) {
    && R.IsAccepted(task) && FromIngress(task.bet)
    && task.bet.idempotencyKey == row.key && task.bet.accountId == row.user
    && task.bet.stake as int == row.stake
    && row.odds == OddsTicks(task.bet.stake as nat, task.bet.payout as nat)
  }

  ghost predicate Backed(row: BetRow, tasks: seq<R.Task>) {
    exists t :: 0 <= t < |tasks| && Backs(tasks[t], row)
  }

  // Every bet that was not rejected has an accepted decision.
  ghost predicate AllBacked(db: Db, tasks: seq<R.Task>) {
    forall id | id in db.bets && !db.bets[id].status.BetRejected? :: Backed(db.bets[id], tasks)
  }

  ghost predicate Genuine(s: Sys) {
    && (forall p | p in s.topic :: Posted(p))
    && (forall t | 0 <= t < |s.engine.tasks| :: FromIngress(s.engine.tasks[t].bet) && Readable(s.engine.tasks[t].bet))
    && (forall x | x in s.log :: Reported(x, s.engine.tasks))
  }

  ghost predicate Posted(p: bytes) {
    exists bet :: FromIngress(bet) && p == Payload(bet)
  }

  ghost predicate Reports(x: ResultJson, task: R.Task) {
    task.pc.Done? && x == Emit(task.bet, task.pc.decision)
  }

  ghost predicate Reported(x: ResultJson, tasks: seq<R.Task>) {
    exists t :: 0 <= t < |tasks| && Reports(x, tasks[t])
  }

  // What the engine reads from the topic is a bet that ingress posted.
  lemma ReadFromTopic(p: bytes)
    requires Posted(p) && BetOf(p).Ok?
    ensures FromIngress(BetOf(p).value) && Readable(BetOf(p).value)
  {
    hide BetOf, Payload, Readable, ParseOdds, OddsTicks, Pow10;
    var bet :| FromIngress(bet) && p == Payload(bet);
    NeverGarbled(bet);
    PayloadIsReadIff(bet);
  }

  ghost predicate Inv(s: Sys, seeds: map<bytes, int>) {
    R.Inv(s.engine, seeds) && L.Inv(s.db) && Genuine(s) && AllBacked(s.db, s.engine.tasks)
  }

  // Decided tasks stay, and no step changes a task's bet.
  ghost predicate Continues(tasks: seq<R.Task>, tasks': seq<R.Task>) {
    && |tasks| <= |tasks'|
    && forall t | 0 <= t < |tasks| :: tasks'[t].bet == tasks[t].bet && (tasks[t].pc.Done? ==> tasks'[t] == tasks[t])
  }

  lemma EngineContinues(s: R.State, e: R.Event)
    requires R.Step(s, e).Some?
    ensures Continues(s.tasks, R.Step(s, e).value.tasks)
    ensures R.Step(s, e).value.books.cap == s.books.cap
    ensures !e.Submit? ==> |R.Step(s, e).value.tasks| == |s.tasks|
    ensures e.Submit? ==> R.Step(s, e).value.tasks[..|s.tasks|] == s.tasks && |R.Step(s, e).value.tasks| == |s.tasks| + 1
    ensures e.Submit? ==> R.Step(s, e).value.tasks[|s.tasks|].bet == e.bet
  {
  }

  lemma BackedContinues(db: Db, tasks: seq<R.Task>, tasks': seq<R.Task>)
    requires AllBacked(db, tasks) && Continues(tasks, tasks')
    ensures AllBacked(db, tasks')
  {
    hide FromIngress;
    forall id | id in db.bets && !db.bets[id].status.BetRejected?
      ensures Backed(db.bets[id], tasks')
    {
      assert Backed(db.bets[id], tasks);
      var t :| 0 <= t < |tasks| && Backs(tasks[t], db.bets[id]);
      assert Backs(tasks'[t], db.bets[id]);
    }
  }

  lemma GenuineContinues(s: Sys, engine: R.State)
    requires Genuine(s) && Continues(s.engine.tasks, engine.tasks)
    requires forall t | |s.engine.tasks| <= t < |engine.tasks| :: FromIngress(engine.tasks[t].bet) && Readable(engine.tasks[t].bet)
    ensures Genuine(s.(engine := engine))
  {
    hide FromIngress, Readable, Emit;
    forall x | x in s.log
      ensures Reported(x, engine.tasks)
    {
      var t :| 0 <= t < |s.engine.tasks| && Reports(x, s.engine.tasks[t]);
      assert Reports(x, engine.tasks[t]);
    }
  }

  lemma EngineStepInv(s: Sys, e: R.Event, seeds: map<bytes, int>)
    requires Inv(s, seeds) && R.Step(s.engine, e).Some?
    requires e.Submit? ==> FromIngress(e.bet) && Readable(e.bet)
    ensures Inv(s.(engine := R.Step(s.engine, e).value), seeds)
  {
    var engine := R.Step(s.engine, e).value;
    EngineContinues(s.engine, e);
    R.StepInv(s.engine, e, seeds);
    hide R.Inv, L.Inv, R.Step, FromIngress, Readable;
    GenuineContinues(s, engine);
    BackedContinues(s.db, s.engine.tasks, engine.tasks);
  }

  // A delivered result writes at most one row, and it is backed by the decision that the
  // result reports.
  lemma DeliveryBacked(db: Db, e: ResultEvent, t: nat, tasks: seq<R.Task>)
    requires AllBacked(db, tasks) && t < |tasks| && tasks[t].pc.Done? && FromIngress(tasks[t].bet)
    requires ResultOf(tasks[t].bet, tasks[t].pc.decision) == Some(e)
    ensures AllBacked(ProcessEvent(db, e).0, tasks)
  {
    hide FromIngress, ResultOf;
    var db' := ProcessEvent(db, e).0;
    forall id | id in db'.bets && !db'.bets[id].status.BetRejected?
      ensures Backed(db'.bets[id], tasks)
    {
      if db'.bets != db.bets && id == e.betId {
        NewRowBacked(e, tasks[t]);
        assert Backs(tasks[t], db'.bets[id]);
      } else {
        assert Backed(db.bets[id], tasks);
      }
    }
  }

  lemma NewRowBacked(e: ResultEvent, task: R.Task)
    requires task.pc.Done? && FromIngress(task.bet) && ResultOf(task.bet, task.pc.decision) == Some(e)
    requires !StatusOf(e).BetRejected?
    ensures Backs(task, RowOf(e))
  {
    hide ParseOdds, OddsTicks;
  }

  // Settling only marks rows as won or lost; the M-Pesa transactions leave bets alone.
  lemma OtherBacked(db: Db, txn: Txn, tasks: seq<R.Task>)
    requires L.Inv(db) && Enabled(db, txn) && !txn.Process? && AllBacked(db, tasks)
    ensures AllBacked(Apply(db, txn), tasks)
  {
    hide L.Inv, L.Opening, L.LedgerShape, Apply, Enabled, FromIngress;
    L.StepOk(db, txn);
    SameBets(db, txn);
    var db' := Apply(db, txn);
    forall id | id in db'.bets && !db'.bets[id].status.BetRejected?
      ensures Backed(db'.bets[id], tasks)
    {
      assert L.BetMoves(db.bets[id], db'.bets[id]);
      assert Backed(db.bets[id], tasks);
      var t :| 0 <= t < |tasks| && Backs(tasks[t], db.bets[id]);
      assert Backs(tasks[t], db'.bets[id]);
    }
  }

  lemma SameBets(db: Db, txn: Txn)
    requires Enabled(db, txn) && !txn.Process?
    ensures Apply(db, txn).bets.Keys == db.bets.Keys
  {
  }

  lemma StepInv(s: Sys, e: Event, h: Hashes, seeds: map<bytes, int>)
    requires Inv(s, seeds) && Step(s, e, h).Some?
    ensures Inv(Step(s, e, h).value, seeds)
    ensures Step(s, e, h).value.engine.books.cap == s.engine.books.cap
  {
    hide R.Inv, L.Inv, R.Step, Apply, FromIngress, Enabled, AllBacked, Read, ProcessEvent, ValidEvent, BetOf, Readable, Emit;
    match e
    case Post(user, r) =>
      PublishedEvent(user, r, h.sha256, h.uuid5);
      PostedIsGenuine(s, SubmitBet(user, r, h.sha256, h.uuid5).value);
    case Consume(k, now) =>
      if BetOf(s.topic[k]).Ok? {
        assert s.topic[k] in s.topic;
        var submit := R.Submit(BetOf(s.topic[k]).value, now);
        ReadFromTopic(s.topic[k]);
        EngineContinues(s.engine, submit);
        EngineStepInv(s, submit, seeds);
      }
    case Engine(step) =>
      EngineContinues(s.engine, step);
      EngineStepInv(s, step, seeds);
    case Publish(t) =>
      assert Reports(Step(s, e, h).value.log[|s.log|], s.engine.tasks[t]);
    case Deliver(k) =>
      if Read(s.log[k]).Some? && ValidEvent(Read(s.log[k]).value) {
        DeliverInv(s, k);
      }
    case Other(txn) =>
      L.StepOk(s.db, txn);
      OtherBacked(s.db, txn, s.engine.tasks);
  }

  // A message on the log is the result of some task, and is read as that.
  lemma LogEntry(s: Sys, k: nat) returns (t: nat)
    requires Genuine(s) && k < |s.log|
    ensures t < |s.engine.tasks| && Reports(s.log[k], s.engine.tasks[t])
    ensures Read(s.log[k]) == ResultOf(s.engine.tasks[t].bet, s.engine.tasks[t].pc.decision)
  {
    hide FromIngress, Readable, Read, Emit;
    assert s.log[k] in s.log;
    t :| 0 <= t < |s.engine.tasks| && Reports(s.log[k], s.engine.tasks[t]);
    ResultIsRead(s.engine.tasks[t].bet, s.engine.tasks[t].pc.decision);
  }

  lemma DeliverInv(s: Sys, k: nat)
    requires Genuine(s) && L.Inv(s.db) && AllBacked(s.db, s.engine.tasks)
    requires k < |s.log| && Read(s.log[k]).Some? && ValidEvent(Read(s.log[k]).value)
    ensures var db := ProcessEvent(s.db, Read(s.log[k]).value).0; L.Inv(db) && AllBacked(db, s.engine.tasks)
  {
    hide L.Inv, Read, ValidEvent, ProcessEvent, FromIngress, Readable;
    var t := LogEntry(s, k);
    var e := Read(s.log[k]).value;
    L.RaceIsHarmless(s.db, e);
    L.FinishEventOk(s.db, e);
    DeliveryBacked(s.db, e, t, s.engine.tasks);
  }

  lemma PostedIsGenuine(s: Sys, bet: BetSubmitted)
    requires Genuine(s)
    requires WellFormed(bet) && (bet.payout as int) < Pow10(18)
    requires ParseOdds(bet.odds) == Some(OddsTicks(bet.stake as nat, bet.payout as nat))
    ensures Genuine(s.(topic := s.topic + [Payload(bet)]))
  {
    hide ParseOdds, OddsTicks, Payload, Readable;
    assert FromIngress(bet) && Posted(Payload(bet));
  }

  // Holds in every state of every run.
  lemma {:induction false} RunInv(cap: int, seeds: map<bytes, int>, events: seq<Event>, h: Hashes)
    requires R.GoodSeeds(cap, seeds) && RunPipeline(Initial(cap, seeds), events, h).Some?
    ensures var s := RunPipeline(Initial(cap, seeds), events, h).value;
      Inv(s, seeds) && s.engine.books.cap == cap
  {
    if events == [] {
      R.InitialInv(cap, seeds);
      L.EmptyOk();
    } else {
      hide Step, Inv;
      RunInv(cap, seeds, events[..|events| - 1], h);
      StepInv(RunPipeline(Initial(cap, seeds), events[..|events| - 1], h).value, events[|events| - 1], h, seeds);
    }
  }

  // ------------------------------------------------------------- ledger queries

  // The sum of a user's ledger amounts of one kind, and the references they stand under.
  function KindSum(ledger: seq<Entry>, kind: LedgerKind, user: Id): int {
    if ledger == [] then 0
    else
      var last := ledger[|ledger| - 1];
      KindSum(ledger[..|ledger| - 1], kind, user) + if last.kind == kind && last.user == user then last.amount else 0
  }

  function Refs(ledger: seq<Entry>, kind: LedgerKind, user: Id): seq<Id> {
    if ledger == [] then []
    else
      var last := ledger[|ledger| - 1];
      Refs(ledger[..|ledger| - 1], kind, user) + if last.kind == kind && last.user == user then [last.reference] else []
  }

  ghost predicate AtMostOnce(ledger: seq<Entry>, kind: LedgerKind) {
    forall r: Id :: |L.Matching(ledger, kind, r)| <= 1
  }

  lemma ShapeIsAtMostOnce(db: Db, kind: LedgerKind)
    requires L.LedgerShape(db)
    ensures AtMostOnce(db.ledger, kind)
  {
    hide L.Matching, L.LedgerShape;
    forall r: Id
      ensures |L.Matching(db.ledger, kind, r)| <= 1
    {
      L.ShapeAt(db, kind, r);
    }
  }

  lemma {:induction false} RefsInLedger(ledger: seq<Entry>, kind: LedgerKind, user: Id, r: Id)
    requires r in Refs(ledger, kind, user)
    ensures exists k :: 0 <= k < |ledger| && ledger[k].kind == kind && ledger[k].user == user && ledger[k].reference == r
  {
    var front, last := ledger[..|ledger| - 1], ledger[|ledger| - 1];
    if r in Refs(front, kind, user) {
      RefsInLedger(front, kind, user, r);
      var k :| 0 <= k < |front| && front[k].kind == kind && front[k].user == user && front[k].reference == r;
      assert ledger[k] == front[k];
    } else {
      assert ledger[|ledger| - 1] == last;
    }
  }

  lemma {:induction false} RefsDistinct(ledger: seq<Entry>, kind: LedgerKind, user: Id)
    requires AtMostOnce(ledger, kind)
    ensures Distinct(Refs(ledger, kind, user))
  {
    if ledger != [] {
      var front, last := ledger[..|ledger| - 1], ledger[|ledger| - 1];
      forall r: Id
        ensures |L.Matching(front, kind, r)| <= 1
      {
        assert |L.Matching(ledger, kind, r)| <= 1;
      }
      RefsDistinct(front, kind, user);
      if last.kind == kind && last.user == user && last.reference in Refs(front, kind, user) {
        RefsInLedger(front, kind, user, last.reference);
        var k :| 0 <= k < |front| && front[k].kind == kind && front[k].user == user && front[k].reference == last.reference;
        L.MatchingHolds(front, k);
        assert |L.Matching(ledger, kind, last.reference)| <= 1;
      }
    }
  }

  // ---------------------------------------------- from bet rows to decisions

  function SumStakes(bets: map<Id, BetRow>, ids: seq<Id>): nat
    requires forall id | id in ids :: id in bets
  {
    if ids == [] then 0 else SumStakes(bets, ids[..|ids| - 1]) + bets[ids[|ids| - 1]].stake
  }

  function SumPayouts(bets: map<Id, BetRow>, ids: seq<Id>): nat
    requires forall id | id in ids :: id in bets
  {
    if ids == [] then 0 else SumPayouts(bets, ids[..|ids| - 1]) + PayoutOf(bets[ids[|ids| - 1]])
  }

  // By how much, in 1/20000 cents, a bet may be settled above what was reserved for it:
  // S/20000 + 1/2 cents, and nothing up to a stake of 100.00.
  function Slack(stake: nat): nat {
    if stake <= 10000 then 0 else stake + 10000
  }

  function SumSlack(bets: map<Id, BetRow>, ids: seq<Id>): nat
    requires forall id | id in ids :: id in bets
  {
    if ids == [] then 0 else SumSlack(bets, ids[..|ids| - 1]) + Slack(bets[ids[|ids| - 1]].stake)
  }

  lemma PayoutWithinSlack(task: R.Task, row: BetRow)
    requires Backs(task, row) && row.odds < Pow10(10)
    ensures 20000 * PayoutOf(row) <= 20000 * (task.bet.payout as int) + Slack(row.stake)
  {
    var stake, payout := task.bet.stake as nat, task.bet.payout as nat;
    PayoutIsExactProduct(stake, row.odds);
    SettledPayoutBound(stake, payout);
    if stake <= 10000 {
      SmallStakeIsExact(stake, payout);
    }
    hide PayoutCents, OddsTicks, ParseOdds, HalfUp;
  }

  // Bets of one user, each waiting to be matched with a decision of its own.
  ghost predicate Claims(db: Db, ids: seq<Id>, user: Id, tasks: seq<R.Task>) {
    && (forall id | id in ids :: id in db.bets && db.bets[id].user == user && db.bets[id].odds < Pow10(10) &&
                                 Backed(db.bets[id], tasks))
    && (forall i, j | 0 <= i < j < |ids| :: db.bets[ids[i]].key != db.bets[ids[j]].key)
  }

  // Distinct keys have distinct decisions: taking one decision away leaves the others.
  lemma ClaimsWithout(db: Db, ids: seq<Id>, user: Id, tasks: seq<R.Task>, t: nat)
    requires Claims(db, ids, user, tasks) && ids != []
    requires t < |tasks| && Backs(tasks[t], db.bets[ids[|ids| - 1]])
    ensures Claims(db, ids[..|ids| - 1], user, tasks[t := tasks[t].(pc := R.Start)])
  {
    hide FromIngress, Pow10;
    var front, tasks' := ids[..|ids| - 1], tasks[t := tasks[t].(pc := R.Start)];
    forall i | 0 <= i < |front|
      ensures Backed(db.bets[front[i]], tasks')
    {
      assert front[i] == ids[i] && ids[i] in ids;
      var u :| 0 <= u < |tasks| && Backs(tasks[u], db.bets[ids[i]]);
      assert u != t;
      assert Backs(tasks'[u], db.bets[ids[i]]);
    }
  }

  // The injection from persisted keys to accepted decisions, one bet at a time.
  lemma {:induction false} Covered(db: Db, ids: seq<Id>, user: Id, tasks: seq<R.Task>)
    requires R.AllWellFormed(tasks) && Claims(db, ids, user, tasks)
    ensures SumStakes(db.bets, ids) <= R.Total(tasks, user, R.Spent)
    ensures 20000 * SumPayouts(db.bets, ids) <= 20000 * R.Total(tasks, user, R.Reserved) + SumSlack(db.bets, ids)
    decreases |ids|
  {
    hide R.Total, PayoutOf, Slack, Pow10;
    if ids != [] {
      var row := db.bets[ids[|ids| - 1]];
      assert ids[|ids| - 1] in ids;
      var t :| 0 <= t < |tasks| && Backs(tasks[t], row);
      var freed := tasks[t].(pc := R.Start);
      assert tasks[t] in tasks;
      PayoutWithinSlack(tasks[t], row);
      ClaimsWithout(db, ids, user, tasks, t);
      R.TotalOfUpdate(tasks, t, freed, user, R.Spent);
      R.TotalOfUpdate(tasks, t, freed, user, R.Reserved);
      hide Backs, Backed, Claims;
      Covered(db, ids[..|ids| - 1], user, tasks[t := freed]);
    }
  }

  // ------------------------------------------------------- from ledger to rows

  // A user's stake or payout references are bets of that user, none of them rejected.
  lemma RefsAreBets(db: Db, kind: LedgerKind, user: Id, r: Id)
    requires L.Inv(db) && !kind.Deposit? && r in Refs(db.ledger, kind, user)
    ensures r in db.bets && db.bets[r].user == user && !db.bets[r].status.BetRejected? && db.bets[r].odds < Pow10(10)
    ensures kind.BetPayout? ==> db.bets[r].status.BetWon?
  {
    RefsInLedger(db.ledger, kind, user, r);
    var k :| 0 <= k < |db.ledger| && db.ledger[k].kind == kind && db.ledger[k].user == user && db.ledger[k].reference == r;
    L.EntryOwner(db, k);
    hide L.LedgerShape, PayoutOf;
    assert L.BetOk(db, db.bets[r]);
  }

  lemma ClaimsOfRefs(s: Sys, seeds: map<bytes, int>, kind: LedgerKind, user: Id)
    requires Inv(s, seeds) && !kind.Deposit?
    ensures Claims(s.db, Refs(s.db.ledger, kind, user), user, s.engine.tasks)
  {
    var ids := Refs(s.db.ledger, kind, user);
    hide R.Inv, L.LedgerShape, Genuine, Backed, Refs;
    ShapeIsAtMostOnce(s.db, kind);
    RefsDistinct(s.db.ledger, kind, user);
    forall id | id in ids
      ensures id in s.db.bets && s.db.bets[id].user == user && s.db.bets[id].odds < Pow10(10) && !s.db.bets[id].status.BetRejected?
    {
      RefsAreBets(s.db, kind, user, id);
    }
    forall i, j | 0 <= i < j < |ids|
      ensures s.db.bets[ids[i]].key != s.db.bets[ids[j]].key
    {
      assert ids[i] in ids && ids[j] in ids;
    }
  }

  // What the ledger says a user staked and was paid is what the referenced rows say.
  lemma {:induction false} SumsOfRefs(db: Db, ledger: seq<Entry>, user: Id)
    requires forall k | 0 <= k < |ledger| :: L.Expected(db, ledger[k].kind, ledger[k].reference) == [ledger[k]]
    ensures forall r | r in Refs(ledger, BetStake, user) :: r in db.bets
    ensures forall r | r in Refs(ledger, BetPayout, user) :: r in db.bets
    ensures KindSum(ledger, BetStake, user) == -(SumStakes(db.bets, Refs(ledger, BetStake, user)) as int)
    ensures KindSum(ledger, BetPayout, user) == SumPayouts(db.bets, Refs(ledger, BetPayout, user))
  {
    hide PayoutOf;
    if ledger != [] {
      var front, last := ledger[..|ledger| - 1], ledger[|ledger| - 1];
      SumsOfRefs(db, front, user);
      assert L.Expected(db, last.kind, last.reference) == [last];
      if last.kind.BetStake? && last.user == user {
        var refs := Refs(ledger, BetStake, user);
        assert refs[..|refs| - 1] == Refs(front, BetStake, user);
        assert Refs(ledger, BetPayout, user) == Refs(front, BetPayout, user);
      } else if last.kind.BetPayout? && last.user == user {
        var refs := Refs(ledger, BetPayout, user);
        assert refs[..|refs| - 1] == Refs(front, BetPayout, user);
        assert Refs(ledger, BetStake, user) == Refs(front, BetStake, user);
      } else {
        assert Refs(ledger, BetStake, user) == Refs(front, BetStake, user);
        assert Refs(ledger, BetPayout, user) == Refs(front, BetPayout, user);
      }
    }
  }

  // -------------------------------------------------------------- main results

  // The slack of a user's paid bets, in 1/20000 cents.
  ghost function PaidSlack(db: Db, user: Id): nat
    requires L.Inv(db)
  {
    PaidAreBets(db, user);
    SumSlack(db.bets, Refs(db.ledger, BetPayout, user))
  }

  lemma PaidAreBets(db: Db, user: Id)
    requires L.Inv(db)
    ensures forall r | r in Refs(db.ledger, BetPayout, user) :: r in db.bets
  {
    forall r | r in Refs(db.ledger, BetPayout, user)
      ensures r in db.bets
    {
      RefsAreBets(db, BetPayout, user, r);
    }
  }

  ghost predicate StakedWithinSeed(s: Sys, seeds: map<bytes, int>, user: Id) {
    user in seeds && user in s.engine.books.balances ==>
      -KindSum(s.db.ledger, BetStake, user) <= seeds[user] - s.engine.books.balances[user] <= seeds[user]
  }

  // In every state of every run of the pipeline, what settlement has paid to an account
  // is at most the exposure that the engine reserved for it, plus S/20000 + 1/2 cents for
  // each paid bet whose stake S is above 100.00; and what settlement has staked for it is
  // at most what the engine took from its balance, hence at most its seed.
  lemma PaidWithinExposure(cap: int, seeds: map<bytes, int>, events: seq<Event>, h: Hashes, user: Id)
    requires R.GoodSeeds(cap, seeds) && RunPipeline(Initial(cap, seeds), events, h).Some?
    ensures var s := RunPipeline(Initial(cap, seeds), events, h).value;
      && L.Inv(s.db)
      && 20000 * KindSum(s.db.ledger, BetPayout, user) <= 20000 * s.engine.books.Exposure(user) + PaidSlack(s.db, user)
      && s.engine.books.Exposure(user) <= cap
      && StakedWithinSeed(s, seeds, user)
  {
    RunInv(cap, seeds, events, h);
    hide RunPipeline;
    StateWithinExposure(RunPipeline(Initial(cap, seeds), events, h).value, seeds, user);
  }

  lemma StateWithinExposure(s: Sys, seeds: map<bytes, int>, user: Id)
    requires Inv(s, seeds)
    ensures 20000 * KindSum(s.db.ledger, BetPayout, user) <= 20000 * s.engine.books.Exposure(user) + PaidSlack(s.db, user)
    ensures s.engine.books.Exposure(user) <= s.engine.books.cap
    ensures StakedWithinSeed(s, seeds, user)
  {
    forall k | 0 <= k < |s.db.ledger|
      ensures L.Expected(s.db, s.db.ledger[k].kind, s.db.ledger[k].reference) == [s.db.ledger[k]]
    {
      L.EntryOwner(s.db, k);
    }
    SumsOfRefs(s.db, s.db.ledger, user);
    ClaimsOfRefs(s, seeds, BetStake, user);
    ClaimsOfRefs(s, seeds, BetPayout, user);
    assert R.Conserved(s.engine, seeds, user);
    hide L.Inv, R.Total, Genuine, AllBacked, Claims;
    Covered(s.db, Refs(s.db.ledger, BetStake, user), user, s.engine.tasks);
    Covered(s.db, Refs(s.db.ledger, BetPayout, user), user, s.engine.tasks);
  }

  ghost predicate StakesUpTo(db: Db, user: Id, limit: nat) {
    forall id | id in db.bets && db.bets[id].user == user && db.bets[id].status.BetWon? :: db.bets[id].stake <= limit
  }

  lemma {:induction false} NoSlack(bets: map<Id, BetRow>, ids: seq<Id>)
    requires forall id | id in ids :: id in bets && bets[id].stake <= 10000
    ensures SumSlack(bets, ids) == 0
  {
    if ids != [] {
      NoSlack(bets, ids[..|ids| - 1]);
    }
  }

  // As long as an account's won bets have stakes up to 100.00, it is never paid more than
  // the cap.
  lemma SmallStakesKeepTheCap(cap: int, seeds: map<bytes, int>, events: seq<Event>, h: Hashes, user: Id)
    requires R.GoodSeeds(cap, seeds) && RunPipeline(Initial(cap, seeds), events, h).Some?
    requires StakesUpTo(RunPipeline(Initial(cap, seeds), events, h).value.db, user, 10000)
    ensures KindSum(RunPipeline(Initial(cap, seeds), events, h).value.db.ledger, BetPayout, user) <= cap
  {
    PaidWithinExposure(cap, seeds, events, h, user);
    hide RunPipeline, Inv, L.LedgerShape;
    var db := RunPipeline(Initial(cap, seeds), events, h).value.db;
    forall r | r in Refs(db.ledger, BetPayout, user)
      ensures r in db.bets && db.bets[r].stake <= 10000
    {
      RefsAreBets(db, BetPayout, user, r);
    }
    NoSlack(db.bets, Refs(db.ledger, BetPayout, user));
  }

  // ------------------------------------------------- decisions that never arrive

  // Whatever is delivered and redelivered: a decision whose odds settlement's schema
  // refuses stands behind no bet, though its exposure stays.
  lemma UndeliverableBacksNothing(cap: int, seeds: map<bytes, int>, events: seq<Event>, h: Hashes, t: nat)
    requires R.GoodSeeds(cap, seeds) && RunPipeline(Initial(cap, seeds), events, h).Some?
    requires t < |RunPipeline(Initial(cap, seeds), events, h).value.engine.tasks|
    requires var bet := RunPipeline(Initial(cap, seeds), events, h).value.engine.tasks[t].bet;
      !Deliverable(bet.stake as int, bet.payout as int)
    ensures var s := RunPipeline(Initial(cap, seeds), events, h).value;
      forall id | id in s.db.bets :: !Backs(s.engine.tasks[t], s.db.bets[id])
  {
    RunInv(cap, seeds, events, h);
    hide RunPipeline, Deliverable, R.Inv, Genuine, AllBacked, L.LedgerShape;
    var s := RunPipeline(Initial(cap, seeds), events, h).value;
    forall id | id in s.db.bets
      ensures !Backs(s.engine.tasks[t], s.db.bets[id])
    {
      assert L.BetOk(s.db, s.db.bets[id]);
      if Backs(s.engine.tasks[t], s.db.bets[id]) {
        OddsInRangeIff(s.engine.tasks[t].bet.stake as nat, s.engine.tasks[t].bet.payout as nat);
      }
    }
  }

  // ------------------------------------------------------- the worker's seed suffices

  // What a wallet holds, or will hold when the worker opens it.
  function Funds(db: Db, user: Id): int {
    if user in db.wallets then db.wallets[user] else WORKER_SEED_CENTS
  }

  lemma ShortOnlyOfFunds(db: Db, e: ResultEvent)
    ensures ProcessEvent(db, e).1.InsufficientFunds? ==>
              StatusOf(e).BetAccepted? && !KeyUsed(db.bets, e.key) && Funds(db, e.user) < e.stake
  {
  }

  // Deposits and payouts only add to what the stakes took.
  lemma {:induction false} StakesBoundLedger(db: Db, ledger: seq<Entry>, user: Id)
    requires forall k | 0 <= k < |ledger| :: L.Expected(db, ledger[k].kind, ledger[k].reference) == [ledger[k]]
    ensures L.LedgerSum(ledger, user) >= KindSum(ledger, BetStake, user)
  {
    hide PayoutOf;
    if ledger != [] {
      var last := ledger[|ledger| - 1];
      StakesBoundLedger(db, ledger[..|ledger| - 1], user);
      assert L.Expected(db, last.kind, last.reference) == [last];
    }
  }

  // A decision whose key is on no bet can be set aside for the claims of those that are.
  lemma ClaimsBeside(db: Db, ids: seq<Id>, user: Id, tasks: seq<R.Task>, t: nat)
    requires Claims(db, ids, user, tasks) && t < |tasks| && !KeyUsed(db.bets, tasks[t].bet.idempotencyKey)
    ensures Claims(db, ids, user, tasks[t := tasks[t].(pc := R.Start)])
  {
    hide FromIngress, Pow10;
    var tasks' := tasks[t := tasks[t].(pc := R.Start)];
    forall id | id in ids
      ensures Backed(db.bets[id], tasks')
    {
      var u :| 0 <= u < |tasks| && Backs(tasks[u], db.bets[id]);
      assert u != t;
      assert Backs(tasks'[u], db.bets[id]);
    }
  }

  // The stakes on record and the one of a further accepted decision are within the seed.
  lemma RoomForStake(s: Sys, seeds: map<bytes, int>, t: nat, user: Id)
    requires Inv(s, seeds) && t < |s.engine.tasks| && R.IsAccepted(s.engine.tasks[t])
    requires s.engine.tasks[t].bet.accountId == user && !KeyUsed(s.db.bets, s.engine.tasks[t].bet.idempotencyKey)
    ensures user in seeds
    ensures s.engine.tasks[t].bet.stake as int - KindSum(s.db.ledger, BetStake, user) <= seeds[user]
  {
    var tasks := s.engine.tasks;
    var ids, freed := Refs(s.db.ledger, BetStake, user), tasks[t].(pc := R.Start);
    SpentBeside(s.engine, seeds, t, user);
    ClaimsOfRefs(s, seeds, BetStake, user);
    LedgerIsExpected(s.db);
    SumsOfRefs(s.db, s.db.ledger, user);
    hide *;
    ClaimsBeside(s.db, ids, user, tasks, t);
    Covered(s.db, ids, user, tasks[t := freed]);
  }

  // Without one accepted task, the others of its account spent at most the rest.
  lemma SpentBeside(engine: R.State, seeds: map<bytes, int>, t: nat, user: Id)
    requires R.Inv(engine, seeds) && t < |engine.tasks| && R.IsAccepted(engine.tasks[t])
    requires engine.tasks[t].bet.accountId == user
    ensures var tasks' := engine.tasks[t := engine.tasks[t].(pc := R.Start)];
      && user in seeds && R.AllWellFormed(tasks')
      && R.Total(tasks', user, R.Spent) + engine.tasks[t].bet.stake as int <= seeds[user]
  {
    var task := engine.tasks[t];
    assert task in engine.tasks && R.TaskOk(task, engine.books, seeds) && R.Conserved(engine, seeds, user);
    R.TotalOfUpdate(engine.tasks, t, task.(pc := R.Start), user, R.Spent);
    hide R.Total;
  }

  lemma LedgerIsExpected(db: Db)
    requires L.Inv(db)
    ensures forall k | 0 <= k < |db.ledger| :: L.Expected(db, db.ledger[k].kind, db.ledger[k].reference) == [db.ledger[k]]
  {
    forall k | 0 <= k < |db.ledger|
      ensures L.Expected(db, db.ledger[k].kind, db.ledger[k].reference) == [db.ledger[k]]
    {
      L.EntryOwner(db, k);
    }
  }

  lemma FundedState(s: Sys, seeds: map<bytes, int>, k: nat)
    requires Inv(s, seeds) && k < |s.log| && Read(s.log[k]).Some?
    requires var user := Read(s.log[k]).value.user;
      && (user in seeds ==> seeds[user] <= WORKER_SEED_CENTS)
      && (user in s.db.wallets ==> L.Opening(s.db, user) == WORKER_SEED_CENTS)
    ensures !ProcessEvent(s.db, Read(s.log[k]).value).1.InsufficientFunds?
  {
    hide R.Inv, Genuine, AllBacked, Read, L.LedgerShape, L.TablesOk, L.LedgerSum, KindSum, KeyUsed, ProcessEvent;
    var e := Read(s.log[k]).value;
    ShortOnlyOfFunds(s.db, e);
    if StatusOf(e).BetAccepted? && !KeyUsed(s.db.bets, e.key) {
      var t := LogEntry(s, k);
      RoomForStake(s, seeds, t, e.user);
      LedgerIsExpected(s.db);
      StakesBoundLedger(s.db, s.db.ledger, e.user);
      if e.user !in s.db.wallets {
        NoStakes(s.db, e.user);
      }
    }
  }

  lemma NoStakes(db: Db, user: Id)
    requires L.Inv(db) && user !in db.wallets
    ensures KindSum(db.ledger, BetStake, user) <= 0
  {
    LedgerIsExpected(db);
    L.NewWalletOpening(db, user);
    StakesBoundLedger(db, db.ledger, user);
  }

  // Every STK push of a user came when the user had a wallet.
  ghost predicate WorkerCameFirst(cap: int, seeds: map<bytes, int>, events: seq<Event>, h: Hashes, user: Id) {
    forall i | 0 <= i < |events| && events[i] == Other(OpenStk(user)) ::
      RunPipeline(Initial(cap, seeds), events[..i], h).Some? && user in RunPipeline(Initial(cap, seeds), events[..i], h).value.db.wallets
  }

  lemma {:induction false} WorkerOpened(cap: int, seeds: map<bytes, int>, events: seq<Event>, h: Hashes, user: Id)
    requires R.GoodSeeds(cap, seeds) && RunPipeline(Initial(cap, seeds), events, h).Some?
    requires WorkerCameFirst(cap, seeds, events, h, user)
    ensures var db := RunPipeline(Initial(cap, seeds), events, h).value.db;
      user in db.wallets ==> L.Opening(db, user) == WORKER_SEED_CENTS
  {
    if events != [] {
      var n := |events| - 1;
      var front, start := events[..n], Initial(cap, seeds);
      forall i | 0 <= i < n && front[i] == Other(OpenStk(user))
        ensures RunPipeline(start, front[..i], h).Some? && user in RunPipeline(start, front[..i], h).value.db.wallets
      {
        assert front[..i] == events[..i] && events[i] == front[i];
      }
      RunInv(cap, seeds, front, h);
      hide Inv, Step, L.Opening, R.GoodSeeds;
      WorkerOpened(cap, seeds, front, h, user);
      OpeningStep(RunPipeline(start, front, h).value, events[n], h, seeds, user);
    }
  }

  lemma OpeningStep(s: Sys, e: Event, h: Hashes, seeds: map<bytes, int>, user: Id)
    requires Inv(s, seeds) && Step(s, e, h).Some?
    requires user in s.db.wallets ==> L.Opening(s.db, user) == WORKER_SEED_CENTS
    requires e == Other(OpenStk(user)) ==> user in s.db.wallets
    ensures var db := Step(s, e, h).value.db; user in db.wallets ==> L.Opening(db, user) == WORKER_SEED_CENTS
  {
    hide R.Inv, L.Inv, R.Step, Genuine, AllBacked, Read, ProcessEvent, ValidEvent, BetOf, Emit, L.Opening, Apply, Enabled;
    if e.Deliver? && Read(s.log[e.k]).Some? && ValidEvent(Read(s.log[e.k]).value) {
      var event := Read(s.log[e.k]).value;
      L.RaceIsHarmless(s.db, event);
      L.FinishEventOk(s.db, event);
    } else if e.Other? {
      L.StepOk(s.db, e.txn);
      if user !in s.db.wallets {
        OpensOnlyItsUser(s.db, e.txn, user);
      }
    }
  }

  lemma OpensOnlyItsUser(db: Db, txn: Txn, user: Id)
    requires L.Inv(db) && Enabled(db, txn) && !txn.Process? && txn != OpenStk(user) && user !in db.wallets
    ensures user !in Apply(db, txn).wallets
  {
    hide L.LedgerShape, L.Opening;
    if txn.Settle? {
      L.SettleRowsOk(Settlement(db, 0, 0, 0), txn.rows, txn.winner);
    }
  }

  // As long as the engine's seed of an account is at most the 1000.00 that the worker
  // opens wallets with, and the worker came before any STK push, no result of the engine
  // for that account is ever refused for want of funds.
  lemma WorkerSeedSuffices(cap: int, seeds: map<bytes, int>, events: seq<Event>, h: Hashes, k: nat)
    requires R.GoodSeeds(cap, seeds) && RunPipeline(Initial(cap, seeds), events, h).Some?
    requires var s := RunPipeline(Initial(cap, seeds), events, h).value;
      && k < |s.log| && Read(s.log[k]).Some?
      && var user := Read(s.log[k]).value.user;
        && (user in seeds ==> seeds[user] <= 100_000)
        && WorkerCameFirst(cap, seeds, events, h, user)
    ensures var s := RunPipeline(Initial(cap, seeds), events, h).value;
      !ProcessEvent(s.db, Read(s.log[k]).value).1.InsufficientFunds?
  {
    RunInv(cap, seeds, events, h);
    hide RunPipeline, WorkerCameFirst, Inv, Read, ProcessEvent, L.Opening;
    var s := RunPipeline(Initial(cap, seeds), events, h).value;
    WorkerOpened(cap, seeds, events, h, Read(s.log[k]).value.user);
    FundedState(s, seeds, k);
  }
}

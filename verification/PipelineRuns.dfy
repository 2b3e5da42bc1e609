/** Complete runs of the pipeline that show where its promises end: payouts beyond the cap,
    accepted bets that settlement refuses, and accepted bets that a wallet cannot pay.
  */
module PipelineRuns {
  import opened Wrappers
  import opened JsonStrings
  import opened BetSchema
  import opened Money
  import opened RiskBooks
  import opened Ingress
  import opened IngressWire
  import opened SettlementTables
  import opened ResultWire
  import opened Pipeline

  // --------------------------------------------------------------- single steps

  lemma OneMore(s: Sys, events: seq<Event>, e: Event, h: Hashes) returns (more: seq<Event>)
    requires RunPipeline(s, events, h).Some? && Step(RunPipeline(s, events, h).value, e, h).Some?
    ensures RunPipeline(s, more, h) == Step(RunPipeline(s, events, h).value, e, h)
    ensures more != [] && more[|more| - 1] == e
  {
    hide Step;
    more := events + [e];
    assert more[..|events|] == events;
  }

  lemma DeliverStep(s: Sys, e: ResultEvent, h: Hashes)
    requires |s.log| == 1 && Read(s.log[0]) == Some(e)
    ensures Step(s, Deliver(0), h) == Some(if ValidEvent(e) then s.(db := ProcessEvent(s.db, e).0) else s)
  {
    hide Read, ValidEvent, ProcessEvent;
  }

  lemma OtherStep(s: Sys, txn: Txn, h: Hashes)
    requires !txn.Process? && Enabled(s.db, txn)
    ensures Step(s, Other(txn), h) == Some(s.(db := Apply(s.db, txn)))
  {
    hide Apply, Enabled;
  }

  lemma EngineStep(s: Sys, e: R.Event, h: Hashes)
    requires !e.Submit? && R.Step(s.engine, e).Some?
    ensures Step(s, Engine(e), h) == Some(s.(engine := R.Step(s.engine, e).value))
  {
    hide R.Step;
  }

  const PUNTER: Id := [0x70]
  const GAME: Id := [0x67]
  const HOME: Id := [0x68]

  function LoneRequest(stake: nat, payout: nat): Request {
    Request(GAME, GAME, HOME, Decimal(stake, -2), Decimal(payout, -2), 1)
  }

  lemma LoneRequestIsValid(stake: nat, payout: nat)
    requires 0 < stake <= payout < Pow10(18)
    ensures Validated(LoneRequest(stake, payout))
    ensures ExactCents(Decimal(stake, -2)) == Some(stake) && ExactCents(Decimal(payout, -2)) == Some(payout)
  {
    assert Pow10(0) == 1;
    assert stake * Pow10(0) == stake && payout * Pow10(0) == payout;
  }

  // Digests and UUIDs as text.
  ghost predicate GoodHashes(h: Hashes) {
    forall v: bytes :: IsPlainId(h.sha256(v)) && IsPlainId(h.uuid5(v))
  }

  function LoneBet(stake: nat, payout: nat, h: Hashes): BetSubmitted
    requires 0 < stake <= payout < Pow10(18)
  {
    LoneRequestIsValid(stake, payout);
    SubmitBet(PUNTER, LoneRequest(stake, payout), h.sha256, h.uuid5).value
  }

  lemma LoneBetIs(stake: nat, payout: nat, h: Hashes)
    requires 0 < stake <= payout < Pow10(18) && GoodHashes(h)
    ensures var bet := LoneBet(stake, payout, h);
      && FromIngress(bet) && Readable(bet) && BetOf(Payload(bet)) == Ok(bet)
      && bet.accountId == PUNTER && bet.matchId == GAME && bet.selectionId == HOME
      && bet.stake as int == stake && bet.payout as int == payout
  {
    LoneRequestIsValid(stake, payout);
    var r := LoneRequest(stake, payout);
    assert IsPlainId(PUNTER) && IsPlainId(GAME) && IsPlainId(HOME);
    PublishedEvent(PUNTER, r, h.sha256, h.uuid5);
    hide SubmitBet, Validated, Pow10, ParseOdds, OddsTicks, ExactCents, BetOf, Payload, Readable, IsPlainId;
    RequestReachesEngine(PUNTER, r, h.sha256, h.uuid5);
    PayloadIsReadIff(LoneBet(stake, payout, h));
  }

  // One bet whose payout is the whole cap and whose stake is the whole balance.
  lemma LoneDecision(bet: BetSubmitted) returns (s1: R.State, s2: R.State, s3: R.State, s4: R.State)
    requires WellFormed(bet)
    ensures R.Step(R.Initial(bet.payout as int, map[bet.accountId := bet.stake as int]), R.Submit(bet, 0)) == Some(s1)
    ensures R.Step(s1, R.Load(0)) == Some(s2)
    ensures R.Step(s2, R.Exchange(0, false)) == Some(s3)
    ensures R.Step(s3, R.Reserve(0)) == Some(s4)
    ensures LoneAccepted(s4, bet)
  {
    var start := R.Initial(bet.payout as int, map[bet.accountId := bet.stake as int]);
    s1 := R.Step(start, R.Submit(bet, 0)).value;
    s2 := R.Step(s1, R.Load(0)).value;
    s3 := R.Step(s2, R.Exchange(0, false)).value;
    s4 := R.Step(s3, R.Reserve(0)).value;
  }

  ghost predicate LoneAccepted(engine: R.State, bet: BetSubmitted) {
    && |engine.tasks| == 1 && R.IsAccepted(engine.tasks[0]) && engine.tasks[0].bet == bet
    && engine.books.Exposure(bet.accountId) == bet.payout as int == engine.books.cap
  }

  // The run up to the published acceptance.
  lemma LoneBetAccepted(stake: nat, payout: nat, h: Hashes) returns (events: seq<Event>)
    requires 0 < stake <= payout < Pow10(18) && GoodHashes(h)
    ensures RunPipeline(Initial(payout, map[PUNTER := stake]), events, h).Some?
    ensures var s := RunPipeline(Initial(payout, map[PUNTER := stake]), events, h).value;
      && s.db == EMPTY_DB && LoneAccepted(s.engine, LoneBet(stake, payout, h))
      && |s.log| == 1 && Reports(s.log[0], s.engine.tasks[0])
      && Read(s.log[0]) == ResultOf(s.engine.tasks[0].bet, s.engine.tasks[0].pc.decision)
  {
    LoneBetIs(stake, payout, h);
    LoneRequestIsValid(stake, payout);
    var r, bet := LoneRequest(stake, payout), LoneBet(stake, payout, h);
    var start := Initial(payout, map[PUNTER := stake]);
    var s1, s2, s3, s4 := LoneDecision(bet);
    RunNothing(start, h);
    var posted := start.(topic := [Payload(bet)]);
    PostStep(start, r, bet, h);
    ConsumeStep(posted, bet, h);
    EngineStep(posted.(engine := s1), R.Load(0), h);
    EngineStep(posted.(engine := s2), R.Exchange(0, false), h);
    EngineStep(posted.(engine := s3), R.Reserve(0), h);
    PublishStep(posted.(engine := s4), h);
    ResultIsRead(bet, s4.tasks[0].pc.decision);
    assert LoneAccepted(s4, bet) && start.db == EMPTY_DB;
    hide *;
    events := OneMore(start, [], Post(PUNTER, r), h);
    events := OneMore(start, events, Consume(0, 0), h);
    events := OneMore(start, events, Engine(R.Load(0)), h);
    events := OneMore(start, events, Engine(R.Exchange(0, false)), h);
    events := OneMore(start, events, Engine(R.Reserve(0)), h);
    events := OneMore(start, events, Publish(0), h);
  }

  lemma PostStep(s: Sys, r: Request, bet: BetSubmitted, h: Hashes)
    requires s.topic == [] && Validated(r) && r.epochMs > 0 && SubmitBet(PUNTER, r, h.sha256, h.uuid5) == Some(bet)
    ensures Step(s, Post(PUNTER, r), h) == Some(s.(topic := [Payload(bet)]))
  {
    hide SubmitBet, Validated, Payload;
    assert [] + [Payload(bet)] == [Payload(bet)];
  }

  lemma ConsumeStep(s: Sys, bet: BetSubmitted, h: Hashes)
    requires s.topic == [Payload(bet)] && BetOf(Payload(bet)) == Ok(bet) && R.Step(s.engine, R.Submit(bet, 0)).Some?
    ensures Step(s, Consume(0, 0), h) == Some(s.(engine := R.Step(s.engine, R.Submit(bet, 0)).value))
  {
    hide BetOf, Payload, R.Step;
  }

  lemma PublishStep(s: Sys, h: Hashes)
    requires s.log == [] && |s.engine.tasks| == 1 && s.engine.tasks[0].pc.Done?
    ensures Step(s, Publish(0), h) ==
            Some(s.(log := [Emit(s.engine.tasks[0].bet, s.engine.tasks[0].pc.decision)]))
  {
    hide Emit;
    var x := Emit(s.engine.tasks[0].bet, s.engine.tasks[0].pc.decision);
    assert [] + [x] == [x];
  }

  lemma RunNothing(s: Sys, h: Hashes)
    ensures RunPipeline(s, [], h) == Some(s)
  {
  }

  // The settlement half: a deposit that covers the stake, the result, the final whistle.
  function Deposited(stake: nat): Db {
    var db1 := StkOpen(EMPTY_DB, PUNTER).0;
    var db2 := StkInsert(db1, GAME, PUNTER, stake).0;
    Callback(db2, StkCallback(Some(GAME), 0, None, None)).0
  }

  lemma DepositedIs(stake: nat)
    ensures var db := Deposited(stake);
      && db.users.Keys == {PUNTER} && db.wallets == map[PUNTER := stake * 100] && db.bets == map[]
      && db.ledger == [Entry(PUNTER, stake * 100, Deposit, GAME)]
  {
  }

  lemma DepositEvents(s: Sys, events: seq<Event>, h: Hashes, stake: nat) returns (more: seq<Event>)
    requires RunPipeline(s, events, h).Some? && RunPipeline(s, events, h).value.db == EMPTY_DB && 0 < stake
    ensures RunPipeline(s, more, h) == Some(RunPipeline(s, events, h).value.(db := Deposited(stake)))
  {
    hide Username, Callback, StkOpen, StkInsert;
    more := events;
    more := OneMore(s, more, Other(OpenStk(PUNTER)), h);
    more := OneMore(s, more, Other(InsertStk(GAME, PUNTER, stake)), h);
    more := OneMore(s, more, Other(OnCallback(StkCallback(Some(GAME), 0, None, None))), h);
  }

  lemma ResultWritten(stake: nat, e: ResultEvent)
    requires e.user == PUNTER && 0 < e.stake <= stake && StatusOf(e).BetAccepted?
    ensures var db := ProcessEvent(Deposited(stake), e).0;
      && db.bets == map[e.betId := RowOf(e)] && PUNTER in db.wallets
      && db.ledger == Deposited(stake).ledger + [StakeEntry(e)]
  {
    DepositedIs(stake);
    hide Deposited, Username;
  }

  lemma WonAndPaid(db: Db, id: Id, row: BetRow)
    requires db.bets == map[id := row] && PUNTER in db.wallets && row.user == PUNTER
    requires row.status.BetAccepted? && row.matchId == GAME && row.selection == HOME
    ensures Selection(db, GAME, [id])
    ensures var db' := SettleMatch(db, [id], HOME).db;
      && db'.bets == map[id := row.(status := BetWon)]
      && KindSum(db'.ledger, BetPayout, PUNTER) == KindSum(db.ledger, BetPayout, PUNTER) + PayoutOf(row)
  {
    hide PayoutOf;
    var s := Settlement(db, 0, 0, 0);
    assert [id][..0] == [];
    var s' := SettleOne(s, id, HOME);
    assert SettleRows(s, [id], HOME) == s';
    assert s'.db.ledger[..|db.ledger|] == db.ledger;
  }

  // The only stake among a user's won bets.
  ghost predicate OnlyStake(db: Db, user: Id, stake: nat) {
    forall id | id in db.bets && db.bets[id].user == user && db.bets[id].status.BetWon? :: db.bets[id].stake == stake
  }

  ghost predicate ExceedsCap(cap: int, seeds: map<bytes, int>, events: seq<Event>, h: Hashes, user: Id, stake: nat) {
    && R.GoodSeeds(cap, seeds) && RunPipeline(Initial(cap, seeds), events, h).Some?
    && var db := RunPipeline(Initial(cap, seeds), events, h).value.db;
      OnlyStake(db, user, stake) && KindSum(db.ledger, BetPayout, user) > cap
  }

  // The lone bet's result as settlement reads it.
  lemma LoneResult(s: Sys, stake: nat, payout: nat, h: Hashes) returns (e: ResultEvent)
    requires 0 < stake <= payout < Pow10(18) && GoodHashes(h)
    requires LoneAccepted(s.engine, LoneBet(stake, payout, h)) && |s.log| == 1
    requires Read(s.log[0]) == ResultOf(s.engine.tasks[0].bet, s.engine.tasks[0].pc.decision)
    ensures Read(s.log[0]) == Some(e)
    ensures StatusOf(e).BetAccepted? && e.user == PUNTER && e.matchId == GAME && e.selection == HOME
    ensures e.stake == stake && e.odds == OddsTicks(stake, payout)
    ensures ValidEvent(e) <==> Deliverable(stake, payout)
  {
    LoneBetIs(stake, payout, h);
    var task := s.engine.tasks[0];
    DeliverableIff(task.bet, task.pc.decision);
    AcceptedResult(task.bet, task.pc.decision);
    hide LoneBet, FromIngress, Read, ResultOf, Readable, Deliverable, ValidEvent, BetOf, Payload, StatusOf, OddsTicks, Pow10, GoodHashes;
    e := ResultOf(task.bet, task.pc.decision).value;
  }

  lemma AcceptedResult(bet: BetSubmitted, d: Decision)
    requires FromIngress(bet) && d.Accepted?
    ensures ResultOf(bet, d).Some?
    ensures var e := ResultOf(bet, d).value;
      && StatusOf(e).BetAccepted? && e.user == bet.accountId && e.matchId == bet.matchId && e.selection == bet.selectionId
      && e.stake == bet.stake as int && e.odds == OddsTicks(bet.stake as nat, bet.payout as nat)
  {
    hide ParseOdds, OddsTicks, Pow10;
  }

  lemma {:induction false} NoRowsOfKind(ledger: seq<Entry>, kind: LedgerKind, user: Id)
    requires forall k | 0 <= k < |ledger| :: ledger[k].kind != kind
    ensures KindSum(ledger, kind, user) == 0
  {
    if ledger != [] {
      NoRowsOfKind(ledger[..|ledger| - 1], kind, user);
    }
  }

  lemma SettledRow(e: ResultEvent)
    requires 0 < e.stake && StatusOf(e).BetAccepted? && e.user == PUNTER && e.matchId == GAME && e.selection == HOME
    ensures var db := ProcessEvent(Deposited(e.stake), e).0;
      && Selection(db, GAME, [e.betId])
      && var db' := SettleMatch(db, [e.betId], HOME).db;
        && db'.bets == map[e.betId := RowOf(e).(status := BetWon)]
        && KindSum(db'.ledger, BetPayout, PUNTER) == PayoutOf(RowOf(e))
  {
    var db := ProcessEvent(Deposited(e.stake), e).0;
    DepositedIs(e.stake);
    ResultWritten(e.stake, e);
    hide Deposited, ProcessEvent, PayoutOf, SettleMatch, Selection;
    NoRowsOfKind(db.ledger, BetPayout, PUNTER);
    WonAndPaid(db, e.betId, RowOf(e));
  }

  lemma DeliverAndSettle(start: Sys, events: seq<Event>, h: Hashes, e: ResultEvent) returns (more: seq<Event>)
    requires RunPipeline(start, events, h).Some?
    requires var s := RunPipeline(start, events, h).value;
      s.db == Deposited(e.stake) && |s.log| == 1 && Read(s.log[0]) == Some(e)
    requires ValidEvent(e) && StatusOf(e).BetAccepted? && e.user == PUNTER && e.matchId == GAME && e.selection == HOME
    ensures RunPipeline(start, more, h).Some?
    ensures var db := RunPipeline(start, more, h).value.db;
      && db.bets == map[e.betId := RowOf(e).(status := BetWon)]
      && KindSum(db.ledger, BetPayout, PUNTER) == PayoutOf(RowOf(e))
  {
    SettledRow(e);
    var s := RunPipeline(start, events, h).value;
    var db := ProcessEvent(Deposited(e.stake), e).0;
    var whistle := Settle(GAME, [e.betId], HOME);
    assert Enabled(db, whistle) && Apply(db, whistle) == SettleMatch(db, [e.betId], HOME).db;
    DeliverStep(s, e, h);
    OtherStep(s.(db := db), whistle, h);
    hide *;
    more := OneMore(start, events, Deliver(0), h);
    more := OneMore(start, more, Other(whistle), h);
  }

  // Some payout that ingress admits for a stake comes back larger.
  predicate HasOverpaidPayout(stake: nat) {
    10000 < stake && stake <= 20000 * (Pow10(18) - 1 - stake)
  }

  lemma OverpaidIsDeliverable(stake: nat, payout: nat)
    requires 10000 < stake <= payout <= 2 * stake && payout < SettledPayout(stake, payout)
    ensures Deliverable(stake, payout)
  {
    hide HalfUp;
    if 20000 * (payout - stake) < stake {
      ExactHalfUp(stake, 10000);
      EvenOdds(stake, payout);
    }
  }

  lemma RunBeyondTheCap(stake: nat, h: Hashes) returns (cap: int, events: seq<Event>)
    requires HasOverpaidPayout(stake) && GoodHashes(h)
    ensures ExceedsCap(cap, map[PUNTER := stake], events, h, PUNTER, stake)
  {
    PowerOf18();
    var payout := OverpaidBelow(stake, Pow10(18));
    OverpaidIsDeliverable(stake, payout);
    OddsInRangeIff(stake, payout);
    PayoutIsExactProduct(stake, OddsTicks(stake, payout));
    assert PayoutCents(stake, OddsTicks(stake, payout)) > payout;
    assert R.GoodSeeds(payout, map[PUNTER := stake]);
    cap := payout;
    var start := Initial(cap, map[PUNTER := stake]);
    events := PaidRun(stake, payout, h);
    PaidExceeds(RunPipeline(start, events, h).value.db, stake, payout);
  }

  // The lone bet, with a deposit that covers its stake, from request to payout.
  lemma PaidRun(stake: nat, payout: nat, h: Hashes) returns (events: seq<Event>)
    requires 0 < stake <= payout < Pow10(18) && GoodHashes(h) && Deliverable(stake, payout)
    ensures RunPipeline(Initial(payout, map[PUNTER := stake]), events, h).Some?
    ensures LoneWin(RunPipeline(Initial(payout, map[PUNTER := stake]), events, h).value.db, stake, payout)
  {
    hide LoneBet, Pow10, OddsTicks, ProcessEvent, RunPipeline, KindSum, Deposited, Read, ResultOf, PayoutCents, Deliverable, GoodHashes, LoneAccepted;
    var start := Initial(payout, map[PUNTER := stake]);
    events := LoneBetAccepted(stake, payout, h);
    events := DepositEvents(start, events, h, stake);
    var e := LoneResult(RunPipeline(start, events, h).value, stake, payout, h);
    events := DeliverAndSettle(start, events, h, e);
    assert RowOf(e).stake == stake && RowOf(e).odds == OddsTicks(stake, payout);
  }

  ghost predicate LoneWin(db: Db, stake: nat, payout: nat)
    requires stake > 0
  {
    && KindSum(db.ledger, BetPayout, PUNTER) == PayoutCents(stake, OddsTicks(stake, payout))
    && forall id | id in db.bets :: db.bets[id].stake == stake
  }

  lemma PaidExceeds(db: Db, stake: nat, payout: nat)
    requires stake > 0 && LoneWin(db, stake, payout) && PayoutCents(stake, OddsTicks(stake, payout)) > payout
    ensures OnlyStake(db, PUNTER, stake) && KindSum(db.ledger, BetPayout, PUNTER) > payout
  {
  }

  // A stake without such payouts cannot be won at all: whatever its odds could have been,
  // they would be 1.0000.
  lemma NothingWon(cap: int, seeds: map<bytes, int>, events: seq<Event>, h: Hashes, user: Id, stake: nat)
    requires R.GoodSeeds(cap, seeds) && RunPipeline(Initial(cap, seeds), events, h).Some?
    requires OnlyStake(RunPipeline(Initial(cap, seeds), events, h).value.db, user, stake)
    requires stake > 20000 * (Pow10(18) - 1 - stake)
    ensures KindSum(RunPipeline(Initial(cap, seeds), events, h).value.db.ledger, BetPayout, user) == 0
  {
    RunInv(cap, seeds, events, h);
    hide RunPipeline, R.Inv, L.Inv, Genuine, Pow10, Backed, KindSum, Refs;
    var s := RunPipeline(Initial(cap, seeds), events, h).value;
    if Refs(s.db.ledger, BetPayout, user) != [] {
      var r := Refs(s.db.ledger, BetPayout, user)[0];
      RefsAreBets(s.db, BetPayout, user, r);
      NotWon(s, seeds, r, stake);
    }
    LedgerIsExpected(s.db);
    SumsOfRefs(s.db, s.db.ledger, user);
  }

  lemma NotWon(s: Sys, seeds: map<bytes, int>, r: Id, stake: nat)
    requires Inv(s, seeds) && r in s.db.bets && !s.db.bets[r].status.BetRejected?
    requires stake > 20000 * (Pow10(18) - 1 - stake)
    ensures s.db.bets[r].stake != stake
  {
    hide R.Inv, L.LedgerShape, Genuine, Pow10, ParseOdds, OddsTicks;
    var t :| 0 <= t < |s.engine.tasks| && Backs(s.engine.tasks[t], s.db.bets[r]);
    assert L.BetOk(s.db, s.db.bets[r]);
    OddsInRangeIff(s.engine.tasks[t].bet.stake as nat, s.engine.tasks[t].bet.payout as nat);
  }

  // For every stake: some run in which an account wins with that stake alone pays it more
  // than the engine's cap exactly when the stake is above 100.00 and leaves room below
  // 10^18 cents for a payout with odds above 1.0000.
  lemma CapHoldsIff(stake: nat, h: Hashes)
    requires 0 < stake && GoodHashes(h)
    ensures (exists cap: int, seeds, events, user :: ExceedsCap(cap, seeds, events, h, user, stake)) <==>
            10000 < stake && stake <= 20000 * (Pow10(18) - 1 - stake)
  {
    if HasOverpaidPayout(stake) {
      var cap, events := RunBeyondTheCap(stake, h);
    } else {
      forall cap: int, seeds, events, user | ExceedsCap(cap, seeds, events, h, user, stake)
        ensures false
      {
        if stake <= 10000 {
          SmallStakesKeepTheCap(cap, seeds, events, h, user);
        } else {
          NothingWon(cap, seeds, events, h, user, stake);
        }
      }
    }
  }

  // ----------------------------------------------- accepted, published and lost

  // For every stake and payout whose odds settlement refuses: the engine accepts the bet
  // and reserves its payout, the result is published and delivered, and nothing of it is
  // ever written.
  lemma AcceptedButRefused(stake: nat, payout: nat, h: Hashes) returns (events: seq<Event>)
    requires 0 < stake <= payout < Pow10(18) && GoodHashes(h) && !Deliverable(stake, payout)
    ensures RunPipeline(Initial(payout, map[PUNTER := stake]), events, h).Some?
    ensures var s := RunPipeline(Initial(payout, map[PUNTER := stake]), events, h).value;
      && LoneAccepted(s.engine, LoneBet(stake, payout, h)) && s.engine.books.Exposure(PUNTER) == payout
      && |s.log| == 1 && Reports(s.log[0], s.engine.tasks[0])
      && events != [] && events[|events| - 1] == Deliver(0)
      && s.db == EMPTY_DB
  {
    LoneBetIs(stake, payout, h);
    hide RunPipeline, LoneBet, Pow10, ProcessEvent, Read, ResultOf, Deliverable, GoodHashes, FromIngress, Readable, BetOf, Payload, OddsTicks, ValidEvent, Reports, StatusOf, Step;
    var start := Initial(payout, map[PUNTER := stake]);
    var front := LoneBetAccepted(stake, payout, h);
    var s := RunPipeline(start, front, h).value;
    var e := LoneResult(s, stake, payout, h);
    DeliverStep(s, e, h);
    events := OneMore(start, front, Deliver(0), h);
  }

  // Where the worker's seed does not help: a seed of the engine above 1000.00 that a stake
  // uses up, or a wallet opened with nothing by an STK push before the worker sees the
  // account's first result.  Every such bet is accepted, its exposure reserved, and its
  // result refused for want of funds.
  lemma AcceptedButUnfunded(stake: nat, payout: nat, pushFirst: bool, h: Hashes) returns (events: seq<Event>)
    requires 0 < stake <= payout < Pow10(18) && GoodHashes(h) && Deliverable(stake, payout)
    requires stake > 100_000 || pushFirst
    ensures RunPipeline(Initial(payout, map[PUNTER := stake]), events, h).Some?
    ensures var s := RunPipeline(Initial(payout, map[PUNTER := stake]), events, h).value;
      && LoneAccepted(s.engine, LoneBet(stake, payout, h))
      && |s.log| == 1 && Reports(s.log[0], s.engine.tasks[0])
      && Read(s.log[0]).Some? && ValidEvent(Read(s.log[0]).value) && Read(s.log[0]).value.user == PUNTER
      && ProcessEvent(s.db, Read(s.log[0]).value).1.InsufficientFunds?
      && Step(s, Deliver(0), h) == Some(s) && s.db.bets == map[]
  {
    hide RunPipeline, LoneBet, Pow10, ProcessEvent, Read, ResultOf, Deliverable, GoodHashes, OddsTicks, ValidEvent, Reports, StatusOf, Step, LoneAccepted, StkOpen;
    var start := Initial(payout, map[PUNTER := stake]);
    events := LoneBetAccepted(stake, payout, h);
    var s := RunPipeline(start, events, h).value;
    var e := LoneResult(s, stake, payout, h);
    if pushFirst {
      OtherStep(s, OpenStk(PUNTER), h);
      EmptyWallet(e);
      DeliverStep(s.(db := StkOpen(EMPTY_DB, PUNTER).0), e, h);
      events := OneMore(start, events, Other(OpenStk(PUNTER)), h);
    } else {
      SeededWallet(e);
      DeliverStep(s, e, h);
    }
  }

  lemma EmptyWallet(e: ResultEvent)
    requires e.user == PUNTER && 0 < e.stake && StatusOf(e).BetAccepted?
    ensures var db := StkOpen(EMPTY_DB, PUNTER).0;
      ProcessEvent(db, e) == (db, Outcome.InsufficientFunds) && db.bets == map[]
  {
    hide Username;
  }

  lemma SeededWallet(e: ResultEvent)
    requires e.user == PUNTER && 100_000 < e.stake && StatusOf(e).BetAccepted?
    ensures ProcessEvent(EMPTY_DB, e) == (EMPTY_DB, Outcome.InsufficientFunds) && EMPTY_DB.bets == map[]
  {
    hide Username;
  }
}

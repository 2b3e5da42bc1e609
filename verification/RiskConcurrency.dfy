/** The risk engine under any number of threads and any interleaving of their atomic
    steps: load, compare/exchange (which may fail spuriously), reserve under the
    exposure lock, and the compensating fetch_add.

    Each call of evaluate_json is a task with a program counter; a thread runs one task
    after another, so the tasks of a state may belong to any threads.  Balances are
    seeded before the run and not set during it.
  */
module RiskConcurrency {
  import opened Wrappers
  import opened JsonStrings
  import opened BetSchema
  import opened RiskBooks
  import opened Permutations

  datatype Pc =
    | Start
    | Loaded(current: int)
    | Debited(remaining: int)
    | Refunding(remaining: int)
    | Done(decision: Decision)

  datatype Task = Task(bet: BetSubmitted, pc: Pc)

  datatype State = State(books: Books, tasks: seq<Task>)

  datatype Event =
    | Submit(bet: BetSubmitted, now: int)
    | Load(task: nat)
    | Exchange(task: nat, spurious: bool)
    | Reserve(task: nat)
    | Credit(task: nat)

  // The comparison at the head of the debit loop, with a freshly observed balance.
  function Observe(bet: BetSubmitted, current: int): Pc {
    if current < bet.stake as int then Done(InsufficientFunds(current)) else Loaded(current)
  }

  function SetPc(s: State, t: nat, pc: Pc): State
    requires t < |s.tasks|
  {
    s.(tasks := s.tasks[t := s.tasks[t].(pc := pc)])
  }

  // One atomic step; None when it is not the turn of that step.
  function Step(s: State, e: Event): Option<State> {
    match e
    case Submit(bet, now) =>
      if !WellFormed(bet) then None
      else Some(s.(tasks := s.tasks + [Task(bet, if IsStale(bet, now) then Done(StaleQuote) else Start)]))
    case Load(t) =>
      if t >= |s.tasks| || !s.tasks[t].pc.Start? then None
      else Some(SetPc(s, t, AfterLoad(s.books, s.tasks[t].bet)))
    case Exchange(t, spurious) =>
      if t >= |s.tasks| || !s.tasks[t].pc.Loaded? || s.tasks[t].bet.accountId !in s.books.balances then None
      else Some(AfterExchange(s, t, spurious))
    case Reserve(t) =>
      if t >= |s.tasks| || !s.tasks[t].pc.Debited? then None
      else Some(AfterReserve(s, t))
    case Credit(t) =>
      if t >= |s.tasks| || !s.tasks[t].pc.Refunding? || s.tasks[t].bet.accountId !in s.books.balances then None
      else Some(AfterCredit(s, t))
  }

  function AfterLoad(books: Books, bet: BetSubmitted): Pc {
    if bet.accountId !in books.balances then Done(AccountNotFound) else Observe(bet, books.balances[bet.accountId])
  }

  function AfterExchange(s: State, t: nat, spurious: bool): State
    requires t < |s.tasks| && s.tasks[t].pc.Loaded? && s.tasks[t].bet.accountId in s.books.balances
  {
    var bet, current := s.tasks[t].bet, s.tasks[t].pc.current;
    var balance := s.books.balances[bet.accountId];
    if spurious || balance != current then
      SetPc(s, t, Observe(bet, balance))
    else
      var desired := current - bet.stake as int;
      SetPc(s, t, Debited(desired)).(books := s.books.(balances := s.books.balances[bet.accountId := desired]))
  }

  function AfterReserve(s: State, t: nat): State
    requires t < |s.tasks| && s.tasks[t].pc.Debited?
  {
    var bet, remaining := s.tasks[t].bet, s.tasks[t].pc.remaining;
    var current, payout := s.books.Exposure(bet.accountId), bet.payout as int;
    if current > s.books.cap - payout then
      SetPc(s, t, Refunding(remaining)).(books := s.books.(exposure := s.books.exposure[bet.accountId := current]))
    else
      SetPc(s, t, Done(Accepted(current + payout, remaining)))
      .(books := s.books.(exposure := s.books.exposure[bet.accountId := current + payout]))
  }

  function AfterCredit(s: State, t: nat): State
    requires t < |s.tasks| && s.tasks[t].pc.Refunding? && s.tasks[t].bet.accountId in s.books.balances
  {
    var bet := s.tasks[t].bet;
    SetPc(s, t, Done(SaecExceeded(s.tasks[t].pc.remaining + bet.stake as int)))
    .(books := s.books.(balances := s.books.balances[bet.accountId := s.books.balances[bet.accountId] + bet.stake as int]))
  }

  function Run(s: State, events: seq<Event>): Option<State> {
    if events == [] then
      Some(s)
    else
      var before := Run(s, events[..|events| - 1]);
      if before.None? then None else Step(before.value, events[|events| - 1])
  }

  function Initial(cap: int, seeds: map<bytes, int>): State {
    State(Books(cap, seeds, map[]), [])
  }

  ghost predicate GoodSeeds(cap: int, seeds: map<bytes, int>) {
    && 0 < cap && FitsInt64(cap)
    && forall a | a in seeds :: 0 <= seeds[a] && FitsInt64(seeds[a])
  }

  // --------------------------------------------------------- sums over tasks

  // What a task has taken out of its account's balance without a final decision, what
  // it has spent for good, and what it has reserved.
  datatype Weight = Held | Spent | Reserved

  function Share(task: Task, account: bytes, w: Weight): nat
    requires WellFormed(task.bet)
  {
    if task.bet.accountId != account then 0
    else match w
      case Held => if task.pc.Debited? || task.pc.Refunding? then task.bet.stake as int else 0
      case Spent => if IsAccepted(task) then task.bet.stake as int else 0
      case Reserved => if IsAccepted(task) then task.bet.payout as int else 0
  }

  predicate IsAccepted(task: Task) {
    task.pc.Done? && task.pc.decision.Accepted?
  }

  predicate AllWellFormed(tasks: seq<Task>) {
    forall t | t in tasks :: WellFormed(t.bet)
  }

  function Total(tasks: seq<Task>, account: bytes, w: Weight): nat
    requires AllWellFormed(tasks)
  {
    if tasks == [] then 0 else Share(tasks[0], account, w) + Total(tasks[1..], account, w)
  }

  lemma {:induction false} TotalOfUpdate(tasks: seq<Task>, t: nat, task: Task, account: bytes, w: Weight)
    requires t < |tasks| && AllWellFormed(tasks) && WellFormed(task.bet)
    ensures AllWellFormed(tasks[t := task])
    ensures Total(tasks[t := task], account, w) ==
            Total(tasks, account, w) - Share(tasks[t], account, w) + Share(task, account, w)
  {
    var tasks' := tasks[t := task];
    if t == 0 {
      assert tasks'[1..] == tasks[1..];
    } else {
      assert tasks'[1..] == tasks[1..][t - 1 := task];
      TotalOfUpdate(tasks[1..], t - 1, task, account, w);
    }
  }

  lemma {:induction false} TotalOfAppend(tasks: seq<Task>, task: Task, account: bytes, w: Weight)
    requires AllWellFormed(tasks) && WellFormed(task.bet)
    ensures AllWellFormed(tasks + [task])
    ensures Total(tasks + [task], account, w) == Total(tasks, account, w) + Share(task, account, w)
  {
    if tasks == [] {
      assert tasks + [task] == [task];
      assert [task][1..] == [];
    } else {
      assert (tasks + [task])[1..] == tasks[1..] + [task];
      TotalOfAppend(tasks[1..], task, account, w);
    }
  }

  lemma {:induction false} ShareWithinTotal(tasks: seq<Task>, t: nat, account: bytes, w: Weight)
    requires t < |tasks| && AllWellFormed(tasks)
    ensures Share(tasks[t], account, w) <= Total(tasks, account, w)
  {
    if t > 0 {
      ShareWithinTotal(tasks[1..], t - 1, account, w);
    }
  }

  // ---------------------------------------------------------------- invariant

  // Per account: balance + held + spent == seed, and exposure == reserved <= cap.
  ghost predicate Conserved(s: State, seeds: map<bytes, int>, a: bytes)
    requires AllWellFormed(s.tasks)
  {
    && (a in seeds ==>
          && a in s.books.balances
          && s.books.balances[a] + Total(s.tasks, a, Held) + Total(s.tasks, a, Spent) == seeds[a]
          && 0 <= s.books.balances[a])
    && s.books.Exposure(a) == Total(s.tasks, a, Reserved)
    && s.books.Exposure(a) <= s.books.cap
  }

  // What a task remembers from its earlier steps.
  ghost predicate TaskOk(task: Task, books: Books, seeds: map<bytes, int>) {
    var a, stake := task.bet.accountId, task.bet.stake as int;
    match task.pc
    case Start => true
    case Loaded(current) => a in seeds && stake <= current <= seeds[a]
    case Debited(remaining) => a in seeds && 0 <= remaining && remaining + stake <= seeds[a]
    case Refunding(remaining) =>
      && a in seeds && 0 <= remaining && remaining + stake <= seeds[a]
      && books.Exposure(a) + task.bet.payout as int > books.cap
    case Done(SaecExceeded(_)) => books.Exposure(a) + task.bet.payout as int > books.cap
    case Done(Accepted(exposure, remaining)) => a in seeds && task.bet.payout as int <= exposure <= books.cap && 0 <= remaining
    case Done(_) => true
  }

  ghost predicate Inv(s: State, seeds: map<bytes, int>) {
    && s.books.balances.Keys == seeds.Keys
    && AllWellFormed(s.tasks)
    && (forall a :: Conserved(s, seeds, a))
    && (forall t | 0 <= t < |s.tasks| :: TaskOk(s.tasks[t], s.books, seeds))
  }

  lemma InitialInv(cap: int, seeds: map<bytes, int>)
    requires GoodSeeds(cap, seeds)
    ensures Inv(Initial(cap, seeds), seeds)
  {
  }

  // Money moves only between the balance of the task's own account, what the task holds,
  // and what it has spent or reserved.
  lemma StepConserves(s: State, e: Event, seeds: map<bytes, int>, a: bytes)
    requires Inv(s, seeds) && Step(s, e).Some?
    ensures AllWellFormed(Step(s, e).value.tasks)
    ensures Conserved(Step(s, e).value, seeds, a)
  {
    var s' := Step(s, e).value;
    assert Conserved(s, seeds, a);
    if e.Submit? {
      var task := s'.tasks[|s.tasks|];
      TotalOfAppend(s.tasks, task, a, Held);
      TotalOfAppend(s.tasks, task, a, Spent);
      TotalOfAppend(s.tasks, task, a, Reserved);
    } else {
      var t := e.task;
      assert s.tasks[t] in s.tasks;
      assert TaskOk(s.tasks[t], s.books, seeds);
      TotalOfUpdate(s.tasks, t, s'.tasks[t], a, Held);
      TotalOfUpdate(s.tasks, t, s'.tasks[t], a, Spent);
      TotalOfUpdate(s.tasks, t, s'.tasks[t], a, Reserved);
      assert s'.tasks == s.tasks[t := s'.tasks[t]];
      ConservedAfter(s, e, seeds, a);
    }
  }

  ghost predicate Moved(s: State, s': State, t: nat, a: bytes, w: Weight)
    requires t < |s.tasks| == |s'.tasks| && AllWellFormed(s.tasks) && AllWellFormed(s'.tasks)
  {
    assert s.tasks[t] in s.tasks && s'.tasks[t] in s'.tasks;
    Total(s'.tasks, a, w) == Total(s.tasks, a, w) - Share(s.tasks[t], a, w) + Share(s'.tasks[t], a, w)
  }

  lemma ConservedAfter(s: State, e: Event, seeds: map<bytes, int>, a: bytes)
    requires Inv(s, seeds) && !e.Submit? && Step(s, e).Some? && e.task < |s.tasks|
    requires var s' := Step(s, e).value;
      && AllWellFormed(s'.tasks)
      && Moved(s, s', e.task, a, Held) && Moved(s, s', e.task, a, Spent) && Moved(s, s', e.task, a, Reserved)
    ensures Conserved(Step(s, e).value, seeds, a)
  {
    hide Total;
    assert Conserved(s, seeds, a);
    assert TaskOk(s.tasks[e.task], s.books, seeds);
    assert WellFormed(s.tasks[e.task].bet) by { assert s.tasks[e.task] in s.tasks; }
    var s' := Step(s, e).value;
    assert Total(s'.tasks, a, Held) >= 0;
  }

  lemma StepKeepsTasks(s: State, e: Event, seeds: map<bytes, int>)
    requires Inv(s, seeds) && Step(s, e).Some?
    ensures Grows(s, Step(s, e).value)
    ensures var s' := Step(s, e).value; forall t | 0 <= t < |s'.tasks| :: TaskOk(s'.tasks[t], s'.books, seeds)
  {
    var s' := Step(s, e).value;
    StepGrows(s, e);
    if !e.Submit? {
      ActingTaskOk(s, e, seeds);
    }
    forall t | 0 <= t < |s'.tasks|
      ensures TaskOk(s'.tasks[t], s'.books, seeds)
    {
      if t < |s.tasks| && (e.Submit? || t != e.task) {
        assert s'.tasks[t] == s.tasks[t];
        TaskStaysOk(s.tasks[t], s.books, s'.books, seeds);
      }
    }
  }

  lemma StepGrows(s: State, e: Event)
    requires AllWellFormed(s.tasks) && Step(s, e).Some?
    ensures Grows(s, Step(s, e).value)
    ensures !e.Submit? ==> e.task < |s.tasks| && Step(s, e).value.tasks == s.tasks[e.task := Step(s, e).value.tasks[e.task]]
  {
    if !e.Submit? {
      assert s.tasks[e.task] in s.tasks;
    }
  }

  lemma TaskStaysOk(task: Task, books: Books, books': Books, seeds: map<bytes, int>)
    requires TaskOk(task, books, seeds)
    requires books'.cap == books.cap && forall a :: books.Exposure(a) <= books'.Exposure(a)
    ensures TaskOk(task, books', seeds)
  {
    var a := task.bet.accountId;
    assert books.Exposure(a) <= books'.Exposure(a);
  }

  lemma ActingTaskOk(s: State, e: Event, seeds: map<bytes, int>)
    requires Inv(s, seeds) && !e.Submit? && Step(s, e).Some?
    ensures var s' := Step(s, e).value; TaskOk(s'.tasks[e.task], s'.books, seeds)
  {
    var task := s.tasks[e.task];
    assert task in s.tasks;
    assert Conserved(s, seeds, task.bet.accountId);
    assert TaskOk(task, s.books, seeds);
    ShareWithinTotal(s.tasks, e.task, task.bet.accountId, Held);
    hide Total;
  }

  // Exposure is only ever added to, and the accounts stay the same.
  ghost predicate Grows(s: State, s': State) {
    && s'.books.cap == s.books.cap
    && s'.books.balances.Keys == s.books.balances.Keys
    && forall a :: s.books.Exposure(a) <= s'.books.Exposure(a)
  }

  lemma StepInv(s: State, e: Event, seeds: map<bytes, int>)
    requires Inv(s, seeds) && Step(s, e).Some?
    ensures Inv(Step(s, e).value, seeds) && Grows(s, Step(s, e).value)
  {
    var s' := Step(s, e).value;
    forall a
      ensures AllWellFormed(s'.tasks) && Conserved(s', seeds, a)
    {
      StepConserves(s, e, seeds, a);
    }
    StepKeepsTasks(s, e, seeds);
  }

  // Conservation and bounds in every state of every run: for each seeded account the
  // balance is never negative and, with what undecided bets hold and accepted bets
  // spent, always adds up to the seed; exposure is exactly the sum of the accepted
  // payouts and never above the cap.
  lemma {:induction false} RunInv(cap: int, seeds: map<bytes, int>, events: seq<Event>)
    requires GoodSeeds(cap, seeds) && Run(Initial(cap, seeds), events).Some?
    ensures var s := Run(Initial(cap, seeds), events).value;
      Inv(s, seeds) && s.books.cap == cap
  {
    if events == [] {
      InitialInv(cap, seeds);
    } else {
      var front := events[..|events| - 1];
      RunInv(cap, seeds, front);
      StepInv(Run(Initial(cap, seeds), front).value, events[|events| - 1], seeds);
    }
  }

  // ----------------------------------------------------------------- overflow

  // The results of the int64 operations that a step performs.
  function Operations(s: State, e: Event): seq<int> {
    if Step(s, e).None? then []
    else match e
      case Submit(bet, now) => [now - bet.timestamp as int]
      case Load(_) => []
      case Exchange(t, _) => [s.tasks[t].pc.current - s.tasks[t].bet.stake as int]
      case Reserve(t) =>
        var bet := s.tasks[t].bet;
        var current, payout := s.books.Exposure(bet.accountId), bet.payout as int;
        [s.books.cap - payout] + if current > s.books.cap - payout then [] else [current + payout]
      case Credit(t) =>
        var bet := s.tasks[t].bet;
        [s.books.balances[bet.accountId] + bet.stake as int, s.tasks[t].pc.remaining + bet.stake as int]
  }

  // No operation on the path of evaluate_json leaves the range of int64, in any state of
  // any run, as long as the clock is not before the epoch.
  lemma NoOverflow(cap: int, seeds: map<bytes, int>, events: seq<Event>, e: Event)
    requires GoodSeeds(cap, seeds) && Run(Initial(cap, seeds), events).Some?
    requires e.Submit? ==> 0 <= e.now && FitsInt64(e.now)
    ensures var s := Run(Initial(cap, seeds), events).value;
      forall n | n in Operations(s, e) :: FitsInt64(n)
  {
    RunInv(cap, seeds, events);
    var s := Run(Initial(cap, seeds), events).value;
    if Step(s, e).Some? && !e.Submit? {
      assert s.tasks[e.task] in s.tasks;
      var a := s.tasks[e.task].bet.accountId;
      assert TaskOk(s.tasks[e.task], s.books, seeds);
      assert Conserved(s, seeds, a);
      ShareWithinTotal(s.tasks, e.task, a, Held);
      hide Total, Run;
    }
  }

  // ------------------------------------------------------- rejections for the cap

  lemma {:induction false} RunSplit(s: State, events: seq<Event>, more: seq<Event>)
    ensures Run(s, events + more) == if Run(s, events).None? then None else Run(Run(s, events).value, more)
  {
    if more == [] {
      assert events + more == events;
    } else {
      var front := more[..|more| - 1];
      RunSplit(s, events, front);
      assert (events + more)[..|events + more| - 1] == events + front;
    }
  }

  lemma {:induction false} DecisionsAreFinal(s: State, events: seq<Event>, t: nat)
    requires t < |s.tasks| && s.tasks[t].pc.Done? && Run(s, events).Some?
    ensures t < |Run(s, events).value.tasks| && Run(s, events).value.tasks[t] == s.tasks[t]
  {
    if events != [] {
      DecisionsAreFinal(s, events[..|events| - 1], t);
    }
  }

  // A bet refused for the cap would be refused for it again at any later time.
  lemma CapRejectionIsFinal(cap: int, seeds: map<bytes, int>, events: seq<Event>, more: seq<Event>, t: nat)
    requires GoodSeeds(cap, seeds) && Run(Initial(cap, seeds), events + more).Some?
    requires Run(Initial(cap, seeds), events).Some?
    requires var s := Run(Initial(cap, seeds), events).value;
      t < |s.tasks| && s.tasks[t].pc.Done? && s.tasks[t].pc.decision.SaecExceeded?
    ensures var s := Run(Initial(cap, seeds), events + more).value;
      && t < |s.tasks|
      && s.books.Exposure(s.tasks[t].bet.accountId) + s.tasks[t].bet.payout as int > s.books.cap
      && !Place(s.books, s.tasks[t].bet).1.Accepted?
  {
    RunSplit(Initial(cap, seeds), events, more);
    DecisionsAreFinal(Run(Initial(cap, seeds), events).value, more, t);
    RunInv(cap, seeds, events + more);
    var s := Run(Initial(cap, seeds), events + more).value;
    assert TaskOk(s.tasks[t], s.books, seeds);
  }

  // ---------------------------------------------------- quiescent equivalence

  datatype Side = Stake | Payout

  function Amount(bet: BetSubmitted, account: bytes, side: Side): int {
    if bet.accountId != account then 0 else if side.Stake? then bet.stake as int else bet.payout as int
  }

  function Sum(bets: seq<BetSubmitted>, account: bytes, side: Side): int {
    if bets == [] then 0 else Amount(bets[0], account, side) + Sum(bets[1..], account, side)
  }

  function AcceptedBets(tasks: seq<Task>): seq<BetSubmitted> {
    if tasks == [] then []
    else (if IsAccepted(tasks[0]) then [tasks[0].bet] else []) + AcceptedBets(tasks[1..])
  }

  lemma {:induction false} SumOfAccepted(tasks: seq<Task>, a: bytes)
    requires AllWellFormed(tasks)
    ensures Sum(AcceptedBets(tasks), a, Stake) == Total(tasks, a, Spent)
    ensures Sum(AcceptedBets(tasks), a, Payout) == Total(tasks, a, Reserved)
    ensures forall b | b in AcceptedBets(tasks) :: WellFormed(b)
  {
    if tasks != [] {
      SumOfAccepted(tasks[1..], a);
      assert tasks[0] in tasks;
      var rest := AcceptedBets(tasks[1..]);
      if IsAccepted(tasks[0]) {
        assert ([tasks[0].bet] + rest)[1..] == rest;
      } else {
        assert AcceptedBets(tasks) == rest;
      }
    }
  }

  lemma {:induction false} SumOfConcat(xs: seq<BetSubmitted>, ys: seq<BetSubmitted>, a: bytes, side: Side)
    ensures Sum(xs + ys, a, side) == Sum(xs, a, side) + Sum(ys, a, side)
  {
    if xs == [] {
      assert xs + ys == ys;
    } else {
      assert (xs + ys)[1..] == xs[1..] + ys;
      SumOfConcat(xs[1..], ys, a, side);
    }
  }

  lemma {:induction false} SumOfPermutation(xs: seq<BetSubmitted>, ys: seq<BetSubmitted>, a: bytes, side: Side)
    requires multiset(xs) == multiset(ys)
    ensures Sum(xs, a, side) == Sum(ys, a, side)
    decreases |xs|
  {
    if xs == [] {
      EmptyPermutation(xs, ys);
    } else {
      var k := TakeFirst(xs, ys);
      var front, back := ys[..k], ys[k + 1..];
      SumOfPermutation(xs[1..], front + back, a, side);
      SumSplit(ys, k, a, side);
    }
  }

  lemma SumSplit(ys: seq<BetSubmitted>, k: nat, a: bytes, side: Side)
    requires k < |ys|
    ensures Sum(ys, a, side) == Amount(ys[k], a, side) + Sum(ys[..k] + ys[k + 1..], a, side)
  {
    SumOfConcat(ys[..k], ys[k + 1..], a, side);
    SumOfConcat(ys[..k], ys[k..], a, side);
    assert ys == ys[..k] + ys[k..];
    assert ys[k..][1..] == ys[k + 1..];
  }

  lemma {:induction false} SumNonNegative(bets: seq<BetSubmitted>, a: bytes, side: Side)
    requires forall b | b in bets :: WellFormed(b)
    ensures Sum(bets, a, side) >= 0
  {
    if bets != [] {
      assert WellFormed(bets[0]);
      SumNonNegative(bets[1..], a, side);
    }
  }

  function PlaceAll(books: Books, bets: seq<BetSubmitted>): Books
    decreases |bets|
  {
    if bets == [] then books else PlaceAll(Place(books, bets[0]).0, bets[1..])
  }

  predicate AllAccepted(books: Books, bets: seq<BetSubmitted>)
    decreases |bets|
  {
    bets == [] || (Place(books, bets[0]).1.Accepted? && AllAccepted(Place(books, bets[0]).0, bets[1..]))
  }

  // Bets whose sums fit are all accepted one after another, and only their sums show.
  lemma {:induction false} PlaceFitting(books: Books, bets: seq<BetSubmitted>)
    requires forall b | b in bets :: WellFormed(b) && b.accountId in books.balances
    requires forall a | a in books.balances :: Sum(bets, a, Stake) <= books.balances[a]
    requires forall a :: books.Exposure(a) + Sum(bets, a, Payout) <= books.cap
    ensures AllAccepted(books, bets)
    ensures var after := PlaceAll(books, bets);
      && after.balances.Keys == books.balances.Keys
      && (forall a | a in books.balances :: after.balances[a] == books.balances[a] - Sum(bets, a, Stake))
      && (forall a :: after.Exposure(a) == books.Exposure(a) + Sum(bets, a, Payout))
    decreases |bets|
  {
    if bets != [] {
      var b, rest := bets[0], bets[1..];
      assert b in bets && WellFormed(b);
      assert forall x | x in rest :: x in bets;
      SumNonNegative(rest, b.accountId, Stake);
      SumNonNegative(rest, b.accountId, Payout);
      assert books.Exposure(b.accountId) + Sum(bets, b.accountId, Payout) <= books.cap;
      var next := Place(books, b).0;
      assert Place(books, b).1.Accepted?;
      forall a
        ensures next.Exposure(a) + Sum(rest, a, Payout) == books.Exposure(a) + Sum(bets, a, Payout)
      {
      }
      PlaceFitting(next, rest);
    }
  }

  ghost predicate Quiescent(s: State) {
    forall t | 0 <= t < |s.tasks| :: s.tasks[t].pc.Done?
  }

  lemma {:induction false} QuiescentHoldsNothing(tasks: seq<Task>, a: bytes)
    requires AllWellFormed(tasks) && forall t | 0 <= t < |tasks| :: tasks[t].pc.Done?
    ensures Total(tasks, a, Held) == 0
  {
    if tasks != [] {
      assert tasks[0].pc.Done?;
      QuiescentHoldsNothing(tasks[1..], a);
    }
  }

  lemma {:induction false} AcceptedAccountsSeeded(tasks: seq<Task>, seeds: map<bytes, int>)
    requires forall t | 0 <= t < |tasks| && IsAccepted(tasks[t]) :: tasks[t].bet.accountId in seeds
    ensures forall b | b in AcceptedBets(tasks) :: b.accountId in seeds
  {
    if tasks != [] {
      AcceptedAccountsSeeded(tasks[1..], seeds);
    }
  }

  // When all tasks are decided, the books are those of placing just the accepted bets
  // one after another, in any order, and in that order each of them is accepted too.
  lemma QuiescentEquivalence(cap: int, seeds: map<bytes, int>, events: seq<Event>, order: seq<BetSubmitted>)
    requires GoodSeeds(cap, seeds) && Run(Initial(cap, seeds), events).Some?
    requires var s := Run(Initial(cap, seeds), events).value;
      Quiescent(s) && multiset(order) == multiset(AcceptedBets(s.tasks))
    ensures AllAccepted(Initial(cap, seeds).books, order)
    ensures PlaceAll(Initial(cap, seeds).books, order).SameMoney(Run(Initial(cap, seeds), events).value.books)
  {
    RunInv(cap, seeds, events);
    var s := Run(Initial(cap, seeds), events).value;
    hide Run;
    SerialOrder(s, cap, seeds, order);
  }

  lemma SerialOrder(s: State, cap: int, seeds: map<bytes, int>, order: seq<BetSubmitted>)
    requires Inv(s, seeds) && s.books.cap == cap && Quiescent(s)
    requires multiset(order) == multiset(AcceptedBets(s.tasks))
    ensures AllAccepted(Initial(cap, seeds).books, order)
    ensures PlaceAll(Initial(cap, seeds).books, order).SameMoney(s.books)
  {
    var start := Initial(cap, seeds).books;
    SameElements(order, AcceptedBets(s.tasks));
    AcceptedAreSeeded(s, seeds);
    AcceptedAccountsSeeded(s.tasks, seeds);
    SumOfAccepted(s.tasks, []);
    forall a
      ensures Balanced(s, seeds, order, a)
    {
      SerialSums(s, seeds, order, a);
    }
    PlaceBalanced(s, cap, seeds, order);
  }

  lemma PlaceBalanced(s: State, cap: int, seeds: map<bytes, int>, order: seq<BetSubmitted>)
    requires s.books.cap == cap && s.books.balances.Keys == seeds.Keys
    requires forall b | b in order :: WellFormed(b) && b.accountId in seeds
    requires forall a :: Balanced(s, seeds, order, a)
    ensures AllAccepted(Initial(cap, seeds).books, order)
    ensures PlaceAll(Initial(cap, seeds).books, order).SameMoney(s.books)
  {
    hide Sum;
    var start := Initial(cap, seeds).books;
    forall a
      ensures start.Exposure(a) + Sum(order, a, Payout) <= start.cap
      ensures a in seeds ==> Sum(order, a, Stake) <= seeds[a]
    {
      assert Balanced(s, seeds, order, a);
    }
    PlaceFitting(start, order);
    PlaceAllKeepsCap(start, order);
    hide PlaceAll, AllAccepted;
    forall a
      ensures PlaceAll(start, order).Exposure(a) == s.books.Exposure(a)
      ensures a in seeds ==> PlaceAll(start, order).balances[a] == s.books.balances[a]
    {
      assert Balanced(s, seeds, order, a);
    }
  }

  // For one account, what the order adds up to is what the books show.
  ghost predicate Balanced(s: State, seeds: map<bytes, int>, order: seq<BetSubmitted>, a: bytes) {
    && (a in seeds ==> a in s.books.balances && s.books.balances[a] == seeds[a] - Sum(order, a, Stake) >= 0)
    && s.books.Exposure(a) == Sum(order, a, Payout) <= s.books.cap
  }

  lemma SerialSums(s: State, seeds: map<bytes, int>, order: seq<BetSubmitted>, a: bytes)
    requires Inv(s, seeds) && Quiescent(s)
    requires multiset(order) == multiset(AcceptedBets(s.tasks))
    ensures Balanced(s, seeds, order, a)
  {
    assert Conserved(s, seeds, a);
    SumOfAccepted(s.tasks, a);
    SumOfPermutation(order, AcceptedBets(s.tasks), a, Stake);
    SumOfPermutation(order, AcceptedBets(s.tasks), a, Payout);
    QuiescentHoldsNothing(s.tasks, a);
  }

  lemma {:induction false} PlaceAllKeepsCap(books: Books, bets: seq<BetSubmitted>)
    ensures PlaceAll(books, bets).cap == books.cap
    decreases |bets|
  {
    if bets != [] {
      PlaceAllKeepsCap(Place(books, bets[0]).0, bets[1..]);
    }
  }

  lemma AcceptedAreSeeded(s: State, seeds: map<bytes, int>)
    requires Inv(s, seeds)
    ensures forall t | 0 <= t < |s.tasks| && IsAccepted(s.tasks[t]) :: s.tasks[t].bet.accountId in seeds
  {
    forall t | 0 <= t < |s.tasks| && IsAccepted(s.tasks[t])
      ensures s.tasks[t].bet.accountId in seeds
    {
      assert TaskOk(s.tasks[t], s.books, seeds);
    }
  }

  // ---------------------------------------------------------- one task by itself

  lemma OneMore(s: State, events: seq<Event>, e: Event) returns (more: seq<Event>)
    requires Run(s, events).Some?
    ensures Run(s, more) == Step(Run(s, events).value, e)
  {
    hide Step;
    more := events + [e];
    assert more[..|events|] == events;
  }

  function SoloOutcome(books: Books, bet: BetSubmitted, now: int): (Books, Decision) {
    if IsStale(bet, now) then (books, StaleQuote) else Place(books, bet)
  }

  // A task whose steps nothing comes between does to the books what the sequential engine
  // does, and comes to the same decision.
  lemma SoloIsSequential(s: State, bet: BetSubmitted, now: int) returns (events: seq<Event>)
    requires WellFormed(bet)
    ensures var (books, decision) := SoloOutcome(s.books, bet, now);
      Run(s, events) == Some(State(books, s.tasks + [Task(bet, Done(decision))]))
  {
    var t, a := |s.tasks|, bet.accountId;
    assert Run(s, []) == Some(s);
    SoloStart(s, bet, now);
    var funded := !IsStale(bet, now) && a in s.books.balances && bet.stake as int <= s.books.balances[a];
    if funded {
      SoloFunded(s, bet);
    }
    hide Run, Step, Place, IsStale;
    events := OneMore(s, [], Submit(bet, now));
    if !IsStale(bet, now) {
      events := OneMore(s, events, Load(t));
      if funded {
        events := OneMore(s, events, Exchange(t, false));
        events := OneMore(s, events, Reserve(t));
        if s.books.Exposure(a) > s.books.cap - bet.payout as int {
          events := OneMore(s, events, Credit(t));
        }
      }
    }
  }

  lemma SoloStart(s: State, bet: BetSubmitted, now: int)
    requires WellFormed(bet)
    ensures var t, a, balances := |s.tasks|, bet.accountId, s.books.balances;
      if IsStale(bet, now) then
        Step(s, Submit(bet, now)) == Some(s.(tasks := s.tasks + [Task(bet, Done(StaleQuote))]))
      else
        && Step(s, Submit(bet, now)).Some?
        && Step(Step(s, Submit(bet, now)).value, Load(t)) ==
           (if a in balances && bet.stake as int <= balances[a]
            then Some(s.(tasks := s.tasks + [Task(bet, Loaded(balances[a]))]))
            else Some(State(Place(s.books, bet).0, s.tasks + [Task(bet, Done(Place(s.books, bet).1))])))
  {
    var t := |s.tasks|;
    if !IsStale(bet, now) {
      var submitted := Step(s, Submit(bet, now)).value;
      var pc := AfterLoad(s.books, bet);
      assert submitted.tasks[t := Task(bet, pc)] == s.tasks + [Task(bet, pc)];
    }
  }

  lemma SoloFunded(s: State, bet: BetSubmitted)
    requires WellFormed(bet) && bet.accountId in s.books.balances
    requires bet.stake as int <= s.books.balances[bet.accountId]
    ensures var t, balance := |s.tasks|, s.books.balances[bet.accountId];
      var (books, decision) := Place(s.books, bet);
      var loaded := s.(tasks := s.tasks + [Task(bet, Loaded(balance))]);
      && Step(loaded, Exchange(t, false)).Some?
      && var debited := Step(loaded, Exchange(t, false)).value;
        && Step(debited, Reserve(t)).Some?
        && var reserved := Step(debited, Reserve(t)).value;
          var done := State(books, s.tasks + [Task(bet, Done(decision))]);
          if s.books.Exposure(bet.accountId) > s.books.cap - bet.payout as int
          then Step(reserved, Credit(t)) == Some(done)
          else reserved == done
  {
    var t, balance := |s.tasks|, s.books.balances[bet.accountId];
    var loaded := s.(tasks := s.tasks + [Task(bet, Loaded(balance))]);
    var debited := AfterExchange(loaded, t, false);
    assert debited.tasks == s.tasks + [Task(bet, Debited(balance - bet.stake as int))];
    var reserved := AfterReserve(debited, t);
    if s.books.Exposure(bet.accountId) > s.books.cap - bet.payout as int {
      assert reserved.tasks == s.tasks + [Task(bet, Refunding(balance - bet.stake as int))];
      var done := AfterCredit(reserved, t);
      assert done.tasks == s.tasks + [Task(bet, Done(SaecExceeded(balance)))];
      assert done.books.balances == s.books.balances;
    } else {
      assert reserved.tasks == s.tasks + [Task(bet, Done(Place(s.books, bet).1))];
    }
  }
}

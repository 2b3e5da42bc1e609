/** The risk engine as an object: atomic balance cells, an exposure table, and the
    operations that update them step by step.
  */
module RiskEngine {
  import opened Wrappers
  import opened JsonStrings
  import opened BetSchema
  import opened RiskBooks

  datatype DebitResult = Debited | TooLittle | NoAccount

  class Engine {
    const cap: int
    var balances: map<bytes, int>
    var openExposure: map<bytes, int>

    // The source throws unless the cap is positive; see `NewEngine`.
    constructor (cap: int)
      requires 0 < cap && FitsInt64(cap)
      ensures this.cap == cap
      ensures Contents() == Books(cap, map[], map[]) && Contents().Valid()
    {
      this.cap := cap;
      balances, openExposure := map[], map[];
    }

    function Contents(): Books
      reads this
    {
      Books(cap, balances, openExposure)
    }

    method SetBalance(account: bytes, balance: int)
      requires Contents().Valid() && FitsInt64(balance)
      modifies this
      ensures Contents().Valid()
      ensures Contents() == old(Contents()).(balances := old(balances)[account := balance])
    {
      balances := balances[account := balance];
    }

    // The compare/exchange loop.  Without other threads the exchange fails only
    // spuriously, here a given number of times.
    method TryDebitBalance(account: bytes, stake: int, spuriousFailures: nat)
      returns (r: DebitResult, remaining: int)
      requires Contents().Valid() && 0 < stake && FitsInt64(stake)
      modifies this`balances
      ensures Contents().Valid()
      ensures r.NoAccount? <==> account !in old(balances)
      ensures r.Debited? <==> account in old(balances) && stake <= old(balances)[account]
      ensures r.Debited? ==> remaining == old(balances)[account] - stake && balances == old(balances)[account := remaining]
      ensures !r.Debited? ==> balances == old(balances)
      ensures r.TooLittle? ==> remaining == old(balances)[account]
    {
      remaining := 0;
      if account !in balances {
        return NoAccount, remaining;
      }
      var current := balances[account];
      var failures := spuriousFailures;
      while true
        invariant balances == old(balances) && current == balances[account]
        decreases failures
      {
        if current < stake {
          return TooLittle, current;
        }
        var desired := current - stake;
        assert FitsInt64(desired);
        if failures == 0 {
          balances := balances[account := desired];
          return Debited, desired;
        }
        failures := failures - 1;
        current := balances[account];
      }
    }

    method CreditBalance(account: bytes, stake: int)
      requires Contents().Valid()
      requires account in balances ==> FitsInt64(balances[account] + stake)
      modifies this`balances
      ensures Contents().Valid()
      ensures balances == if account in old(balances) then old(balances)[account := old(balances)[account] + stake] else old(balances)
    {
      if account in balances {
        balances := balances[account := balances[account] + stake];
      }
    }

    method TryReserveExposure(account: bytes, amount: int) returns (ok: bool, total: int)
      requires Contents().Valid() && 0 < amount && FitsInt64(amount)
      modifies this`openExposure
      ensures Contents().Valid()
      ensures ok <==> Lookup(old(openExposure), account) + amount <= cap
      ensures total == Lookup(old(openExposure), account) + if ok then amount else 0
      ensures openExposure == old(openExposure)[account := total]
    {
      if account !in openExposure {
        openExposure := openExposure[account := 0];
      }
      var current := openExposure[account];
      assert FitsInt64(cap - amount);
      if current > cap - amount {
        return false, current;
      }
      assert FitsInt64(current + amount);
      openExposure := openExposure[account := current + amount];
      return true, current + amount;
    }

    // The clock is a parameter; it never shows a time before the epoch.
    method EvaluateJson(payload: bytes, now: int, spuriousFailures: nat) returns (decision: Decision)
      requires Contents().Valid() && 0 <= now && FitsInt64(now)
      modifies this
      ensures Contents().Valid()
      ensures (Contents(), decision) == Evaluate(old(Contents()), payload, now)
      ensures DecidedAs(old(Contents()), payload, now, decision)
    {
      DecisionTable(Contents(), payload, now);
      hide BetOf, DecidedAs;
      ParsedBetsAreWellFormed(payload);
      var parsed := ParseBetJson(payload);
      if parsed.Err? {
        return SchemaInvalid(parsed.error);
      }
      var bet := parsed.value;
      var quoteAge := now - bet.timestamp as int;
      assert FitsInt64(quoteAge);
      if quoteAge > STALE_QUOTE_PROTECTION_MS {
        return StaleQuote;
      }
      var debit, remaining := TryDebitBalance(bet.accountId, bet.stake as int, spuriousFailures);
      if debit.NoAccount? {
        return AccountNotFound;
      }
      if debit.TooLittle? {
        return InsufficientFunds(remaining);
      }
      var reserved, total := TryReserveExposure(bet.accountId, bet.payout as int);
      if !reserved {
        CreditBalance(bet.accountId, bet.stake as int);
        assert balances == old(balances);
        assert FitsInt64(remaining + bet.stake as int);
        return SaecExceeded(remaining + bet.stake as int);
      }
      return Accepted(total, remaining);
    }
  }

  method NewEngine(cap: int) returns (engine: Option<Engine>)
    requires FitsInt64(cap)
    ensures engine.Some? <==> 0 < cap
    ensures engine.Some? ==> fresh(engine.value) && engine.value.Contents() == Books(cap, map[], map[])
  {
    if cap <= 0 {
      return None;
    }
    var e := new Engine(cap);
    return Some(e);
  }

  // -------------------------------------------------------------- consume loop

  // What one call of consume() brings, and whether publishing the result, flushing the
  // producer and committing the offset succeed.
  datatype Poll =
    | Idle
    | Message(offset: nat, payload: bytes, now: int, produced: bool, flushed: bool, committed: bool)

  datatype Published = Published(offset: nat, decision: Decision)

  // The books, the published results and the last committed offset.
  datatype LoopState = LoopState(books: Books, log: seq<Published>, committed: Option<nat>, accepted: nat, rejected: nat)

  function AfterPoll(s: LoopState, poll: Poll): LoopState {
    match poll
    case Idle => s
    case Message(offset, payload, now, produced, flushed, committed) =>
      var (books, decision) := Evaluate(s.books, payload, now);
      var s1 := s.(books := books,
                   accepted := s.accepted + if decision.Accepted? then 1 else 0,
                   rejected := s.rejected + if decision.Accepted? then 0 else 1);
      if !produced then
        s1
      else
        var s2 := s1.(log := s1.log + [Published(offset, decision)]);
        if flushed && committed then s2.(committed := Some(offset + 1)) else s2
  }

  function AfterPolls(s: LoopState, polls: seq<Poll>): LoopState {
    if polls == [] then s else AfterPoll(AfterPolls(s, polls[..|polls| - 1]), polls[|polls| - 1])
  }

  predicate GoodClock(poll: Poll) {
    poll.Message? ==> 0 <= poll.now && FitsInt64(poll.now)
  }

  lemma OnePollMore(s: LoopState, polls: seq<Poll>, k: nat)
    requires k < |polls|
    ensures AfterPolls(s, polls[..k + 1]) == AfterPoll(AfterPolls(s, polls[..k]), polls[k])
  {
    assert polls[..k + 1][..k] == polls[..k];
  }

  method ConsumeLoop(engine: Engine, polls: seq<Poll>)
    returns (log: seq<Published>, committed: Option<nat>, accepted: nat, rejected: nat)
    requires engine.Contents().Valid()
    requires forall p | p in polls :: GoodClock(p)
    modifies engine
    ensures engine.Contents().Valid()
    ensures LoopState(engine.Contents(), log, committed, accepted, rejected) ==
            AfterPolls(LoopState(old(engine.Contents()), [], None, 0, 0), polls)
    ensures engine.Contents() == Evaluated(old(engine.Contents()), polls)
    ensures LogIs(old(engine.Contents()), polls, log)
    ensures forall n: nat :: committed == Some(n) <==> exists k :: LastCompleted(polls, k) && polls[k].offset + 1 == n
    ensures accepted == |Acceptances(old(engine.Contents()), polls)| && rejected == |Refusals(old(engine.Contents()), polls)|
  {
    LoopMeaning(engine.Contents(), polls);
    LogIsProduced(engine.Contents(), polls);
    hide Evaluated, LogIs, LastCompleted, Acceptances, Refusals;
    log, committed, accepted, rejected := [], None, 0, 0;
    ghost var start := LoopState(engine.Contents(), [], None, 0, 0);
    for k := 0 to |polls|
      invariant engine.Contents().Valid()
      invariant LoopState(engine.Contents(), log, committed, accepted, rejected) == AfterPolls(start, polls[..k])
    {
      hide Evaluate, AfterPolls;
      OnePollMore(start, polls, k);
      var poll := polls[k];
      assert poll in polls;
      if poll.Idle? {
        continue;
      }
      var decision := engine.EvaluateJson(poll.payload, poll.now, 0);
      if decision.Accepted? {
        accepted := accepted + 1;
      } else {
        rejected := rejected + 1;
      }
      if !poll.produced {
        continue;
      }
      log := log + [Published(poll.offset, decision)];
      if !poll.flushed {
        continue;
      }
      if poll.committed {
        committed := Some(poll.offset + 1);
      }
    }
    assert polls[..|polls|] == polls;
  }

  // ------------------------------------------------------ what the loop adds up to

  predicate IsMessage(polls: seq<Poll>, k: int) {
    0 <= k < |polls| && polls[k].Message?
  }

  // Every message is evaluated, whatever becomes of its result.
  function Evaluated(books: Books, polls: seq<Poll>): Books {
    if polls == [] then books
    else
      var before, last := Evaluated(books, polls[..|polls| - 1]), polls[|polls| - 1];
      if last.Message? then Evaluate(before, last.payload, last.now).0 else before
  }

  // The decision about a message, on the books that the messages in front of it left.
  function DecisionAt(books: Books, polls: seq<Poll>, k: nat): Decision
    requires IsMessage(polls, k)
  {
    Evaluate(Evaluated(books, polls[..k]), polls[k].payload, polls[k].now).1
  }

  // The result was produced, the producer flushed, and the offset committed.
  predicate Completed(polls: seq<Poll>, k: int) {
    IsMessage(polls, k) && polls[k].produced && polls[k].flushed && polls[k].committed
  }

  ghost predicate LastCompleted(polls: seq<Poll>, k: int) {
    Completed(polls, k) && forall j | k < j < |polls| :: !Completed(polls, j)
  }

  ghost function Acceptances(books: Books, polls: seq<Poll>): set<nat> {
    set k: nat | k < |polls| && IsMessage(polls, k) && DecisionAt(books, polls, k).Accepted?
  }

  ghost function Refusals(books: Books, polls: seq<Poll>): set<nat> {
    set k: nat | k < |polls| && IsMessage(polls, k) && !DecisionAt(books, polls, k).Accepted?
  }

  // After any polls: the books are those of evaluating every message in turn; the counters
  // are the numbers of acceptances and of other decisions; and the committed offset is the
  // one behind the last message whose result was produced, flushed and committed, if any.
  lemma {:induction false} LoopMeaning(books: Books, polls: seq<Poll>)
    ensures var s := AfterPolls(LoopState(books, [], None, 0, 0), polls);
      && s.books == Evaluated(books, polls)
      && s.accepted == |Acceptances(books, polls)| && s.rejected == |Refusals(books, polls)|
      && (s.committed.None? <==> forall k :: !Completed(polls, k))
      && (forall n: nat :: s.committed == Some(n) <==> exists k :: LastCompleted(polls, k) && polls[k].offset + 1 == n)
  {
    hide Evaluate;
    if polls != [] {
      var n := |polls| - 1;
      var front := polls[..n];
      LoopMeaning(books, front);
      CountOneMore(books, polls);
      CompletedOneMore(polls);
      hide AfterPolls, Acceptances, Refusals, Completed, LastCompleted;
      var s, s' := AfterPolls(LoopState(books, [], None, 0, 0), front), AfterPolls(LoopState(books, [], None, 0, 0), polls);
      assert s' == AfterPoll(s, polls[n]) by { LastPoll(LoopState(books, [], None, 0, 0), polls); }
      assert s'.committed == if Completed(polls, n) then Some(polls[n].offset + 1) else s.committed by { CompletedIs(polls, n); }
      CommittedOneMore(polls, s.committed, s'.committed);
    } else {
      assert Acceptances(books, polls) == {} && Refusals(books, polls) == {};
    }
  }

  lemma LastPoll(s: LoopState, polls: seq<Poll>)
    requires polls != []
    ensures AfterPolls(s, polls) == AfterPoll(AfterPolls(s, polls[..|polls| - 1]), polls[|polls| - 1])
  {
  }

  lemma CompletedIs(polls: seq<Poll>, k: nat)
    requires k < |polls|
    ensures Completed(polls, k) <==> polls[k].Message? && polls[k].produced && polls[k].flushed && polls[k].committed
  {
  }

  lemma CompletedOneMore(polls: seq<Poll>)
    requires polls != []
    ensures forall k :: Completed(polls, k) <==> Completed(polls[..|polls| - 1], k) || (k == |polls| - 1 && Completed(polls, k))
    ensures forall k :: Completed(polls, k) ==> 0 <= k < |polls|
    ensures forall k :: LastCompleted(polls, k) <==>
              if Completed(polls, |polls| - 1) then k == |polls| - 1 else LastCompleted(polls[..|polls| - 1], k)
  {
    var n := |polls| - 1;
    var front := polls[..n];
    forall k
      ensures Completed(polls, k) <==> Completed(front, k) || (k == n && Completed(polls, k))
    {
    }
    forall k
      ensures LastCompleted(polls, k) <==> if Completed(polls, n) then k == n else LastCompleted(front, k)
    {
      assert forall j :: Completed(polls, j) <==> Completed(front, j) || (j == n && Completed(polls, j));
    }
  }

  lemma CommittedOneMore(polls: seq<Poll>, before: Option<nat>, after: Option<nat>)
    requires polls != []
    requires var n, front := |polls| - 1, polls[..|polls| - 1];
      && after == (if Completed(polls, n) then Some(polls[n].offset + 1) else before)
      && (before.None? <==> forall k :: !Completed(front, k))
      && (forall m: nat :: before == Some(m) <==> exists k :: LastCompleted(front, k) && front[k].offset + 1 == m)
    ensures after.None? <==> forall k :: !Completed(polls, k)
    ensures forall m: nat :: after == Some(m) <==> exists k :: LastCompleted(polls, k) && polls[k].offset + 1 == m
  {
    var n, front := |polls| - 1, polls[..|polls| - 1];
    CompletedOneMore(polls);
    if Completed(polls, n) {
      assert LastCompleted(polls, n);
    } else {
      forall m: nat
        ensures after == Some(m) <==> exists k :: LastCompleted(polls, k) && polls[k].offset + 1 == m
      {
        forall k | LastCompleted(front, k)
          ensures front[k] == polls[k]
        {
        }
        if after == Some(m) {
          var k :| LastCompleted(front, k) && front[k].offset + 1 == m;
          assert LastCompleted(polls, k);
        }
      }
    }
  }

  lemma CountOneMore(books: Books, polls: seq<Poll>)
    requires polls != []
    ensures var n, front := |polls| - 1, polls[..|polls| - 1];
      && |Acceptances(books, polls)| == |Acceptances(books, front)| +
         (if polls[n].Message? && DecisionAt(books, polls, n).Accepted? then 1 else 0)
      && |Refusals(books, polls)| == |Refusals(books, front)| +
         (if polls[n].Message? && !DecisionAt(books, polls, n).Accepted? then 1 else 0)
  {
    hide Evaluate, Evaluated;
    var n, front := |polls| - 1, polls[..|polls| - 1];
    forall k: nat | k < n && IsMessage(polls, k)
      ensures IsMessage(front, k) && DecisionAt(books, front, k) == DecisionAt(books, polls, k)
    {
      assert front[..k] == polls[..k];
    }
    assert Acceptances(books, polls) == Acceptances(books, front) +
           if polls[n].Message? && DecisionAt(books, polls, n).Accepted? then {n as nat} else {};
    assert Refusals(books, polls) == Refusals(books, front) +
           if polls[n].Message? && !DecisionAt(books, polls, n).Accepted? then {n as nat} else {};
  }

  function AcceptedIn(log: seq<Published>): nat {
    if log == [] then 0 else AcceptedIn(log[..|log| - 1]) + if log[|log| - 1].decision.Accepted? then 1 else 0
  }

  // An offset is committed only behind a message whose own result was published, and no
  // accepted result is published that the engine did not count, though accepted bets
  // whose publication failed are counted as well.
  ghost predicate PublishedBeforeCommit(s: LoopState, polls: nat) {
    && (s.committed.Some? ==> exists k :: 0 <= k < |s.log| && s.log[k].offset + 1 == s.committed.value)
    && AcceptedIn(s.log) <= s.accepted
    && |s.log| <= s.accepted + s.rejected <= polls
  }

  lemma {:induction false} CommitFollowsPublication(books: Books, polls: seq<Poll>)
    ensures PublishedBeforeCommit(AfterPolls(LoopState(books, [], None, 0, 0), polls), |polls|)
  {
    if polls != [] {
      var front := polls[..|polls| - 1];
      CommitFollowsPublication(books, front);
      OnePoll(AfterPolls(LoopState(books, [], None, 0, 0), front), polls[|polls| - 1], |front|);
    }
  }

  lemma OnePoll(s: LoopState, poll: Poll, polls: nat)
    requires PublishedBeforeCommit(s, polls)
    ensures PublishedBeforeCommit(AfterPoll(s, poll), polls + 1)
  {
    hide Evaluate;
    var s' := AfterPoll(s, poll);
    if poll.Message? && poll.produced {
      assert s'.log[..|s'.log| - 1] == s.log;
      assert s'.log[|s.log|].offset == poll.offset;
    }
    if s.committed.Some? {
      var k :| 0 <= k < |s.log| && s.log[k].offset + 1 == s.committed.value;
      assert s'.log[k] == s.log[k];
    }
  }

  // ------------------------------------------------- what manual commits keep

  // One partition delivers its messages at growing offsets.
  ghost predicate Ascending(polls: seq<Poll>) {
    forall i, j | 0 <= i < j < |polls| && polls[i].Message? && polls[j].Message? :: polls[i].offset < polls[j].offset
  }

  // The result that the loop owes to a message.
  function ResultOwed(books: Books, polls: seq<Poll>, k: nat): Published
    requires IsMessage(polls, k)
  {
    Published(polls[k].offset, DecisionAt(books, polls, k))
  }

  // The published log is exactly the results of the messages that were produced.
  ghost predicate LogIs(books: Books, polls: seq<Poll>, log: seq<Published>) {
    && (forall k | 0 <= k < |polls| && polls[k].Message? && polls[k].produced :: ResultOwed(books, polls, k) in log)
    && (forall x | x in log ::
          exists k :: 0 <= k < |polls| && polls[k].Message? && polls[k].produced && x == ResultOwed(books, polls, k))
  }

  lemma {:induction false} LogIsProduced(books: Books, polls: seq<Poll>)
    ensures LogIs(books, polls, AfterPolls(LoopState(books, [], None, 0, 0), polls).log)
  {
    if polls != [] {
      var front := polls[..|polls| - 1];
      LogIsProduced(books, front);
      LoopMeaning(books, front);
      hide Evaluate;
      OneOwedMore(books, polls, AfterPolls(LoopState(books, [], None, 0, 0), front).log);
    }
  }

  lemma OneOwedMore(books: Books, polls: seq<Poll>, log: seq<Published>)
    requires polls != [] && LogIs(books, polls[..|polls| - 1], log)
    ensures var n := |polls| - 1;
      LogIs(books, polls, if polls[n].Message? && polls[n].produced then log + [ResultOwed(books, polls, n)] else log)
  {
    hide Evaluated, Evaluate;
    var n := |polls| - 1;
    var front := polls[..n];
    forall k | 0 <= k < n && polls[k].Message?
      ensures ResultOwed(books, front, k) == ResultOwed(books, polls, k)
    {
      assert front[..k] == polls[..k];
    }
    forall x | x in log
      ensures exists k :: 0 <= k < |polls| && polls[k].Message? && polls[k].produced && x == ResultOwed(books, polls, k)
    {
      var k :| 0 <= k < |front| && front[k].Message? && front[k].produced && x == ResultOwed(books, front, k);
      assert polls[k] == front[k];
    }
    forall k | 0 <= k < n && polls[k].Message? && polls[k].produced
      ensures ResultOwed(books, polls, k) in log
    {
      assert front[k] == polls[k];
    }
  }

  // Every message in front of an offset has its own result in the published log.
  ghost predicate PublishedUpTo(books: Books, polls: seq<Poll>, log: seq<Published>, end: nat) {
    forall k | 0 <= k < |polls| && polls[k].Message? && polls[k].offset < end :: ResultOwed(books, polls, k) in log
  }

  ghost predicate ProducedUpTo(polls: seq<Poll>, end: nat) {
    forall k | 0 <= k < |polls| && polls[k].Message? && polls[k].offset < end :: polls[k].produced
  }

  // The promise that offsets are committed only after a result is produced: after any
  // polls, all messages in front of the committed offset have their results published
  // exactly when none of them took the branch that skips a message it could not produce.
  lemma CommittedIsPublishedIff(books: Books, polls: seq<Poll>)
    requires Ascending(polls)
    ensures var s := AfterPolls(LoopState(books, [], None, 0, 0), polls);
      s.committed.Some? ==>
        (PublishedUpTo(books, polls, s.log, s.committed.value) <==> ProducedUpTo(polls, s.committed.value))
  {
    var s := AfterPolls(LoopState(books, [], None, 0, 0), polls);
    LogIsProduced(books, polls);
    hide AfterPolls, Evaluate;
    if s.committed.Some? && PublishedUpTo(books, polls, s.log, s.committed.value) {
      forall k | 0 <= k < |polls| && polls[k].Message? && polls[k].offset < s.committed.value
        ensures polls[k].produced
      {
        assert ResultOwed(books, polls, k) in s.log;
        var j :| 0 <= j < |polls| && polls[j].Message? && polls[j].produced &&
                 ResultOwed(books, polls, k) == ResultOwed(books, polls, j);
        assert polls[j].offset == polls[k].offset;
        assert j == k;
      }
    }
  }

  // The failing branch at work: a result that could not be produced is passed over for
  // good by the next commit, and an acceptance among such results keeps its stake and
  // its exposure although nobody downstream hears of it.
  lemma UnproducedResultIsLost(s: LoopState, first: Poll, next: Poll)
    requires first.Message? && next.Message? && next.offset == first.offset + 1
    requires !first.produced && next.produced && next.flushed && next.committed
    ensures var (books, decision) := Evaluate(s.books, first.payload, first.now);
      var after := AfterPolls(s, [first, next]);
      && after.committed == Some(first.offset + 2)
      && after.log == s.log + [Published(next.offset, Evaluate(books, next.payload, next.now).1)]
      && after.books == Evaluate(books, next.payload, next.now).0
      && (decision.Accepted? ==> s.accepted + 1 <= after.accepted)
  {
    hide Evaluate;
    var two := [first, next];
    assert two[..1] == [first] && two[..1][..0] == [];
    assert AfterPolls(s, two[..1]) == AfterPoll(s, first);
  }
}

/** OTP verification for one phone number, as the Redis commands of concurrent requests
    interleave: a pending record and an attempt counter with times to live, and a lock.

    Requests finish within the lock's 30 seconds: time does not pass a running request's
    deadline.  Registration is two commands, the record first and then the deletion of
    the counter; `Register` is the same without anything in between.
  */
module OtpProtocol {
  import opened Wrappers

  const MAX_OTP_ATTEMPTS: nat := 5
  const PENDING_TTL: int := 300
  const LOCK_TTL: int := 30

  // INCR creates a counter without an expiry; EXPIRE follows when it returned 1.
  datatype Attempts = Attempts(count: nat, expires: Option<int>)

  datatype Phase =
    | Locked
    | Checked      // fewer than five attempts
    | WrongGuess   // compared wrong, INCR is next
    | Counted      // INCR returned 1, EXPIRE is next
    | RightGuess   // compared right, creating the user
    | Leaving

  datatype Verify = Verify(start: int, phase: Phase)

  // `wrong` counts the wrong comparisons with the OTP issued last, `resets` how often the
  // counter vanished since, and `carry` says whether a request was between comparing an
  // older OTP and counting it when this one was issued.
  datatype State = State(
    now: int, pending: Option<int>, attempts: Option<Attempts>, lock: Option<int>,
    verifies: map<nat, Verify>, unfinished: nat, wrong: nat, resets: nat, carry: bool)

  datatype Event =
    | RegisterSet
    | RegisterDelete
    | Register
    | Arrive(v: nat)
    | CheckAttempts(v: nat)
    | Compare(v: nat, matches: bool)
    | Incr(v: nat)
    | Expire(v: nat)
    | CreationFails(v: nat)
    | DeleteKeys(v: nat)
    | Release(v: nat)
    | Tick(d: nat)

  function Count(s: State): nat {
    if s.attempts.Some? then s.attempts.value.count else 0
  }

  // A request that has compared wrong and not yet counted it.
  predicate Uncounted(s: State) {
    exists v | v in s.verifies :: s.verifies[v].phase.WrongGuess?
  }

  function SetPhase(s: State, v: nat, phase: Phase): State
    requires v in s.verifies
  {
    s.(verifies := s.verifies[v := s.verifies[v].(phase := phase)])
  }

  predicate At(s: State, v: nat, phase: Phase) {
    v in s.verifies && s.verifies[v].phase == phase
  }

  function Issue(s: State): State {
    s.(pending := Some(s.now + PENDING_TTL), wrong := 0, resets := 0, carry := Uncounted(s))
  }

  function Step(s: State, e: Event): Option<State> {
    match e
    case RegisterSet => Some(Issue(s).(unfinished := s.unfinished + 1))
    case RegisterDelete =>
      if s.unfinished == 0 then None
      else Some(s.(attempts := None, unfinished := s.unfinished - 1,
                   resets := s.resets + if s.attempts.Some? then 1 else 0))
    case Register => Some(Issue(s).(attempts := None))
    case Arrive(v) =>
      if v in s.verifies then None
      else if s.lock.Some? then Some(s)
      else Some(s.(lock := Some(s.now + LOCK_TTL), verifies := s.verifies[v := Verify(s.now, Locked)]))
    case CheckAttempts(v) =>
      if !At(s, v, Locked) then None
      else Some(SetPhase(s, v, if Count(s) >= MAX_OTP_ATTEMPTS then Leaving else Checked))
    case Compare(v, matches) =>
      if !At(s, v, Checked) then None
      else if s.pending.None? then Some(SetPhase(s, v, Leaving))
      else if matches then Some(SetPhase(s, v, RightGuess))
      else Some(SetPhase(s, v, WrongGuess).(wrong := s.wrong + 1))
    case Incr(v) =>
      if !At(s, v, WrongGuess) then None
      else
        var expires := if s.attempts.Some? then s.attempts.value.expires else None;
        Some(SetPhase(s, v, if Count(s) == 0 then Counted else Leaving)
             .(attempts := Some(Attempts(Count(s) + 1, expires))))
    case Expire(v) =>
      if !At(s, v, Counted) then None
      else if s.attempts.None? then Some(SetPhase(s, v, Leaving))
      else Some(SetPhase(s, v, Leaving).(attempts := Some(s.attempts.value.(expires := Some(s.now + PENDING_TTL)))))
    case CreationFails(v) => if !At(s, v, RightGuess) then None else Some(SetPhase(s, v, Leaving))
    case DeleteKeys(v) =>
      if !At(s, v, RightGuess) then None
      else Some(SetPhase(s, v, Leaving).(pending := None, attempts := None))
    case Release(v) =>
      if !At(s, v, Leaving) then None
      else Some(s.(lock := None, verifies := s.verifies - {v}))
    case Tick(d) =>
      if exists v | v in s.verifies :: s.now + d >= s.verifies[v].start + LOCK_TTL then None
      else Some(Advance(s, s.now + d))
  }

  // Redis drops the keys whose time has come.
  function Advance(s: State, now: int): State {
    var gone := s.attempts.Some? && s.attempts.value.expires.Some? && s.attempts.value.expires.value <= now;
    s.(now := now,
       pending := if s.pending.Some? && s.pending.value <= now then None else s.pending,
       attempts := if gone then None else s.attempts,
       resets := s.resets + if gone then 1 else 0,
       lock := if s.lock.Some? && s.lock.value <= now then None else s.lock)
  }

  function Run(s: State, events: seq<Event>): Option<State> {
    if events == [] then Some(s)
    else
      var before := Run(s, events[..|events| - 1]);
      if before.None? then None else Step(before.value, events[|events| - 1])
  }

  function Initial(now: int): State {
    State(now, None, None, None, map[], 0, 0, 0, false)
  }

  // ---------------------------------------------------------- mutual exclusion

  // A running request holds the lock until its own deadline, so there is only one.
  ghost predicate Exclusive(s: State) {
    && (forall v | v in s.verifies :: s.lock == Some(s.verifies[v].start + LOCK_TTL) && s.now < s.verifies[v].start + LOCK_TTL)
    && (forall v, w | v in s.verifies && w in s.verifies :: v == w)
  }

  lemma ExclusiveStep(s: State, e: Event)
    requires Exclusive(s) && Step(s, e).Some?
    ensures Exclusive(Step(s, e).value)
  {
  }

  // ------------------------------------------------------------ bounded guesses

  // Requests past the check, or about to count, leave room for one more attempt.
  ghost predicate Bounded(s: State) {
    && Count(s) <= MAX_OTP_ATTEMPTS
    && (forall v | v in s.verifies && (s.verifies[v].phase.Checked? || s.verifies[v].phase.WrongGuess?) ::
          Count(s) < MAX_OTP_ATTEMPTS)
    && s.wrong <= MAX_OTP_ATTEMPTS * (1 + s.resets)
    && (s.pending.Some? ==> s.wrong <= MAX_OTP_ATTEMPTS * s.resets + Count(s) + if Uncounted(s) then 1 else 0)
  }

  // A wrong comparison is uncounted until its own INCR, whatever else happens.
  lemma UncountedStep(s: State, e: Event)
    requires Exclusive(s) && Step(s, e).Some?
    ensures Uncounted(Step(s, e).value) ==
            if e.Incr? then false else Uncounted(s) || (e.Compare? && s.pending.Some? && !e.matches)
    ensures e.Incr? ==> Uncounted(s)
    ensures e.Compare? ==> !Uncounted(s)
  {
    var s' := Step(s, e).value;
    if e.Compare? && s.pending.Some? && !e.matches {
      assert s'.verifies[e.v].phase.WrongGuess?;
    } else if e.Incr? {
      assert s.verifies[e.v].phase.WrongGuess?;
    } else if Uncounted(s) {
      var v :| v in s.verifies && s.verifies[v].phase.WrongGuess?;
      assert v in s'.verifies && s'.verifies[v].phase.WrongGuess?;
    }
  }

  lemma BoundedStep(s: State, e: Event)
    requires Exclusive(s) && Bounded(s) && Step(s, e).Some?
    ensures Bounded(Step(s, e).value)
  {
    UncountedStep(s, e);
    hide Uncounted;
  }

  // In every run, whatever registrations and verifications interleave, an OTP is compared
  // wrongly at most five times, and five more for each time the counter vanished while it
  // was current; and at most one request is between taking and releasing the lock.
  lemma {:induction false} WrongGuessesBounded(now: int, events: seq<Event>)
    requires Run(Initial(now), events).Some?
    ensures var s := Run(Initial(now), events).value;
      && Exclusive(s) && Bounded(s)
      && s.wrong <= 5 * (1 + s.resets)
      && |s.verifies| <= 1
      && (forall v | v in s.verifies :: s.lock == Some(s.verifies[v].start + 30))
  {
    if events != [] {
      var front := events[..|events| - 1];
      WrongGuessesBounded(now, front);
      var s := Run(Initial(now), front).value;
      ExclusiveStep(s, events[|events| - 1]);
      BoundedStep(s, events[|events| - 1]);
    }
    AtMostOne(Run(Initial(now), events).value);
  }

  lemma AtMostOne(s: State)
    requires Exclusive(s)
    ensures |s.verifies| <= 1
  {
    if s.verifies != map[] {
      var v :| v in s.verifies;
      assert s.verifies == map[v := s.verifies[v]];
    }
  }

  // ------------------------------------------------------ atomic registration

  predicate Atomic(events: seq<Event>) {
    forall e | e in events :: !e.RegisterSet? && !e.RegisterDelete?
  }

  // While the record lives the counter cannot go away before it, and counts exactly the
  // wrong comparisons with this OTP, but for one in flight on either side of its issue.
  ghost predicate Counting(s: State) {
    && s.unfinished == 0
    && s.wrong <= MAX_OTP_ATTEMPTS
    && (s.pending.Some? ==>
          && s.pending.value <= s.now + PENDING_TTL
          && (s.attempts.Some? && s.attempts.value.expires.Some? ==> s.pending.value <= s.attempts.value.expires.value)
          && s.resets == 0
          && Count(s) + (if Uncounted(s) then 1 else 0) == s.wrong + (if s.carry then 1 else 0))
  }

  lemma CountingStep(s: State, e: Event)
    requires Exclusive(s) && Bounded(s) && Counting(s) && Step(s, e).Some?
    requires !e.RegisterSet? && !e.RegisterDelete?
    ensures Counting(Step(s, e).value)
  {
    UncountedStep(s, e);
    hide Uncounted;
  }

  lemma {:induction false} AtomicRegistration(now: int, events: seq<Event>)
    requires Atomic(events) && Run(Initial(now), events).Some?
    ensures var s := Run(Initial(now), events).value;
      && Counting(s)
      && s.wrong <= 5
      && (s.pending.Some? && !s.carry && s.verifies == map[] ==> Count(s) == s.wrong)
  {
    if events != [] {
      var front, e := events[..|events| - 1], events[|events| - 1];
      assert e in events && forall x | x in front :: x in events;
      AtomicRegistration(now, front);
      WrongGuessesBounded(now, front);
      CountingStep(Run(Initial(now), front).value, e);
    }
  }

  // ----------------------------------------------- why atomicity is needed

  // A request that guesses wrong with nothing running beside it.
  function WrongRound(s: State): seq<Event> {
    [Arrive(0), CheckAttempts(0), Compare(0, false), Incr(0)] + (if Count(s) == 0 then [Expire(0)] else []) + [Release(0)]
  }

  ghost predicate Idle(s: State) {
    s.verifies == map[] && s.lock.None? && s.pending.Some?
  }

  function Play(s: State, events: seq<Event>): Option<State>
    decreases |events|
  {
    if events == [] then Some(s)
    else if Step(s, events[0]).None? then None
    else Play(Step(s, events[0]).value, events[1..])
  }

  lemma {:induction false} PlayIsRun(s: State, events: seq<Event>, more: seq<Event>)
    requires Run(s, events).Some? && Play(Run(s, events).value, more).Some?
    ensures Run(s, events + more) == Play(Run(s, events).value, more)
    decreases |more|
  {
    hide Step;
    if more == [] {
      assert events + more == events;
    } else {
      var events' := events + [more[0]];
      assert events'[..|events|] == events;
      PlayIsRun(s, events', more[1..]);
      assert events' + more[1..] == events + more;
    }
  }

  lemma PlayStep(s: State, e: Event, rest: seq<Event>)
    ensures Step(s, e).Some? ==> Play(s, [e] + rest) == Play(Step(s, e).value, rest)
    ensures Play(s, []) == Some(s)
  {
    hide Step;
    assert ([e] + rest)[1..] == rest;
  }

  // What it leaves behind.
  function AfterWrongRound(s: State): State {
    s.(wrong := s.wrong + 1,
       attempts := Some(if Count(s) == 0 then Attempts(1, Some(s.now + PENDING_TTL))
                        else Attempts(Count(s) + 1, s.attempts.value.expires)))
  }

  // A request that took the lock and has got as far as a phase, with nothing beside it.
  function Alone(s: State, phase: Phase): State {
    s.(lock := Some(s.now + LOCK_TTL), verifies := map[0 := Verify(s.now, phase)])
  }

  lemma ToWrongGuess(s: State)
    requires Idle(s) && Count(s) < MAX_OTP_ATTEMPTS
    ensures Step(s, Arrive(0)) == Some(Alone(s, Locked))
    ensures Step(Alone(s, Locked), CheckAttempts(0)) == Some(Alone(s, Checked))
    ensures Step(Alone(s, Checked), Compare(0, false)) == Some(Alone(s, WrongGuess).(wrong := s.wrong + 1))
  {
    assert s.verifies[0 := Verify(s.now, Locked)] == Alone(s, Locked).verifies;
    Rephase(s, Locked, Checked);
    Rephase(s, Checked, WrongGuess);
  }

  lemma Rephase(s: State, before: Phase, after: Phase)
    ensures SetPhase(Alone(s, before), 0, after) == Alone(s, after)
  {
    assert map[0 := Verify(s.now, before)][0 := Verify(s.now, after)] == map[0 := Verify(s.now, after)];
  }

  function AfterIncr(s: State): State {
    Alone(s, if Count(s) == 0 then Counted else Leaving).(
      wrong := s.wrong + 1,
      attempts := Some(Attempts(Count(s) + 1, if s.attempts.Some? then s.attempts.value.expires else None)))
  }

  lemma CountsWrongGuess(s: State)
    requires Idle(s)
    ensures Step(Alone(s, WrongGuess).(wrong := s.wrong + 1), Incr(0)) == Some(AfterIncr(s))
    ensures Count(s) == 0 ==> Step(AfterIncr(s), Expire(0)) == Some(Alone(AfterWrongRound(s), Leaving))
    ensures Count(s) > 0 ==> AfterIncr(s) == Alone(AfterWrongRound(s), Leaving)
  {
    Rephase(s, WrongGuess, Counted);
    Rephase(s, WrongGuess, Leaving);
    Rephase(s, Counted, Leaving);
  }

  lemma Leaves(s: State)
    requires s.verifies == map[] && s.lock.None?
    ensures Step(Alone(s, Leaving), Release(0)) == Some(s)
  {
    assert Alone(s, Leaving).verifies - {0} == map[];
  }

  // The states of one wrong round, up to the counter's expiry.
  lemma WrongRoundStates(s: State) returns (s1: State, s2: State, s3: State, s4: State, s5: State)
    requires Idle(s) && Count(s) < MAX_OTP_ATTEMPTS
    ensures Step(s, Arrive(0)) == Some(s1) && Step(s1, CheckAttempts(0)) == Some(s2)
    ensures Step(s2, Compare(0, false)) == Some(s3) && Step(s3, Incr(0)) == Some(s4)
    ensures if Count(s) == 0 then Step(s4, Expire(0)) == Some(s5) else s5 == s4
    ensures Step(s5, Release(0)) == Some(AfterWrongRound(s))
  {
    ToWrongGuess(s);
    CountsWrongGuess(s);
    Leaves(AfterWrongRound(s));
    hide Step, Count, Alone;
    s1, s2, s3 := Alone(s, Locked), Alone(s, Checked), Alone(s, WrongGuess).(wrong := s.wrong + 1);
    s4, s5 := AfterIncr(s), Alone(AfterWrongRound(s), Leaving);
  }

  lemma OneWrongRound(s: State)
    requires Idle(s) && Count(s) < MAX_OTP_ATTEMPTS
    ensures Play(s, WrongRound(s)) == Some(AfterWrongRound(s))
  {
    var s1, s2, s3, s4, s5 := WrongRoundStates(s);
    hide *;
    var r5 := [Release(0)] + [];
    var r4 := if Count(s) == 0 then [Expire(0)] + r5 else r5;
    var r3 := [Incr(0)] + r4;
    var r2 := [Compare(0, false)] + r3;
    var r1 := [CheckAttempts(0)] + r2;
    RoundIs(s);
    PlayStep(s, Arrive(0), r1);
    PlayStep(s1, CheckAttempts(0), r2);
    PlayStep(s2, Compare(0, false), r3);
    PlayStep(s3, Incr(0), r4);
    PlayStep(s4, Expire(0), r5);
    PlayStep(s5, Release(0), []);
  }

  lemma RoundIs(s: State)
    ensures WrongRound(s) == [Arrive(0)] + ([CheckAttempts(0)] + ([Compare(0, false)] + ([Incr(0)] +
            (if Count(s) == 0 then [Expire(0)] + ([Release(0)] + []) else [Release(0)] + []))))
  {
  }

  lemma {:induction false} WrongRounds(now: int, events: seq<Event>, n: nat) returns (all: seq<Event>)
    requires Run(Initial(now), events).Some?
    requires var s := Run(Initial(now), events).value; Idle(s) && Count(s) + n <= MAX_OTP_ATTEMPTS
    ensures Run(Initial(now), all).Some?
    ensures var s, s' := Run(Initial(now), events).value, Run(Initial(now), all).value;
      Idle(s') && s'.wrong == s.wrong + n && Count(s') == Count(s) + n &&
      s'.unfinished == s.unfinished && s'.resets == s.resets
    decreases n
  {
    hide Step, Play, Run;
    all := events;
    if n > 0 {
      var s := Run(Initial(now), events).value;
      OneWrongRound(s);
      PlayIsRun(Initial(now), events, WrongRound(s));
      all := WrongRounds(now, events + WrongRound(s), n - 1);
      if n == 1 {
        assert Run(Initial(now), all).value.wrong == Run(Initial(now), events + WrongRound(s)).value.wrong;
      }
    }
  }

  lemma {:induction false} Registrations(now: int, k: nat) returns (events: seq<Event>)
    requires k > 0
    ensures Run(Initial(now), events).Some?
    ensures var s := Run(Initial(now), events).value;
      Idle(s) && Count(s) == 0 && s.wrong == 0 && s.resets == 0 && s.unfinished == k
    decreases k
  {
    var front: seq<Event> := [];
    if k > 1 {
      front := Registrations(now, k - 1);
    }
    events := front + [RegisterSet];
    assert events[..|front|] == front;
  }

  // Between the two commands of a registration five wrong guesses can be made, and the
  // deletion of the counter then allows five more.  With k registrations under way at once
  // the bound is attained for every number of resets up to k.
  lemma {:induction false} BoundIsAttained(now: int, k: nat, resets: nat) returns (events: seq<Event>)
    requires k > 0 && resets <= k
    ensures Run(Initial(now), events).Some?
    ensures var s := Run(Initial(now), events).value;
      && s.wrong == 5 * (1 + s.resets) && s.resets == resets && s.pending.Some? && s.unfinished == k - resets
      && Idle(s) && Count(s) == 5
    decreases resets
  {
    if resets == 0 {
      events := Registrations(now, k);
    } else {
      var front := BoundIsAttained(now, k, resets - 1);
      events := front + [RegisterDelete];
      assert events[..|front|] == front;
    }
    events := WrongRounds(now, events, 5);
  }

  // The promise of five attempts for one OTP, exactly: a run that exceeds it with a given
  // number of resets exists if and only if that number is not zero.
  lemma FiveAttemptsIff(now: int, resets: nat)
    ensures (exists events :: Run(Initial(now), events).Some? &&
               var s := Run(Initial(now), events).value; s.resets == resets && s.wrong > 5) <==> resets >= 1
  {
    hide Run;
    if resets >= 1 {
      var events := BoundIsAttained(now, resets, resets);
    } else {
      forall events | Run(Initial(now), events).Some? && Run(Initial(now), events).value.resets == 0
        ensures Run(Initial(now), events).value.wrong <= 5
      {
        WrongGuessesBounded(now, events);
      }
    }
  }
}

/** The OTP half of the ingress user service as its methods run: Redis as a store of keys
    with times to live, and registration and verification as sequences of Redis commands.
    One request at a time is exactly one run of the protocol machine in OtpProtocol.
  */
module OtpService {
  import opened Wrappers
  import P = OtpProtocol

  datatype Record = Record(email: string, phone: string, passwordHash: string, username: Option<string>, otp: string)

  // What a key holds: a JSON object, or the decimal text of a number.
  datatype Value = Json(record: Record) | Number(n: nat)

  datatype Cell = Cell(value: Value, expires: Option<int>)

  predicate IsLive(now: int, cells: map<string, Cell>, key: string) {
    key in cells && (cells[key].expires.None? || now < cells[key].expires.value)
  }

  class RedisOTP {
    var now: int
    var cells: map<string, Cell>

    constructor (now: int)
      ensures this.now == now && cells == map[]
    {
      this.now := now;
      cells := map[];
    }

    predicate Live(key: string)
      reads this
    {
      IsLive(now, cells, key)
    }

    method SetOtp(key: string, data: Record, ttl: int)
      requires ttl > 0
      modifies `cells
      ensures cells == old(cells)[key := Cell(Json(data), Some(now + ttl))]
    {
      cells := cells[key := Cell(Json(data), Some(now + ttl))];
    }

    // A value that is not a JSON object reads as no record at all.
    method GetOtp(key: string) returns (data: Option<Record>)
      ensures data.Some? <==> Live(key) && cells[key].value.Json?
      ensures data.Some? ==> cells[key].value == Json(data.value)
    {
      if !Live(key) || !cells[key].value.Json? {
        return None;
      }
      data := Some(cells[key].value.record);
    }

    method DeleteKeys(keys: seq<string>)
      modifies `cells
      ensures forall k :: k in cells <==> k in old(cells) && k !in keys
      ensures forall k :: k in cells ==> cells[k] == old(cells)[k]
    {
      for i := 0 to |keys|
        invariant forall k :: k in cells <==> k in old(cells) && k !in keys[..i]
        invariant forall k :: k in cells ==> cells[k] == old(cells)[k]
      {
        assert keys[..i + 1] == keys[..i] + [keys[i]];
        cells := cells - {keys[i]};
      }
      assert keys[..|keys|] == keys;
    }

    method AcquireLock(key: string, ttl: int) returns (acquired: bool)
      requires ttl > 0
      modifies `cells
      ensures acquired == !old(Live(key))
      ensures cells == if acquired then old(cells)[key := Cell(Number(1), Some(now + ttl))] else old(cells)
    {
      acquired := !Live(key);
      if acquired {
        cells := cells[key := Cell(Number(1), Some(now + ttl))];
      }
    }

    method ReleaseLock(key: string)
      modifies `cells
      ensures cells == old(cells) - {key}
    {
      cells := cells - {key};
    }

    // INCR keeps the expiry of a live key; a first count is given one.  A value that is no
    // number makes Redis raise.
    method IncrAttempts(key: string, ttl: int) returns (count: Option<nat>)
      requires ttl > 0
      modifies `cells
      ensures count.None? <==> old(Live(key)) && old(cells[key].value.Json?)
      ensures count.None? ==> cells == old(cells)
      ensures count.Some? ==>
        count.value == (if old(Live(key)) then old(cells[key].value.n) else 0) + 1 &&
        cells == old(cells)[key := Cell(Number(count.value),
          if count.value == 1 then Some(now + ttl) else old(cells[key].expires))]
    {
      if Live(key) && cells[key].value.Json? {
        return None;
      }
      var n := 1;
      var expires: Option<int> := None;
      if Live(key) {
        n, expires := cells[key].value.n + 1, cells[key].expires;
      }
      cells := cells[key := Cell(Number(n), expires)];
      if n == 1 {
        cells := cells[key := cells[key].(expires := Some(now + ttl))];
      }
      count := Some(n);
    }

    method GetAttempts(key: string) returns (n: nat)
      ensures n == if Live(key) && cells[key].value.Number? then cells[key].value.n else 0
    {
      n := 0;
      if Live(key) && cells[key].value.Number? {
        n := cells[key].value.n;
      }
    }
  }

  function PendingKey(phone: string): string { "registration:pending:" + phone }
  function AttemptsKey(phone: string): string { "otp_attempts:" + phone }
  function LockKey(phone: string): string { "lock:verify:" + phone }

  lemma KeysDiffer(phone: string)
    ensures PendingKey(phone) != AttemptsKey(phone) && PendingKey(phone) != LockKey(phone)
    ensures AttemptsKey(phone) != LockKey(phone)
  {
    assert PendingKey(phone)[0] == 'r' && AttemptsKey(phone)[0] == 'o' && LockKey(phone)[0] == 'l';
  }

  // What this service stores under the three keys of a phone number.
  predicate Shaped(now: int, cells: map<string, Cell>, phone: string) {
    && (IsLive(now, cells, PendingKey(phone)) ==>
          cells[PendingKey(phone)].value.Json? && cells[PendingKey(phone)].expires.Some?)
    && (IsLive(now, cells, AttemptsKey(phone)) ==> cells[AttemptsKey(phone)].value.Number?)
    && (IsLive(now, cells, LockKey(phone)) ==> cells[LockKey(phone)].expires.Some?)
  }

  function PendingOf(now: int, cells: map<string, Cell>, phone: string): Option<int>
    requires Shaped(now, cells, phone)
  {
    if IsLive(now, cells, PendingKey(phone)) then cells[PendingKey(phone)].expires else None
  }

  function RecordOf(now: int, cells: map<string, Cell>, phone: string): Option<Record>
    requires Shaped(now, cells, phone)
  {
    if IsLive(now, cells, PendingKey(phone)) then Some(cells[PendingKey(phone)].value.record) else None
  }

  function AttemptsOf(now: int, cells: map<string, Cell>, phone: string): Option<P.Attempts>
    requires Shaped(now, cells, phone)
  {
    if IsLive(now, cells, AttemptsKey(phone))
    then Some(P.Attempts(cells[AttemptsKey(phone)].value.n, cells[AttemptsKey(phone)].expires))
    else None
  }

  function LockOf(now: int, cells: map<string, Cell>, phone: string): Option<int>
    requires Shaped(now, cells, phone)
  {
    if IsLive(now, cells, LockKey(phone)) then cells[LockKey(phone)].expires else None
  }

  // The protocol state shows the three keys of a phone number as they are in the store.
  predicate Shows(s: P.State, now: int, cells: map<string, Cell>, phone: string) {
    && Shaped(now, cells, phone)
    && s.now == now
    && s.pending == PendingOf(now, cells, phone)
    && s.attempts == AttemptsOf(now, cells, phone)
    && s.lock == LockOf(now, cells, phone)
  }

  ghost predicate OthersKept(before: map<string, Cell>, after: map<string, Cell>, phone: string) {
    forall k | k !in [PendingKey(phone), AttemptsKey(phone), LockKey(phone)] ::
      (k in before <==> k in after) && (k in before ==> before[k] == after[k])
  }

  // HTTP answers: 429 twice over, 400, 401, and the created user's e-mail.
  datatype Outcome = InProgress | TooManyAttempts | OtpExpired | WrongOtp | CreationFailed | Created(email: string)

  // The protocol events of one uninterrupted verification.
  function VerifyEvents(s: P.State, matches: bool, creates: bool): seq<P.Event> {
    if s.lock.Some? then [P.Arrive(0)]
    else if P.Count(s) >= P.MAX_OTP_ATTEMPTS then [P.Arrive(0), P.CheckAttempts(0), P.Release(0)]
    else if s.pending.None? then [P.Arrive(0), P.CheckAttempts(0), P.Compare(0, matches), P.Release(0)]
    else if matches then
      [P.Arrive(0), P.CheckAttempts(0), P.Compare(0, true),
       if creates then P.DeleteKeys(0) else P.CreationFails(0), P.Release(0)]
    else P.WrongRound(s)
  }

  // What the block under the lock leaves behind, and such a run as a whole.
  function AfterCheck(s: P.State, matches: bool, creates: bool): P.State {
    if P.Count(s) >= P.MAX_OTP_ATTEMPTS || s.pending.None? then s
    else if matches then (if creates then s.(pending := None, attempts := None) else s)
    else P.AfterWrongRound(s)
  }

  function AfterVerify(s: P.State, matches: bool, creates: bool): P.State {
    if s.lock.Some? then s else AfterCheck(s, matches, creates)
  }

  // Taking the lock and looking at the counter.
  lemma Begun(s: P.State, rest: seq<P.Event>)
    requires s.verifies == map[] && s.lock.None?
    ensures P.Play(s, [P.Arrive(0)] + ([P.CheckAttempts(0)] + rest)) ==
            P.Play(P.Alone(s, if P.Count(s) >= P.MAX_OTP_ATTEMPTS then P.Leaving else P.Checked), rest)
  {
    P.Rephase(s, P.Locked, P.Leaving);
    P.Rephase(s, P.Locked, P.Checked);
    assert s.verifies[0 := P.Verify(s.now, P.Locked)] == P.Alone(s, P.Locked).verifies;
    assert P.Step(s, P.Arrive(0)) == Some(P.Alone(s, P.Locked));
    P.PlayStep(s, P.Arrive(0), [P.CheckAttempts(0)] + rest);
    P.PlayStep(P.Alone(s, P.Locked), P.CheckAttempts(0), rest);
    hide P.Play;
  }

  lemma Ended(s: P.State)
    requires s.verifies == map[] && s.lock.None?
    ensures P.Play(P.Alone(s, P.Leaving), [P.Release(0)]) == Some(s)
  {
    P.Leaves(s);
    P.PlayStep(P.Alone(s, P.Leaving), P.Release(0), []);
    assert [P.Release(0)] + [] == [P.Release(0)];
  }

  // Comparing without a record ends the request.
  lemma NothingPending(s: P.State, matches: bool)
    requires s.verifies == map[] && s.lock.None? && s.pending.None?
    ensures P.Play(P.Alone(s, P.Checked), [P.Compare(0, matches), P.Release(0)]) == Some(s)
  {
    Ended(s);
    P.Rephase(s, P.Checked, P.Leaving);
    P.PlayStep(P.Alone(s, P.Checked), P.Compare(0, matches), [P.Release(0)]);
    hide P.Play;
  }

  // A right guess creates the user, or fails to.
  lemma RightGuess(s: P.State, creates: bool)
    requires s.verifies == map[] && s.lock.None? && s.pending.Some?
    ensures var finish := if creates then P.DeleteKeys(0) else P.CreationFails(0);
      P.Play(P.Alone(s, P.Checked), [P.Compare(0, true), finish, P.Release(0)]) ==
      Some(if creates then s.(pending := None, attempts := None) else s)
  {
    var finish := if creates then P.DeleteKeys(0) else P.CreationFails(0);
    var after := if creates then s.(pending := None, attempts := None) else s;
    Ended(after);
    P.Rephase(s, P.Checked, P.RightGuess);
    P.Rephase(s, P.RightGuess, P.Leaving);
    assert P.Step(P.Alone(s, P.RightGuess), finish) == Some(P.Alone(after, P.Leaving));
    P.PlayStep(P.Alone(s, P.Checked), P.Compare(0, true), [finish, P.Release(0)]);
    P.PlayStep(P.Alone(s, P.RightGuess), finish, [P.Release(0)]);
    assert [P.Compare(0, true)] + [finish, P.Release(0)] == [P.Compare(0, true), finish, P.Release(0)];
    hide P.Play;
  }

  // An uninterrupted verification is a run of the protocol, so what holds in every run of
  // the protocol holds of the service.
  lemma VerifyIsRun(s: P.State, matches: bool, creates: bool)
    requires s.verifies == map[]
    ensures P.Play(s, VerifyEvents(s, matches, creates)) == Some(AfterVerify(s, matches, creates))
  {
    hide P.Play, P.Step, P.WrongRound, P.AfterWrongRound;
    var events := VerifyEvents(s, matches, creates);
    if s.lock.Some? {
      ArriveLocked(s);
    } else if P.Count(s) < P.MAX_OTP_ATTEMPTS && s.pending.Some? && !matches {
      P.OneWrongRound(s);
    } else {
      Begun(s, events[2..]);
      assert events == [P.Arrive(0)] + ([P.CheckAttempts(0)] + events[2..]);
      if P.Count(s) >= P.MAX_OTP_ATTEMPTS {
        Ended(s);
        assert events[2..] == [P.Release(0)];
      } else if s.pending.None? {
        NothingPending(s, matches);
        assert events[2..] == [P.Compare(0, matches), P.Release(0)];
      } else {
        RightGuess(s, creates);
        var finish := if creates then P.DeleteKeys(0) else P.CreationFails(0);
        assert events[2..] == [P.Compare(0, true), finish, P.Release(0)];
      }
    }
  }

  lemma ArriveLocked(s: P.State)
    requires s.verifies == map[] && s.lock.Some?
    ensures P.Play(s, [P.Arrive(0)]) == Some(s)
  {
    P.PlayStep(s, P.Arrive(0), []);
    assert [P.Arrive(0)] + [] == [P.Arrive(0)];
  }

  // ------------------------------------------------ answers, read off the store

  function CountIn(now: int, cells: map<string, Cell>, phone: string): nat
    requires Shaped(now, cells, phone)
  {
    if IsLive(now, cells, AttemptsKey(phone)) then cells[AttemptsKey(phone)].value.n else 0
  }

  // What the caller hears when the lock was free, each answer exactly in its case.
  ghost predicate Answers(outcome: Outcome, attempts: nat, record: Option<Record>, otp: string, creates: bool) {
    && !outcome.InProgress?
    && (outcome.TooManyAttempts? <==> attempts >= 5 || (attempts == 4 && record.Some? && record.value.otp != otp))
    && (outcome.OtpExpired? <==> attempts < 5 && record.None?)
    && (outcome.WrongOtp? <==> attempts < 4 && record.Some? && record.value.otp != otp)
    && (outcome.CreationFailed? <==> attempts < 5 && record.Some? && record.value.otp == otp && !creates)
    && (forall email :: outcome == Created(email) <==>
          attempts < 5 && record.Some? && record.value.otp == otp && record.value.email == email && creates)
  }

  // What becomes of the record and the counter: both go when the user was created, and a
  // wrong guess is counted, the first one with an expiry.
  ghost predicate KeysAfter(now: int, before: map<string, Cell>, after: map<string, Cell>, phone: string, otp: string, creates: bool)
    requires Shaped(now, before, phone)
  {
    var record, attempts := RecordOf(now, before, phone), CountIn(now, before, phone);
    var created := attempts < 5 && record.Some? && record.value.otp == otp && creates;
    var wrong := attempts < 5 && record.Some? && record.value.otp != otp;
    && Shaped(now, after, phone)
    && RecordOf(now, after, phone) == (if created then None else record)
    && PendingOf(now, after, phone) == (if created then None else PendingOf(now, before, phone))
    && AttemptsOf(now, after, phone) ==
       (if created then None
        else if wrong then Some(P.Attempts(attempts + 1, if attempts == 0 then Some(now + 300) else ExpiryOf(now, before, phone)))
        else AttemptsOf(now, before, phone))
  }

  function ExpiryOf(now: int, cells: map<string, Cell>, phone: string): Option<int>
    requires Shaped(now, cells, phone)
  {
    if IsLive(now, cells, AttemptsKey(phone)) then cells[AttemptsKey(phone)].expires else None
  }

  // Record and counter are the same in both.
  ghost predicate SameKeys(now: int, a: map<string, Cell>, b: map<string, Cell>, phone: string) {
    && Shaped(now, a, phone) && Shaped(now, b, phone)
    && RecordOf(now, a, phone) == RecordOf(now, b, phone) && PendingOf(now, a, phone) == PendingOf(now, b, phone)
    && AttemptsOf(now, a, phone) == AttemptsOf(now, b, phone) && CountIn(now, a, phone) == CountIn(now, b, phone)
    && ExpiryOf(now, a, phone) == ExpiryOf(now, b, phone)
  }

  lemma KeysAfterBetween(now: int, a: map<string, Cell>, b: map<string, Cell>, c: map<string, Cell>, d: map<string, Cell>,
                         phone: string, otp: string, creates: bool)
    requires SameKeys(now, a, b, phone) && KeysAfter(now, b, c, phone, otp, creates) && SameKeys(now, c, d, phone)
    ensures KeysAfter(now, a, d, phone, otp, creates)
  {
    hide Shaped, RecordOf, PendingOf, AttemptsOf, CountIn, ExpiryOf;
  }

  class UserService {
    const redis: RedisOTP

    constructor (redis: RedisOTP)
      ensures this.redis == redis
    {
      this.redis := redis;
    }

    // After the two uniqueness queries: store the pending record, forget old attempts.
    method RegisterUser(phone: string, data: Record, ghost s: P.State)
      requires Shows(s, redis.now, redis.cells, phone)
      modifies redis`cells
      ensures P.Play(s, [P.RegisterSet, P.RegisterDelete]).Some?
      ensures Shows(P.Play(s, [P.RegisterSet, P.RegisterDelete]).value, redis.now, redis.cells, phone)
      ensures redis.cells[PendingKey(phone)] == Cell(Json(data), Some(redis.now + 300))
      ensures !redis.Live(AttemptsKey(phone))
      ensures OthersKept(old(redis.cells), redis.cells, phone)
    {
      KeysDiffer(phone);
      P.PlayStep(s, P.RegisterSet, [P.RegisterDelete]);
      P.PlayStep(P.Step(s, P.RegisterSet).value, P.RegisterDelete, []);
      redis.SetOtp(PendingKey(phone), data, P.PENDING_TTL);
      redis.DeleteKeys([AttemptsKey(phone)]);
    }

    // A wrong guess is counted and answered, with the lock held.
    method CountWrongGuess(phone: string, ghost s: P.State) returns (outcome: Outcome)
      requires Shows(s, redis.now, redis.cells, phone)
      modifies redis`cells
      ensures Shows(P.AfterWrongRound(s), redis.now, redis.cells, phone)
      ensures outcome == if old(CountIn(redis.now, redis.cells, phone)) + 1 >= 5 then TooManyAttempts else WrongOtp
      ensures RecordOf(redis.now, redis.cells, phone) == old(RecordOf(redis.now, redis.cells, phone))
      ensures OthersKept(old(redis.cells), redis.cells, phone)
    {
      KeysDiffer(phone);
      var count := redis.IncrAttempts(AttemptsKey(phone), P.PENDING_TTL);
      return if count.value >= P.MAX_OTP_ATTEMPTS then TooManyAttempts else WrongOtp;
    }

    // The guarded block, with the lock held.  `creates` says whether the database accepts
    // the new user.
    method CheckOtp(phone: string, otp: string, creates: bool, ghost s: P.State) returns (outcome: Outcome)
      requires Shows(s, redis.now, redis.cells, phone)
      modifies redis`cells
      ensures var record := old(RecordOf(redis.now, redis.cells, phone));
        && Shows(AfterCheck(s, record.Some? && record.value.otp == otp, creates), redis.now, redis.cells, phone)
        && Answers(outcome, old(CountIn(redis.now, redis.cells, phone)), record, otp, creates)
      ensures KeysAfter(redis.now, old(redis.cells), redis.cells, phone, otp, creates)
      ensures OthersKept(old(redis.cells), redis.cells, phone)
    {
      ghost var start := redis.cells;
      outcome := AnswerOtp(phone, otp, creates, s);
      KeysFollow(s, redis.now, start, redis.cells, phone, otp, creates);
    }

    method AnswerOtp(phone: string, otp: string, creates: bool, ghost s: P.State) returns (outcome: Outcome)
      requires Shows(s, redis.now, redis.cells, phone)
      modifies redis`cells
      ensures var record := old(RecordOf(redis.now, redis.cells, phone));
        && Shows(AfterCheck(s, record.Some? && record.value.otp == otp, creates), redis.now, redis.cells, phone)
        && Answers(outcome, old(CountIn(redis.now, redis.cells, phone)), record, otp, creates)
        && RecordOf(redis.now, redis.cells, phone) == if outcome.Created? then None else record
      ensures OthersKept(old(redis.cells), redis.cells, phone)
    {
      var attempts := redis.GetAttempts(AttemptsKey(phone));
      if attempts >= P.MAX_OTP_ATTEMPTS {
        return TooManyAttempts;
      }
      var pending := redis.GetOtp(PendingKey(phone));
      if pending.None? {
        return OtpExpired;
      }
      if pending.value.otp != otp {
        outcome := CountWrongGuess(phone, s);
        return;
      }
      if !creates {
        return CreationFailed;
      }
      KeysDiffer(phone);
      redis.DeleteKeys([PendingKey(phone), AttemptsKey(phone)]);
      return Created(pending.value.email);
    }

    method VerifyOtp(phone: string, otp: string, creates: bool, ghost s: P.State) returns (outcome: Outcome)
      requires Shows(s, redis.now, redis.cells, phone)
      modifies redis`cells
      ensures var record := old(RecordOf(redis.now, redis.cells, phone));
        Shows(AfterVerify(s, record.Some? && record.value.otp == otp, creates), redis.now, redis.cells, phone)
      ensures outcome.InProgress? <==> old(redis.Live(LockKey(phone)))
      ensures outcome.InProgress? ==> redis.cells == old(redis.cells)
      ensures !outcome.InProgress? ==>
        && Answers(outcome, old(CountIn(redis.now, redis.cells, phone)), old(RecordOf(redis.now, redis.cells, phone)), otp, creates)
        && KeysAfter(redis.now, old(redis.cells), redis.cells, phone, otp, creates)
        && !redis.Live(LockKey(phone))
      ensures OthersKept(old(redis.cells), redis.cells, phone)
    {
      ShowsLock(s, redis.now, redis.cells, phone);
      hide Shows, OthersKept, LockKey, Shaped, RecordOf, CountIn, IsLive, AfterCheck, Answers, KeysAfter;
      ghost var record := RecordOf(redis.now, redis.cells, phone);
      ghost var matches := record.Some? && record.value.otp == otp;
      ghost var start := redis.cells;
      var acquired := redis.AcquireLock(LockKey(phone), P.LOCK_TTL);
      if !acquired {
        return InProgress;
      }
      LockShows(s, redis.now, start, phone);
      ghost var locked := s.(lock := Some(redis.now + P.LOCK_TTL));
      ghost var before := redis.cells;
      outcome := CheckOtp(phone, otp, creates, locked);
      ghost var end := redis.cells - {LockKey(phone)};
      KeptTransitive(start, before, redis.cells, phone);
      UnlockShows(AfterCheck(locked, matches, creates), redis.now, redis.cells, phone);
      KeptTransitive(start, redis.cells, end, phone);
      KeysAfterBetween(redis.now, start, before, redis.cells, end, phone, otp, creates);
      LockIsApart(s, locked.lock, matches, creates);
      NeverInProgress(outcome, CountIn(redis.now, before, phone), record, otp, creates);
      redis.ReleaseLock(LockKey(phone));
    }
  }

  lemma NeverInProgress(outcome: Outcome, attempts: nat, record: Option<Record>, otp: string, creates: bool)
    requires Answers(outcome, attempts, record, otp, creates)
    ensures !outcome.InProgress?
  {
  }

  // The protocol's state and the record tell what became of the keys.
  lemma KeysFollow(s: P.State, now: int, before: map<string, Cell>, after: map<string, Cell>, phone: string, otp: string, creates: bool)
    requires Shows(s, now, before, phone)
    requires var record := RecordOf(now, before, phone);
      && Shows(AfterCheck(s, record.Some? && record.value.otp == otp, creates), now, after, phone)
      && RecordOf(now, after, phone) ==
         if CountIn(now, before, phone) < 5 && record.Some? && record.value.otp == otp && creates then None else record
    ensures KeysAfter(now, before, after, phone, otp, creates)
  {
  }

  // The block under the lock does not look at the lock.
  lemma LockIsApart(s: P.State, held: Option<int>, matches: bool, creates: bool)
    requires s.lock.None?
    ensures AfterCheck(s.(lock := held), matches, creates).(lock := None) == AfterVerify(s, matches, creates)
  {
  }

  lemma ShowsLock(s: P.State, now: int, cells: map<string, Cell>, phone: string)
    requires Shows(s, now, cells, phone)
    ensures Shaped(now, cells, phone) && s.now == now
    ensures s.lock.Some? <==> IsLive(now, cells, LockKey(phone))
    ensures OthersKept(cells, cells, phone)
  {
  }

  lemma KeptTransitive(a: map<string, Cell>, b: map<string, Cell>, c: map<string, Cell>, phone: string)
    requires OthersKept(a, b, phone) && OthersKept(b, c, phone)
    ensures OthersKept(a, c, phone)
  {
  }

  // Taking and releasing the lock changes nothing else that the protocol sees.
  lemma LockShows(s: P.State, now: int, cells: map<string, Cell>, phone: string)
    requires Shows(s, now, cells, phone)
    ensures var expires := Some(now + P.LOCK_TTL);
      var locked := cells[LockKey(phone) := Cell(Number(1), expires)];
      && Shaped(now, locked, phone)
      && Shows(s.(lock := expires), now, locked, phone)
      && SameKeys(now, cells, locked, phone)
      && RecordOf(now, locked, phone) == RecordOf(now, cells, phone)
      && CountIn(now, locked, phone) == CountIn(now, cells, phone)
      && OthersKept(cells, locked, phone)
  {
    KeysDiffer(phone);
  }

  lemma UnlockShows(s: P.State, now: int, cells: map<string, Cell>, phone: string)
    requires Shows(s, now, cells, phone)
    ensures Shows(s.(lock := None), now, cells - {LockKey(phone)}, phone)
    ensures OthersKept(cells, cells - {LockKey(phone)}, phone)
    ensures SameKeys(now, cells, cells - {LockKey(phone)}, phone)
    ensures !IsLive(now, cells - {LockKey(phone)}, LockKey(phone))
  {
    KeysDiffer(phone);
  }
}

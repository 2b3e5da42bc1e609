/** The odds fan-out: one relay broadcasts a log of payloads to clients, each with a bounded
    queue and a writer task of its own.  Clients that cannot keep up are dropped.
  */
module FanOut {
  import opened Wrappers
  import opened JsonStrings

  const QUEUE_DEPTH: nat := 256

  type Payload = bytes

  // -------------------------------------------------------- as a state machine

  // `joined` and `ended` record the stretch of the log that was offered to the client:
  // from when it was added to the set until it missed a payload or was taken out.
  datatype Client = Client(
    sent: seq<Payload>, inFlight: Option<Payload>, queue: seq<Payload>,
    writing: bool, member: bool, joined: Option<nat>, ended: Option<nat>)
  {
    function Stream(): seq<Payload> {
      sent + ((if inFlight.Some? then [inFlight.value] else []) + queue)
    }
  }

  // `dropping` are the clients that the running broadcast is disconnecting.
  datatype State = State(log: seq<Payload>, clients: map<nat, Client>, dropping: set<nat>)

  datatype Event =
    | Connect(id: nat)
    | Join(id: nat)
    | Broadcast(payload: Payload)
    | Discard(id: nat)          // disconnect, under the lock
    | Cancel(id: nat, delivered: bool) // the writer task ends; its last send may have gone out
    | Take(id: nat)             // queue.get
    | Send(id: nat)             // send_bytes returns
    | Fail(id: nat)             // send_bytes raises

  const NEW_CLIENT: Client := Client([], None, [], true, false, None, None)

  function Update(s: State, id: nat, c: Client): State {
    s.(clients := s.clients[id := c])
  }

  function Offer(c: Client, payload: Payload, position: nat): Client {
    if !c.member then c
    else if |c.queue| < QUEUE_DEPTH then c.(queue := c.queue + [payload])
    else c.(ended := Some(position))
  }

  // The put_nowait loop of one broadcast, which does not yield to other tasks.
  function OfferAll(s: State, payload: Payload): State {
    State(s.log + [payload],
          map id | id in s.clients :: Offer(s.clients[id], payload, |s.log|),
          s.dropping + set id | id in s.clients && s.clients[id].member && |s.clients[id].queue| >= QUEUE_DEPTH)
  }

  // The relay awaits each broadcast, disconnects included, before it starts the next.
  function Step(s: State, e: Event): Option<State> {
    match e
    case Connect(id) => if id in s.clients then None else Some(Update(s, id, NEW_CLIENT))
    case Join(id) =>
      if id !in s.clients || s.clients[id].joined.Some? || s.clients[id].ended.Some? then None
      else Some(Update(s, id, s.clients[id].(member := true, joined := Some(|s.log|))))
    case Broadcast(payload) =>
      if s.dropping != {} then None else Some(OfferAll(s, payload))
    case Discard(id) =>
      if id !in s.clients || !s.clients[id].member then None
      else
        var c := s.clients[id];
        Some(Update(s, id, c.(member := false, ended := if c.ended.Some? then c.ended else Some(|s.log|)))
             .(dropping := s.dropping - {id}))
    case Cancel(id, delivered) =>
      if id !in s.clients || s.clients[id].member || s.clients[id].joined.None? || !s.clients[id].writing then None
      else
        var c := s.clients[id];
        if delivered && c.inFlight.Some?
        then Some(Update(s, id, c.(sent := c.sent + [c.inFlight.value], inFlight := None, writing := false)))
        else Some(Update(s, id, c.(writing := false)))
    case Take(id) =>
      if id !in s.clients || !s.clients[id].writing || s.clients[id].inFlight.Some? || s.clients[id].queue == [] then None
      else
        var c := s.clients[id];
        Some(Update(s, id, c.(inFlight := Some(c.queue[0]), queue := c.queue[1..])))
    case Send(id) =>
      if id !in s.clients || !s.clients[id].writing || s.clients[id].inFlight.None? then None
      else
        var c := s.clients[id];
        Some(Update(s, id, c.(sent := c.sent + [c.inFlight.value], inFlight := None)))
    case Fail(id) =>
      if id !in s.clients || !s.clients[id].writing || s.clients[id].inFlight.None? then None
      else Some(Update(s, id, s.clients[id].(writing := false)))
  }

  function Run(s: State, events: seq<Event>): Option<State> {
    if events == [] then Some(s)
    else
      var before := Run(s, events[..|events| - 1]);
      if before.None? then None else Step(before.value, events[|events| - 1])
  }

  const EMPTY_STATE: State := State([], map[], {})

  // The stretch of the log between a client's two marks.
  function End(log: seq<Payload>, c: Client): nat {
    if c.ended.Some? then c.ended.value else |log|
  }

  ghost predicate ClientOk(log: seq<Payload>, c: Client) {
    && |c.queue| <= QUEUE_DEPTH
    && (c.joined.None? ==> c.Stream() == [] && !c.member && c.ended.None?)
    && (c.joined.Some? ==>
          && c.joined.value <= End(log, c) <= |log|
          && c.Stream() == log[c.joined.value..End(log, c)])
    && (c.joined.Some? && !c.member ==> c.ended.Some?)
    && (c.member && c.ended.Some? ==> c.ended.value < |log|)
  }

  ghost predicate Inv(s: State) {
    && (forall id | id in s.clients :: ClientOk(s.log, s.clients[id]))
    && DroppingOk(s)
  }

  lemma OfferKeeps(log: seq<Payload>, c: Client, payload: Payload)
    requires ClientOk(log, c) && (c.member ==> c.ended.None?)
    ensures ClientOk(log + [payload], Offer(c, payload, |log|))
  {
    var c' := Offer(c, payload, |log|);
    var log' := log + [payload];
    if c.joined.Some? {
      var j := c.joined.value;
      if c.member && |c.queue| < QUEUE_DEPTH {
        assert c'.Stream() == c.Stream() + [payload];
        assert log'[j..|log'|] == log[j..] + [payload];
      } else {
        assert c'.Stream() == c.Stream();
        assert log'[j..End(log', c')] == log[j..End(log, c)];
      }
    }
  }

  lemma WriterKeeps(log: seq<Payload>, c: Client)
    requires ClientOk(log, c)
    ensures c.inFlight.None? && c.queue != [] ==> ClientOk(log, c.(inFlight := Some(c.queue[0]), queue := c.queue[1..]))
    ensures c.inFlight.Some? ==> ClientOk(log, c.(sent := c.sent + [c.inFlight.value], inFlight := None))
  {
    if c.inFlight.None? && c.queue != [] {
      assert c.(inFlight := Some(c.queue[0]), queue := c.queue[1..]).Stream() == c.Stream();
    }
    if c.inFlight.Some? {
      assert c.(sent := c.sent + [c.inFlight.value], inFlight := None).Stream() == c.Stream();
    }
  }

  ghost predicate DroppingOk(s: State) {
    forall id :: id in s.dropping <==> id in s.clients && s.clients[id].member && s.clients[id].ended.Some?
  }

  lemma StepInv(s: State, e: Event)
    requires Inv(s) && Step(s, e).Some?
    ensures Inv(Step(s, e).value)
  {
    DroppingStep(s, e);
    var s' := Step(s, e).value;
    hide ClientOk;
    forall id | id in s'.clients
      ensures ClientOk(s'.log, s'.clients[id])
    {
      if id in s.clients {
        assert ClientOk(s.log, s.clients[id]);
        if e.Broadcast? {
          OfferKeeps(s.log, s.clients[id], e.payload);
        } else if id == e.id {
          OneClientStep(s, e);
        }
      } else {
        NewClientOk(s.log);
      }
    }
  }

  lemma NewClientOk(log: seq<Payload>)
    ensures ClientOk(log, NEW_CLIENT)
  {
  }

  lemma DroppingStep(s: State, e: Event)
    requires Inv(s) && Step(s, e).Some?
    ensures DroppingOk(Step(s, e).value)
  {
    if !e.Broadcast? && e.id in s.clients {
      assert ClientOk(s.log, s.clients[e.id]);
    }
    hide ClientOk;
  }

  lemma OneClientStep(s: State, e: Event)
    requires Inv(s) && !e.Broadcast? && Step(s, e).Some? && e.id in s.clients
    ensures ClientOk(s.log, Step(s, e).value.clients[e.id])
  {
    var c, c' := s.clients[e.id], Step(s, e).value.clients[e.id];
    assert ClientOk(s.log, c);
    WriterKeeps(s.log, c);
    if e.Join? {
      assert c'.Stream() == [] == s.log[|s.log|..];
    } else if e.Cancel? && e.delivered && c.inFlight.Some? {
      var sent := c.(sent := c.sent + [c.inFlight.value], inFlight := None);
      assert c'.Stream() == sent.Stream();
    } else if e.Discard? || e.Fail? || e.Cancel? {
      assert c'.Stream() == c.Stream();
    }
  }

  lemma {:induction false} RunInv(events: seq<Event>)
    requires Run(EMPTY_STATE, events).Some?
    ensures Inv(Run(EMPTY_STATE, events).value)
  {
    if events != [] {
      RunInv(events[..|events| - 1]);
      StepInv(Run(EMPTY_STATE, events[..|events| - 1]).value, events[|events| - 1]);
    }
  }

  // The fan-out refines a cursor into the log: in every reachable state what a client was
  // sent, is being sent and still has queued is, in order and without a gap, the stretch
  // of the log since it joined: up to now while it is a member that missed nothing, up to
  // the payload it missed or its departure otherwise.  Queues never exceed their bound.
  lemma RefinesCursor(events: seq<Event>, id: nat)
    requires Run(EMPTY_STATE, events).Some? && id in Run(EMPTY_STATE, events).value.clients
    ensures var s := Run(EMPTY_STATE, events).value; var c := s.clients[id];
      && |c.queue| <= 256
      && (c.joined.Some? ==>
            && c.joined.value <= End(s.log, c) <= |s.log|
            && c.Stream() == s.log[c.joined.value..End(s.log, c)]
            && c.sent <= s.log[c.joined.value..])
      && (c.member && id !in s.dropping ==> c.joined.Some? && c.Stream() == s.log[c.joined.value..])
  {
    RunInv(events);
    var s := Run(EMPTY_STATE, events).value;
    hide Run;
    var c := s.clients[id];
    assert ClientOk(s.log, c);
    if c.joined.Some? {
      var j, n := c.joined.value, |c.sent|;
      assert c.sent == c.Stream()[..n];
      assert s.log[j..End(s.log, c)] == s.log[j..][..End(s.log, c) - j];
    }
  }

  // A broadcast drops a client exactly when the client's queue is full, that is when at
  // least 256 payloads that were offered to it have not been sent.
  lemma DropsOnlyLaggards(events: seq<Event>, payload: Payload, id: nat)
    requires Run(EMPTY_STATE, events).Some?
    requires Step(Run(EMPTY_STATE, events).value, Broadcast(payload)).Some?
    ensures var s := Run(EMPTY_STATE, events).value; var s' := Step(s, Broadcast(payload)).value;
      && (id in s'.dropping <==> id in s.clients && s.clients[id].member && |s.clients[id].queue| == 256)
      && (id in s'.dropping ==>
            && s.clients[id].joined.Some?
            && |s.log| - s.clients[id].joined.value - |s.clients[id].sent| >= 256)
  {
    RunInv(events);
    var s := Run(EMPTY_STATE, events).value;
    hide Run;
    if id in s.clients {
      assert ClientOk(s.log, s.clients[id]);
    }
  }

  // The relay must await its broadcasts: were one started while the last is still
  // disconnecting a client whose writer has made room again, that client would receive a
  // payload behind the one it missed.
  lemma OverlappingBroadcastsSkip(s: State, id: nat, payload: Payload)
    requires Inv(s) && id in s.dropping && |s.clients[id].queue| < QUEUE_DEPTH
    requires ClientOk(s.log, s.clients[id]) && s.log[s.clients[id].ended.value] != payload
    ensures var s' := OfferAll(s, payload); var c := s'.clients[id];
      forall hi: nat | c.joined.value <= hi <= |s'.log| :: c.Stream() != s'.log[c.joined.value..hi]
  {
    var c := s.clients[id];
    assert ClientOk(s.log, c);
    var s' := OfferAll(s, payload);
    var c' := s'.clients[id];
    assert c'.Stream() == c.Stream() + [payload];
    var j, missed := c.joined.value, c.ended.value;
    forall hi: nat | j <= hi <= |s'.log|
      ensures c'.Stream() != s'.log[j..hi]
    {
      if hi - j == |c'.Stream()| {
        assert c'.Stream()[missed - j] == payload;
        assert s'.log[j..hi][missed - j] == s'.log[missed] == s.log[missed];
      }
    }
  }

  // ------------------------------------------- operations as runs of the machine

  lemma OneMore(s: State, events: seq<Event>, e: Event) returns (more: seq<Event>)
    requires Run(s, events).Some?
    ensures Run(s, more) == Step(Run(s, events).value, e)
  {
    hide Step;
    more := events + [e];
    assert more[..|events|] == events;
  }

  function AfterConnect(s: State, id: nat): State {
    Update(s, id, NEW_CLIENT.(member := true, joined := Some(|s.log|)))
  }

  lemma ConnectIsRun(s: State, id: nat) returns (events: seq<Event>)
    requires id !in s.clients
    ensures Run(s, events) == Some(AfterConnect(s, id))
  {
    assert Run(s, []) == Some(s);
    events := OneMore(s, [], Connect(id));
    events := OneMore(s, events, Join(id));
    assert s.clients[id := NEW_CLIENT][id := AfterConnect(s, id).clients[id]] == AfterConnect(s, id).clients;
  }

  // A client taken out: not a member any more, its writer cancelled.
  function Out(c: Client, position: nat): Client {
    c.(member := false, writing := false, ended := if c.ended.Some? then c.ended else Some(position))
  }

  function AfterDisconnect(s: State, id: nat): State
    requires id in s.clients
  {
    Update(s, id, Out(s.clients[id], |s.log|)).(dropping := s.dropping - {id})
  }

  lemma {:induction false} DropIsRun(s: State, events: seq<Event>, id: nat) returns (more: seq<Event>)
    requires Run(s, events).Some?
    requires var m := Run(s, events).value; id in m.clients && m.clients[id].member && m.clients[id].joined.Some?
    ensures Run(s, more) == Some(AfterDisconnect(Run(s, events).value, id))
  {
    var m := Run(s, events).value;
    hide Run;
    var discarded := Step(m, Discard(id)).value;
    more := OneMore(s, events, Discard(id));
    if m.clients[id].writing {
      more := OneMore(s, more, Cancel(id, false));
    }
    assert discarded.clients[id := Out(m.clients[id], |m.log|)] == m.clients[id := Out(m.clients[id], |m.log|)];
    assert discarded.clients[id].writing == m.clients[id].writing;
  }

  // What one awaited broadcast amounts to: everyone is offered the payload, and those whose
  // queue was full are out.
  function AfterBroadcast(s: State, payload: Payload): State {
    Drop(OfferAll(s, payload), OfferAll(s, payload).dropping)
  }

  function Drop(s: State, ids: set<nat>): State {
    State(s.log,
          map id | id in s.clients :: if id in ids then Out(s.clients[id], |s.log|) else s.clients[id],
          s.dropping - ids)
  }

  ghost predicate MembersJoined(s: State) {
    forall id | id in s.clients && s.clients[id].member :: s.clients[id].joined.Some?
  }

  lemma {:induction false} DropsAreRun(s: State, events: seq<Event>, offered: State, done: set<nat>) returns (more: seq<Event>)
    requires Run(s, events) == Some(Drop(offered, done)) && MembersJoined(offered)
    requires done <= offered.dropping && forall id | id in offered.dropping :: id in offered.clients && offered.clients[id].member
    ensures Run(s, more) == Some(Drop(offered, offered.dropping))
    decreases offered.dropping - done
  {
    hide Run, Out;
    more := events;
    if done != offered.dropping {
      assert offered.dropping == done + (offered.dropping - done);
      var id :| id in offered.dropping - done;
      more := DropIsRun(s, events, id);
      DropOneMore(offered, done, id);
      more := DropsAreRun(s, more, offered, done + {id});
    }
  }

  lemma DropOneMore(offered: State, done: set<nat>, id: nat)
    requires id in offered.clients && id !in done
    ensures AfterDisconnect(Drop(offered, done), id) == Drop(offered, done + {id})
  {
    hide Out;
    var m := Drop(offered, done);
    assert m.dropping - {id} == offered.dropping - (done + {id});
    assert m.clients[id := Out(m.clients[id], |m.log|)] == Drop(offered, done + {id}).clients;
  }

  lemma BroadcastIsRun(s: State, payload: Payload) returns (events: seq<Event>)
    requires s.dropping == {} && MembersJoined(s)
    ensures Run(s, events) == Some(AfterBroadcast(s, payload))
  {
    assert Run(s, []) == Some(s);
    events := OneMore(s, [], Broadcast(payload));
    var offered := OfferAll(s, payload);
    assert Drop(offered, {}) == offered;
    hide Run;
    events := DropsAreRun(s, events, offered, {});
  }

  // One round of a writer that has something to send.
  function AfterRound(s: State, id: nat, sends: bool): State
    requires id in s.clients
  {
    var c := s.clients[id];
    if !c.writing || c.queue == [] then s
    else if sends then Update(s, id, c.(sent := c.sent + [c.queue[0]], queue := c.queue[1..]))
    else Update(s, id, c.(inFlight := Some(c.queue[0]), queue := c.queue[1..], writing := false))
  }

  lemma RoundIsRun(s: State, id: nat, sends: bool) returns (events: seq<Event>)
    requires id in s.clients && (s.clients[id].writing ==> s.clients[id].inFlight.None?)
    ensures Run(s, events) == Some(AfterRound(s, id, sends))
  {
    events := [];
    assert Run(s, []) == Some(s);
    var c := s.clients[id];
    if c.writing && c.queue != [] {
      var taken := c.(inFlight := Some(c.queue[0]), queue := c.queue[1..]);
      var after := AfterRound(s, id, sends).clients[id];
      assert s.clients[id := taken][id := after] == s.clients[id := after];
      events := OneMore(s, [], Take(id));
      events := OneMore(s, events, if sends then Send(id) else Fail(id));
    }
  }

  // ------------------------------------------------------------ as an object

  class ClientConnection {
    var queue: seq<Payload>
    var sent: seq<Payload>
    var writing: bool

    constructor ()
      ensures queue == [] && sent == [] && writing
    {
      queue, sent, writing := [], [], true;
    }

    // put_nowait; false is the exception QueueFull.
    method PutNowait(payload: Payload) returns (ok: bool)
      modifies this`queue
      ensures ok <==> old(|queue|) < QUEUE_DEPTH
      ensures queue == if ok then old(queue) + [payload] else old(queue)
    {
      if |queue| >= QUEUE_DEPTH {
        return false;
      }
      queue := queue + [payload];
      return true;
    }
  }

  // The objects show the state, client by client; between its rounds a running writer has
  // nothing in flight.
  ghost predicate Shows(s: State, clients: set<ClientConnection>, ids: map<nat, ClientConnection>)
    reads ids.Values
  {
    && ids.Keys == s.clients.Keys
    && (forall c | c in clients :: c in ids.Values)
    && (forall i, j | i in ids && j in ids && i != j :: ids[i] != ids[j])
    && (forall id | id in ids :: ShowsClient(s.clients[id], ids[id], clients))
  }

  ghost predicate ShowsClient(c: Client, connection: ClientConnection, clients: set<ClientConnection>)
    reads connection
  {
    && (connection in clients <==> c.member) && connection.queue == c.queue && connection.sent == c.sent
    && connection.writing == c.writing && (c.writing ==> c.inFlight.None?)
  }

  class ConnectionManager {
    var clients: set<ClientConnection>

    constructor ()
      ensures clients == {} && Shows(EMPTY_STATE, clients, map[])
    {
      clients := {};
    }

    // After the handshake; `id` is any number not used before.
    method Connect(ghost s: State, ghost ids: map<nat, ClientConnection>, ghost id: nat) returns (client: ClientConnection)
      requires Shows(s, clients, ids) && id !in s.clients
      modifies this
      ensures fresh(client) && clients == old(clients) + {client}
      ensures Shows(AfterConnect(s, id), clients, ids[id := client])
    {
      client := new ClientConnection();
      clients := clients + {client};
      ghost var ids' := ids[id := client];
      forall c | c in clients
        ensures c in ids'.Values
      {
        if c != client {
          var i :| i in ids && ids[i] == c;
          assert ids'[i] == c;
        } else {
          assert ids'[id] == c;
        }
      }
      forall i | i in ids
        ensures ids[i] != client && ShowsClient(s.clients[i], ids[i], clients)
      {
        assert ids[i] in ids.Values && old(allocated(ids[i]));
      }
    }

    method Disconnect(client: ClientConnection)
      modifies this, client`writing
      ensures clients == old(clients) - {client}
      ensures !client.writing
    {
      clients := clients - {client};
      client.writing := false;
    }

    // Offers the payload to every client, then disconnects those whose queue was full.
    method Broadcast(payload: Payload)
      modifies this, clients`queue, clients`writing
      ensures clients == set c | c in old(clients) && old(|c.queue|) < QUEUE_DEPTH
      ensures forall c | c in old(clients) ::
                c.queue == if old(|c.queue|) < QUEUE_DEPTH then old(c.queue) + [payload] else old(c.queue)
      ensures forall c | c in old(clients) :: c.writing == (old(c.writing) && c in clients)
    {
      ghost var all := clients;
      var left := clients;
      var stale: set<ClientConnection> := {};
      while left != {}
        invariant left <= all && stale <= all - left && clients == all == old(clients)
        invariant forall c | c in left :: c.queue == old(c.queue)
        invariant forall c | c in all - left ::
                    c.queue == if old(|c.queue|) < QUEUE_DEPTH then old(c.queue) + [payload] else old(c.queue)
        invariant forall c | c in all - left :: c in stale <==> old(|c.queue|) >= QUEUE_DEPTH
        invariant forall c | c in all :: c.writing == old(c.writing)
        decreases left
      {
        var client :| client in left;
        left := left - {client};
        var ok := client.PutNowait(payload);
        if !ok {
          stale := stale + {client};
        }
      }
      ghost var dropped := stale;
      while stale != {}
        invariant stale <= dropped <= all
        invariant clients == all - (dropped - stale)
        invariant forall c | c in all ::
                    c.queue == if old(|c.queue|) < QUEUE_DEPTH then old(c.queue) + [payload] else old(c.queue)
        invariant forall c | c in all :: c.writing == (old(c.writing) && c in clients)
        decreases stale
      {
        var client :| client in stale;
        stale := stale - {client};
        Disconnect(client);
      }
    }

    // One round of the writer task, which waits while the queue is empty and ends when a
    // send raises.
    method WriterRound(client: ClientConnection, sends: bool, ghost s: State, ghost ids: map<nat, ClientConnection>, ghost id: nat)
      requires Shows(s, clients, ids) && id in ids && ids[id] == client
      modifies client
      ensures Shows(AfterRound(s, id, sends), clients, ids)
    {
      if client.writing && client.queue != [] {
        var payload := client.queue[0];
        client.queue := client.queue[1..];
        if sends {
          client.sent := client.sent + [payload];
        } else {
          client.writing := false;
        }
      }
    }
  }

  // Disconnecting a member is the machine's Discard and Cancel.
  twostate lemma DisconnectShows(m: ConnectionManager, s: State, ids: map<nat, ClientConnection>, id: nat)
    requires old(Shows(s, m.clients, ids)) && id in ids && ids[id] in old(m.clients)
    requires m.clients == old(m.clients) - {ids[id]} && !ids[id].writing
    requires ids[id].queue == old(ids[id].queue) && ids[id].sent == old(ids[id].sent)
    requires forall i | i in ids && i != id :: unchanged(ids[i])
    ensures Shows(AfterDisconnect(s, id), m.clients, ids)
  {
    forall i | i in ids
      ensures ShowsClient(AfterDisconnect(s, id).clients[i], ids[i], m.clients)
    {
      assert old(ShowsClient(s.clients[i], ids[i], m.clients));
    }
  }

  // A broadcast is the machine's Broadcast followed by the disconnects that it awaits.
  twostate lemma BroadcastShows(m: ConnectionManager, s: State, ids: map<nat, ClientConnection>, payload: Payload)
    requires old(Shows(s, m.clients, ids)) && s.dropping == {}
    requires m.clients == set c | c in old(m.clients) && old(|c.queue|) < QUEUE_DEPTH
    requires forall c | c in old(m.clients) ::
               c.queue == if old(|c.queue|) < QUEUE_DEPTH then old(c.queue) + [payload] else old(c.queue)
    requires forall c | c in old(m.clients) :: c.writing == (old(c.writing) && c in m.clients)
    requires forall c | c in ids.Values :: c.sent == old(c.sent)
    requires forall c | c in ids.Values && c !in old(m.clients) :: unchanged(c)
    ensures Shows(AfterBroadcast(s, payload), m.clients, ids)
  {
    ghost var after := AfterBroadcast(s, payload);
    assert after.clients.Keys == s.clients.Keys;
    hide OfferAll, Drop, AfterBroadcast;
    forall i | i in ids
      ensures ShowsClient(after.clients[i], ids[i], m.clients)
    {
      assert old(ShowsClient(s.clients[i], ids[i], m.clients));
      assert ids[i] in ids.Values;
      ClientAfterBroadcast(s, i, payload);
    }
  }

  // Client by client: offered, dropped, or not concerned.
  lemma ClientAfterBroadcast(s: State, id: nat, payload: Payload)
    requires id in s.clients && s.dropping == {}
    ensures id in AfterBroadcast(s, payload).clients
    ensures var c, c' := s.clients[id], AfterBroadcast(s, payload).clients[id];
      && (!c.member ==> c' == c)
      && (c.member && |c.queue| < QUEUE_DEPTH ==> c' == c.(queue := c.queue + [payload]))
      && (c.member && |c.queue| >= QUEUE_DEPTH ==> c' == c.(member := false, writing := false, ended := Some(|s.log|)))
  {
  }
}

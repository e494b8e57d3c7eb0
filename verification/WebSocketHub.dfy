/** The websocket fan-out hub: a bounded broadcast queue, a client set guarded by
    a lock, and one bounded channel per client, as interleaved steps. */
module WebSocketHub {
  import opened Text
  import opened Sequences

  const CAPACITY: nat := 256

  type ClientId = nat
  type Event = nat
  type Sub = nat

  /** Whether a subscription's filters accept an event. */
  type Matches = (Sub, Event) -> bool

  /** A client's send channel, its subscription, and what its writer has taken. */
  datatype Client = Client(queue: seq<Event>, closed: bool, sub: Option<Sub>, received: seq<Event>)

  /** panicked: a send on a closed channel or a second close has happened. */
  datatype Hub = Hub(pending: seq<Event>, registered: set<ClientId>, clients: map<ClientId, Client>, running: bool,
                     panicked: bool)

  const NEW_CLIENT := Client([], false, None, [])
  const INIT := Hub([], {}, map[], true, false)

  datatype Step =
    | Broadcast(event: Event)
    | Dispatch
    | Connect(id: ClientId)
    | Unregister(id: ClientId)
    | Shutdown
    | Subscribe(id: ClientId, sub: Sub)
    | Drain(id: ClientId, count: nat)

  predicate Wants(c: Client, e: Event, matches: Matches) {
    c.sub.None? || matches(c.sub.value, e)
  }

  /** A non-blocking send: dropped when the buffer is full. */
  function Offer(c: Client, e: Event, matches: Matches): Client {
    if Wants(c, e, matches) && !c.closed && |c.queue| < CAPACITY then c.(queue := c.queue + [e]) else c
  }

  function Offers(s: Hub, e: Event, matches: Matches): map<ClientId, Client> {
    map id | id in s.clients :: if id in s.registered then Offer(s.clients[id], e, matches) else s.clients[id]
  }

  function ClosedAll(s: Hub): map<ClientId, Client> {
    map id | id in s.clients :: if id in s.registered then s.clients[id].(closed := true) else s.clients[id]
  }

  /** A send or a close in this step hits a closed channel. */
  predicate Panics(s: Hub, step: Step, matches: Matches) {
    match step
    case Dispatch => s.running && s.pending != []
      && exists id :: id in s.registered && id in s.clients && s.clients[id].closed
           && Wants(s.clients[id], s.pending[0], matches)
    case Unregister(id) => id in s.registered && id in s.clients && s.clients[id].closed
    case Shutdown => s.running && exists id :: id in s.registered && id in s.clients && s.clients[id].closed
    case _ => false
  }

  function Effect(s: Hub, step: Step, matches: Matches): Hub {
    match step
    case Broadcast(e) => if |s.pending| < CAPACITY then s.(pending := s.pending + [e]) else s
    case Dispatch =>
      if s.running && s.pending != []
      then s.(pending := s.pending[1..], clients := Offers(s, s.pending[0], matches)) else s
    case Connect(id) =>
      if id in s.clients then s else s.(registered := s.registered + {id}, clients := s.clients[id := NEW_CLIENT])
    case Unregister(id) =>
      if id in s.registered && id in s.clients
      then s.(registered := s.registered - {id}, clients := s.clients[id := s.clients[id].(closed := true)])
      else s
    case Shutdown => if s.running then s.(running := false, registered := {}, clients := ClosedAll(s)) else s
    case Subscribe(id, sub) =>
      if id in s.clients then s.(clients := s.clients[id := s.clients[id].(sub := Some(sub))]) else s
    case Drain(id, count) =>
      if id in s.clients && count <= |s.clients[id].queue|
      then var c := s.clients[id];
           s.(clients := s.clients[id := c.(queue := c.queue[count..], received := c.received + c.queue[..count])])
      else s
  }

  function Next(s: Hub, step: Step, matches: Matches): Hub {
    Effect(s, step, matches).(panicked := s.panicked || Panics(s, step, matches))
  }

  function Exec(steps: seq<Step>, matches: Matches): Hub {
    if steps == [] then INIT else Next(Exec(steps[..|steps| - 1], matches), steps[|steps| - 1], matches)
  }

  // ---------------------------------------------------------------------------
  // What the run offered, independently of the queues
  // ---------------------------------------------------------------------------

  predicate Dispatches(s: Hub, step: Step) {
    step.Dispatch? && s.running && s.pending != []
  }

  /** The events the hub's loop took from the broadcast queue, in order. */
  function Dispatched(steps: seq<Step>, matches: Matches): seq<Event> {
    if steps == [] then []
    else
      var before := steps[..|steps| - 1];
      var s := Exec(before, matches);
      Dispatched(before, matches) + if Dispatches(s, steps[|steps| - 1]) then [s.pending[0]] else []
  }

  /** The events the broadcast queue accepted, in order. */
  function Accepted(steps: seq<Step>, matches: Matches): seq<Event> {
    if steps == [] then []
    else
      var before := steps[..|steps| - 1];
      var last := steps[|steps| - 1];
      Accepted(before, matches) + if last.Broadcast? && |Exec(before, matches).pending| < CAPACITY then [last.event]
                                  else []
  }

  /** The client was registered and its subscription of that moment accepted the event. */
  predicate OfferedTo(s: Hub, step: Step, id: ClientId, matches: Matches) {
    Dispatches(s, step) && id in s.registered && id in s.clients && Wants(s.clients[id], s.pending[0], matches)
  }

  function Offered(steps: seq<Step>, id: ClientId, matches: Matches): seq<Event> {
    if steps == [] then []
    else
      var before := steps[..|steps| - 1];
      var s := Exec(before, matches);
      Offered(before, id, matches) + if OfferedTo(s, steps[|steps| - 1], id, matches) then [s.pending[0]] else []
  }

  /** Some offer found the client's buffer full. */
  predicate Overflowed(steps: seq<Step>, id: ClientId, matches: Matches) {
    steps != [] &&
    var before := steps[..|steps| - 1];
    var s := Exec(before, matches);
    || Overflowed(before, id, matches)
    || (OfferedTo(s, steps[|steps| - 1], id, matches) && |s.clients[id].queue| >= CAPACITY)
  }

  // ---------------------------------------------------------------------------
  // Invariants
  // ---------------------------------------------------------------------------

  predicate Valid(s: Hub) {
    && !s.panicked
    && |s.pending| <= CAPACITY
    && s.registered <= s.clients.Keys
    && (forall id :: id in s.clients ==> (id in s.registered <==> !s.clients[id].closed))
    && (forall id :: id in s.clients ==> |s.clients[id].queue| <= CAPACITY)
  }

  lemma StepKeepsValid(s: Hub, step: Step, matches: Matches)
    requires Valid(s)
    ensures Valid(Next(s, step, matches))
  {}

  /** In every interleaving no send reaches a closed channel, no channel is closed
      twice, and every queue stays within its capacity. */
  lemma {:induction false} NeverPanics(steps: seq<Step>, matches: Matches)
    ensures Valid(Exec(steps, matches)) && !Exec(steps, matches).panicked
    ensures var s := Exec(steps, matches);
            && (forall id :: id in s.registered <==> id in s.clients && !s.clients[id].closed)
            && |s.pending| <= 256 && forall id :: id in s.clients ==> |s.clients[id].queue| <= 256
  {
    if steps != [] {
      NeverPanics(steps[..|steps| - 1], matches);
      StepKeepsValid(Exec(steps[..|steps| - 1], matches), steps[|steps| - 1], matches);
    }
  }

  /** Everything delivered or waiting for delivery, in order. */
  function Delivery(s: Hub, id: ClientId): seq<Event> {
    if id in s.clients then s.clients[id].received + s.clients[id].queue else []
  }

  lemma StepDelivery(s: Hub, step: Step, id: ClientId, matches: Matches)
    requires Valid(s)
    ensures Delivery(Next(s, step, matches), id)
         == if OfferedTo(s, step, id, matches) && |s.clients[id].queue| < CAPACITY
            then Delivery(s, id) + [s.pending[0]] else Delivery(s, id)
  {
    if id in s.clients {
      var c := s.clients[id];
      if step.Drain? && step.id == id && step.count <= |c.queue| {
        assert c.received + c.queue[..step.count] + c.queue[step.count..] == c.received + c.queue;
      } else if OfferedTo(s, step, id, matches) {
        assert c.received + (c.queue + [s.pending[0]]) == c.received + c.queue + [s.pending[0]];
      }
    }
  }

  /** A client receives, in order, a subsequence of the events offered to it, and
      all of them unless its buffer was full at some offer. */
  lemma {:induction false} DeliveryInOrder(steps: seq<Step>, id: ClientId, matches: Matches)
    ensures Subsequence(Delivery(Exec(steps, matches), id), Offered(steps, id, matches))
    ensures Delivery(Exec(steps, matches), id) == Offered(steps, id, matches) <==> !Overflowed(steps, id, matches)
    ensures |Delivery(Exec(steps, matches), id)| <= |Offered(steps, id, matches)|
  {
    if steps != [] {
      var before, last := steps[..|steps| - 1], steps[|steps| - 1];
      var s := Exec(before, matches);
      DeliveryInOrder(before, id, matches);
      NeverPanics(before, matches);
      StepDelivery(s, last, id, matches);
      if OfferedTo(s, last, id, matches) {
        SubsequenceExtend(Delivery(s, id), Offered(before, id, matches), s.pending[0]);
        AppendCancels(Delivery(s, id), Offered(before, id, matches), s.pending[0]);
      } else {
        assert Offered(steps, id, matches) == Offered(before, id, matches);
      }
    }
  }

  /** What was offered to a client is an in-order part of what was dispatched. */
  lemma {:induction false} OfferedInOrder(steps: seq<Step>, id: ClientId, matches: Matches)
    ensures Subsequence(Offered(steps, id, matches), Dispatched(steps, matches))
  {
    if steps != [] {
      var before := steps[..|steps| - 1];
      var s := Exec(before, matches);
      OfferedInOrder(before, id, matches);
      if Dispatches(s, steps[|steps| - 1]) {
        SubsequenceExtend(Offered(before, id, matches), Dispatched(before, matches), s.pending[0]);
        assert Offered(before, id, matches) + [] == Offered(before, id, matches);
      } else {
        assert Offered(steps, id, matches) == Offered(before, id, matches);
        assert Dispatched(steps, matches) == Dispatched(before, matches);
      }
    }
  }

  /** The broadcast queue is first in, first out and loses nothing it accepted. */
  lemma {:induction false} BroadcastFifo(steps: seq<Step>, matches: Matches)
    ensures Dispatched(steps, matches) + Exec(steps, matches).pending == Accepted(steps, matches)
  {
    if steps != [] {
      var before := steps[..|steps| - 1];
      var s := Exec(before, matches);
      BroadcastFifo(before, matches);
      var last := steps[|steps| - 1];
      if Dispatches(s, last) {
        assert s.pending == [s.pending[0]] + s.pending[1..];
      }
    }
  }

  /** End to end: a client gets an in-order part of the accepted events. */
  lemma EndToEnd(steps: seq<Step>, id: ClientId, matches: Matches)
    ensures Subsequence(Delivery(Exec(steps, matches), id), Accepted(steps, matches))
  {
    var delivery := Delivery(Exec(steps, matches), id);
    var offered, dispatched := Offered(steps, id, matches), Dispatched(steps, matches);
    DeliveryInOrder(steps, id, matches);
    OfferedInOrder(steps, id, matches);
    SubsequenceTransitive(delivery, offered, dispatched);
    BroadcastFifo(steps, matches);
    SubsequenceAppend(delivery, dispatched, Exec(steps, matches).pending);
  }

  /** Once a client has left, its channel stays closed and gets nothing more. */
  lemma LeftForGood(s: Hub, step: Step, id: ClientId, matches: Matches)
    requires Valid(s) && id in s.clients && s.clients[id].closed
    ensures var next := Next(s, step, matches);
            && id in next.clients && next.clients[id].closed && id !in next.registered
            && Delivery(next, id) == Delivery(s, id)
  {
    StepDelivery(s, step, id, matches);
  }

  // ---------------------------------------------------------------------------
  // What one dispatch gives to one client
  // ---------------------------------------------------------------------------

  /** A dispatched event reaches every registered client with room whose filter
      accepts it, and every one with room that has set no filter; it reaches no
      other client, and the queue of pending events moves on. */
  lemma DispatchReaches(steps: seq<Step>, id: ClientId, matches: Matches)
    requires var s := Exec(steps, matches);
             s.running && s.pending != [] && id in s.registered && id in s.clients && |s.clients[id].queue| < CAPACITY
    ensures var s := Exec(steps, matches);
            var c, next := s.clients[id], Exec(steps + [Dispatch], matches);
            && next.pending == s.pending[1..] && next.clients[id].received == c.received
            && next.clients[id].queue
               == if c.sub == None || matches(c.sub.value, s.pending[0]) then c.queue + [s.pending[0]] else c.queue
  {
    NeverPanics(steps, matches);
    assert (steps + [Dispatch])[..|steps|] == steps;
  }

  /** A full buffer, a client that has left, and a hub that has stopped get nothing. */
  lemma DispatchPassesBy(steps: seq<Step>, id: ClientId, matches: Matches)
    requires var s := Exec(steps, matches);
             id in s.clients && (!s.running || id !in s.registered || |s.clients[id].queue| == CAPACITY)
    ensures Exec(steps + [Dispatch], matches).clients[id] == Exec(steps, matches).clients[id]
  {
    NeverPanics(steps, matches);
    assert (steps + [Dispatch])[..|steps|] == steps;
  }

  /** The loop of a hub that has stopped does nothing more. */
  lemma StoppedForGood(s: Hub, matches: Matches)
    requires !s.running
    ensures Next(s, Dispatch, matches) == s && Next(s, Shutdown, matches) == s
  {}

  /** Sending to a closed channel and closing one again are what a panic is. */
  lemma PanicsOnClosed(s: Hub, id: ClientId, matches: Matches)
    requires id in s.registered && id in s.clients && s.clients[id].closed && s.running
    ensures Next(s, Unregister(id), matches).panicked && Next(s, Shutdown, matches).panicked
    ensures s.pending != [] && s.clients[id].sub == None ==> Next(s, Dispatch, matches).panicked
  {}

  /** The writer takes the oldest events of its queue, in order, and no others. */
  lemma DrainTakes(s: Hub, id: ClientId, count: nat, other: ClientId, matches: Matches)
    requires id in s.clients && count <= |s.clients[id].queue| && other != id
    ensures var c, next := s.clients[id], Next(s, Drain(id, count), matches);
            && id in next.clients && next.clients[id].queue == c.queue[count..]
            && next.clients[id].received == c.received + c.queue[..count]
            && next.clients[id].closed == c.closed && next.clients[id].sub == c.sub
            && (other in s.clients ==> other in next.clients && next.clients[other] == s.clients[other])
  {}

  /** A new client is registered, open and empty, and has no filter; a subscription
      message sets the filter of its client and nothing else. */
  lemma ClientsCome(steps: seq<Step>, id: ClientId, sub: Sub, other: ClientId, matches: Matches)
    requires id !in Exec(steps, matches).clients && other != id
    ensures var s := Exec(steps, matches);
            var joined := Exec(steps + [Connect(id)], matches);
            var subscribed := Exec(steps + [Connect(id)] + [Subscribe(id, sub)], matches);
            && joined.clients[id] == Client([], false, None, []) && joined.registered == s.registered + {id}
            && subscribed.clients[id] == Client([], false, Some(sub), []) && subscribed.registered == joined.registered
            && (other in s.clients ==> other in subscribed.clients && subscribed.clients[other] == s.clients[other])
  {
    assert (steps + [Connect(id)])[..|steps|] == steps;
    assert (steps + [Connect(id)] + [Subscribe(id, sub)])[..|steps + [Connect(id)]|] == steps + [Connect(id)];
  }

  /** Leaving closes the channel and keeps what is waiting in it; a shutdown does so
      for every registered client and stops the loop. */
  lemma ClientsGo(steps: seq<Step>, id: ClientId, other: ClientId, matches: Matches)
    requires var s := Exec(steps, matches); id in s.registered && other in s.clients && other != id
    ensures var s := Exec(steps, matches);
            var left, stopped := Exec(steps + [Unregister(id)], matches), Exec(steps + [Shutdown], matches);
            && id !in left.registered && left.clients[id] == s.clients[id].(closed := true)
            && left.clients[other] == s.clients[other] && (other in left.registered <==> other in s.registered)
            && (s.running ==> !stopped.running && stopped.registered == {} && stopped.clients[id].closed)
            && stopped.clients[id].queue == s.clients[id].queue
  {
    NeverPanics(steps, matches);
    assert (steps + [Unregister(id)])[..|steps|] == steps;
    assert (steps + [Shutdown])[..|steps|] == steps;
  }

  // ---------------------------------------------------------------------------
  // The hub object
  // ---------------------------------------------------------------------------

  class StreamHub {
    const matches: Matches
    var pending: seq<Event>
    var registered: set<ClientId>
    var clients: map<ClientId, Client>
    var running: bool

    ghost function Contents(): Hub
      reads this
    {
      Hub(pending, registered, clients, running, false)
    }

    constructor (matches: Matches)
      ensures Contents() == INIT && this.matches == matches
    {
      this.matches := matches;
      pending, registered, clients, running := [], {}, map[], true;
    }

    method BroadcastEvent(event: Event)
      modifies this`pending
      ensures Contents() == Next(old(Contents()), Broadcast(event), matches)
    {
      if |pending| < CAPACITY {
        pending := pending + [event];
      }
    }

    /** The send to every matching client; each send finds its channel open. */
    method SendToClients(event: Event)
      requires Valid(Contents())
      modifies this`clients
      ensures clients == Offers(old(Contents()), event, matches)
    {
      var todo := registered;
      ghost var before := clients;
      while todo != {}
        invariant todo <= registered && clients.Keys == before.Keys
        invariant forall id :: id in before ==>
          clients[id] == if id in registered && id !in todo then Offer(before[id], event, matches) else before[id]
        decreases todo
      {
        var id :| id in todo;
        todo := todo - {id};
        var c := clients[id];
        if c.sub.None? || matches(c.sub.value, event) {
          assert !c.closed;
          if |c.queue| < CAPACITY {
            clients := clients[id := c.(queue := c.queue + [event])];
          }
        }
      }
    }

    method RunOnce()
      requires Valid(Contents())
      modifies this`pending, this`clients
      ensures Contents() == Next(old(Contents()), Dispatch, matches)
    {
      if running && pending != [] {
        var event := pending[0];
        SendToClients(event);
        pending := pending[1..];
      }
    }

    method RegisterClient(id: ClientId)
      requires id !in clients
      modifies this`registered, this`clients
      ensures Contents() == Next(old(Contents()), Connect(id), matches)
    {
      registered := registered + {id};
      clients := clients[id := NEW_CLIENT];
    }

    /** The close of a registered client finds its channel open. */
    method UnregisterClient(id: ClientId)
      requires Valid(Contents())
      modifies this`registered, this`clients
      ensures Contents() == Next(old(Contents()), Step.Unregister(id), matches)
    {
      if id in registered {
        registered := registered - {id};
        assert !clients[id].closed;
        clients := clients[id := clients[id].(closed := true)];
      }
    }

    method CloseAllClients()
      requires Valid(Contents()) && running
      modifies this`registered, this`clients, this`running
      ensures Contents() == Next(old(Contents()), Shutdown, matches)
    {
      ghost var before, all := clients, registered;
      running := false;
      while registered != {}
        invariant !running && registered <= all <= before.Keys && clients.Keys == before.Keys
        invariant forall id :: id in before ==>
          clients[id] == if id in all && id !in registered then before[id].(closed := true) else before[id]
        decreases registered
      {
        var id :| id in registered;
        assert !clients[id].closed;
        clients := clients[id := clients[id].(closed := true)];
        registered := registered - {id};
      }
      assert clients == ClosedAll(old(Contents()));
    }

    /** The writer's batch: one blocking receive, then what is already waiting. No
        receive of the batch can find the channel empty. */
    method WriteBatch(id: ClientId) returns (batch: seq<Event>)
      requires id in clients && clients[id].queue != []
      modifies this`clients
      ensures batch == old(clients[id].queue)
      ensures Contents() == Next(old(Contents()), Step.Drain(id, |batch|), matches)
    {
      ghost var before := clients[id];
      var c := clients[id];
      batch := [c.queue[0]];
      c := c.(queue := c.queue[1..]);
      var n := |c.queue|;
      for i := 0 to n
        invariant batch == before.queue[..i + 1] && c == before.(queue := before.queue[i + 1..])
      {
        batch := batch + [c.queue[0]];
        c := c.(queue := c.queue[1..]);
      }
      clients := clients[id := c.(received := c.received + batch)];
    }
  }
}

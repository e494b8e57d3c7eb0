/** The in-process event bus: subscriber channels in a map keyed by the text of a
    rune, with the NATS forwarding off. Publishing holds a read lock only, so any
    number of publishes may send at the same time, in any order; everything else
    that touches the map holds the write lock. */
module EventBus {
  import opened Text
  import opened Sequences

  const CAPACITY: nat := 100

  /** An event stands for the call that publishes it, counting from 0. */
  type Event = nat

  /** The n-th subscription, counting from 1. */
  type Ticket = nat

  /** The key of the n-th subscription: a code point, with the replacement
      character for surrogates and for numbers beyond the last code point. */
  function KeyOf(n: nat): nat {
    if n < 0xD800 || 0xE000 <= n <= 0x10FFFF then n else 0xFFFD
  }

  datatype Channel = Channel(queue: seq<Event>, closed: bool, received: seq<Event>)

  /** open maps every publish in progress to the keys it has yet to visit. */
  datatype State = State(nextID: nat, subscribers: map<nat, Ticket>, channels: map<Ticket, Channel>,
                         nextEvent: nat, open: map<Event, set<nat>>, panicked: bool)

  const EMPTY := Channel([], false, [])
  const INIT := State(0, map[], map[], 0, map[], false)

  datatype Step =
    | Begin
    | Send(event: Event, key: nat)
    | Finish(event: Event)
    | Subscribe
    | Unsubscribe(ticket: Ticket)
    | Close
    | Receive(ticket: Ticket)

  function Offer(c: Channel, e: Event): Channel {
    if !c.closed && |c.queue| < CAPACITY then c.(queue := c.queue + [e]) else c
  }

  /** The channel is reachable through the map. */
  predicate Mapped(s: State, t: Ticket) {
    exists k :: k in s.subscribers && s.subscribers[k] == t
  }

  function Published(s: State, e: Event): map<Ticket, Channel> {
    map t | t in s.channels :: if Mapped(s, t) then Offer(s.channels[t], e) else s.channels[t]
  }

  function ClosedAll(s: State): map<Ticket, Channel> {
    map t | t in s.channels :: if Mapped(s, t) then s.channels[t].(closed := true) else s.channels[t]
  }

  function Without<V>(m: map<nat, V>, key: nat): map<nat, V> {
    map k | k in m && k != key :: m[k]
  }

  /** The publish has the key still to visit. */
  predicate Visits(s: State, e: Event, key: nat) {
    e in s.open && key in s.open[e] && key in s.subscribers && s.subscribers[key] in s.channels
  }

  predicate Panics(s: State, step: Step) {
    match step
    case Send(e, key) => Visits(s, e, key) && s.channels[s.subscribers[key]].closed
    case Close => s.open == map[] && exists t :: t in s.channels && Mapped(s, t) && s.channels[t].closed
    case Unsubscribe(t) => s.open == map[] && t in s.channels && KeyOf(t) in s.subscribers && s.channels[t].closed
    case _ => false
  }

  function Effect(s: State, step: Step): State {
    match step
    case Begin => s.(nextEvent := s.nextEvent + 1, open := s.open[s.nextEvent := s.subscribers.Keys])
    case Send(e, key) =>
      if Visits(s, e, key)
      then var t := s.subscribers[key];
           s.(channels := s.channels[t := Offer(s.channels[t], e)], open := s.open[e := s.open[e] - {key}])
      else s
    case Finish(e) => if e in s.open && s.open[e] == {} then s.(open := Without(s.open, e)) else s
    case Subscribe =>
      if s.open != map[] then s
      else
        var n := s.nextID + 1;
        s.(nextID := n, subscribers := s.subscribers[KeyOf(n) := n], channels := s.channels[n := EMPTY])
    case Unsubscribe(t) =>
      // The closure tests its key, and closes the channel it captured.
      if s.open == map[] && t in s.channels && KeyOf(t) in s.subscribers
      then s.(channels := s.channels[t := s.channels[t].(closed := true)],
              subscribers := Without(s.subscribers, KeyOf(t)))
      else s
    case Close => if s.open != map[] then s else s.(channels := ClosedAll(s), subscribers := map[])
    case Receive(t) =>
      if t in s.channels && s.channels[t].queue != []
      then var c := s.channels[t];
           s.(channels := s.channels[t := c.(queue := c.queue[1..], received := c.received + [c.queue[0]])])
      else s
  }

  function Next(s: State, step: Step): State {
    Effect(s, step).(panicked := s.panicked || Panics(s, step))
  }

  function ExecFrom(s: State, steps: seq<Step>): State {
    if steps == [] then s else Next(ExecFrom(s, steps[..|steps| - 1]), steps[|steps| - 1])
  }

  function Exec(steps: seq<Step>): State {
    ExecFrom(INIT, steps)
  }

  lemma ExecSnoc(s: State, steps: seq<Step>, step: Step)
    ensures ExecFrom(s, steps + [step]) == Next(ExecFrom(s, steps), step)
  {
    assert (steps + [step])[..|steps|] == steps;
  }

  lemma {:induction false} ExecAppend(s: State, first: seq<Step>, second: seq<Step>)
    ensures ExecFrom(s, first + second) == ExecFrom(ExecFrom(s, first), second)
  {
    if second == [] {
      assert first + second == first;
    } else {
      ExecAppend(s, first, second[..|second| - 1]);
      assert (first + second)[..|first + second| - 1] == first + second[..|second| - 1];
    }
  }

  lemma ExecTwo(s: State, a: Step, b: Step)
    ensures ExecFrom(s, [a] + [b]) == Next(Next(s, a), b)
  {
    assert [] + [a] == [a];
    ExecSnoc(s, [], a);
    ExecSnoc(s, [a], b);
  }

  // ---------------------------------------------------------------------------
  // Keys
  // ---------------------------------------------------------------------------

  /** The code points that are no surrogates stand for themselves; every other number
      gives the replacement character. */
  lemma KeyMeaning(n: nat)
    ensures n <= 0xD7FF || (n >= 0xE000 && n < 0x110000) ==> KeyOf(n) == n
    ensures (n >= 0xD800 && n <= 0xDFFF) || n >= 0x110000 ==> KeyOf(n) == 0xFFFD
  {}

  predicate DistinctKeys(n: nat) {
    forall i, j :: 1 <= i < j <= n ==> KeyOf(i) != KeyOf(j)
  }

  /** The keys of the first n subscriptions differ exactly when n is at most 0xD800. */
  lemma KeysDistinctExactly(n: nat)
    ensures DistinctKeys(n) <==> n <= 0xD800
  {
    if n > 0xD800 {
      assert KeyOf(0xD800) == KeyOf(0xD801);
    }
  }

  // ---------------------------------------------------------------------------
  // Invariants while the keys are distinct
  // ---------------------------------------------------------------------------

  /** The key of a subscription leads back to it. */
  predicate Keyed(s: State, t: Ticket) {
    KeyOf(t) in s.subscribers && s.subscribers[KeyOf(t)] == t
  }

  /** Map entries and open channels correspond one to one, and every publish in
      progress visits map entries only. */
  ghost predicate Valid(s: State) {
    && !s.panicked
    && (forall t :: t in s.channels <==> 1 <= t <= s.nextID)
    && (forall k :: k in s.subscribers ==>
          s.subscribers[k] in s.channels && KeyOf(s.subscribers[k]) == k && !s.channels[s.subscribers[k]].closed)
    && (forall t :: t in s.channels && !s.channels[t].closed ==> Keyed(s, t))
    && (forall t :: t in s.channels ==> |s.channels[t].queue| <= CAPACITY)
    && (forall e :: e in s.open ==> e < s.nextEvent && s.open[e] <= s.subscribers.Keys)
  }

  lemma MappedIsOpen(s: State, t: Ticket)
    requires Valid(s) && t in s.channels
    ensures Mapped(s, t) <==> !s.channels[t].closed
    ensures Mapped(s, t) <==> Keyed(s, t)
  {}

  lemma PublishedByKeys(s: State, e: Event, channels: map<Ticket, Channel>)
    requires Valid(s) && channels.Keys == s.channels.Keys
    requires forall t :: t in s.channels ==>
      channels[t] == if Keyed(s, t) then Offer(s.channels[t], e) else s.channels[t]
    ensures channels == Published(s, e)
  {
    forall t | t in s.channels
      ensures Mapped(s, t) <==> Keyed(s, t)
    {
      MappedIsOpen(s, t);
    }
  }

  /** The publish has dealt with the map entries that are not in todo. */
  ghost predicate Offering(s: State, e: Event, channels: map<Ticket, Channel>, todo: set<nat>) {
    && channels.Keys == s.channels.Keys && todo <= s.subscribers.Keys
    && forall t :: t in s.channels ==>
         channels[t] == if Keyed(s, t) && KeyOf(t) !in todo then Offer(s.channels[t], e) else s.channels[t]
  }

  function Midway(s: State, e: Event, channels: map<Ticket, Channel>, todo: set<nat>): State {
    State(s.nextID, s.subscribers, channels, s.nextEvent + 1, map[e := todo], false)
  }

  lemma OfferingStep(s: State, e: Event, channels: map<Ticket, Channel>, todo: set<nat>, id: nat)
    requires Valid(s) && Offering(s, e, channels, todo) && id in todo
    ensures var t := s.subscribers[id];
            && t in channels && !channels[t].closed
            && Offering(s, e, channels[t := Offer(channels[t], e)], todo - {id})
  {}

  lemma MidwaySend(s: State, e: Event, channels: map<Ticket, Channel>, todo: set<nat>, id: nat)
    requires id in todo && id in s.subscribers && s.subscribers[id] in channels && !channels[s.subscribers[id]].closed
    ensures var t := s.subscribers[id];
            Next(Midway(s, e, channels, todo), Send(e, id))
            == Midway(s, e, channels[t := Offer(channels[t], e)], todo - {id})
  {
    assert map[e := todo][e := todo - {id}] == map[e := todo - {id}];
  }

  /** The run so far has brought the publish here. */
  ghost predicate OfferingRun(s: State, e: Event, channels: map<Ticket, Channel>, todo: set<nat>, run: seq<Step>) {
    Offering(s, e, channels, todo) && ExecFrom(s, run) == Midway(s, e, channels, todo)
  }

  lemma OfferingBegins(s: State)
    requires Valid(s) && s.open == map[]
    ensures OfferingRun(s, s.nextEvent, s.channels, s.subscribers.Keys, [Begin])
  {
    assert [] + [Begin] == [Begin];
    ExecSnoc(s, [], Begin);
  }

  lemma OfferingGoesOn(s: State, e: Event, channels: map<Ticket, Channel>, todo: set<nat>, run: seq<Step>, id: nat)
    requires Valid(s) && OfferingRun(s, e, channels, todo, run) && id in todo
    ensures var t := s.subscribers[id];
            && t in channels && !channels[t].closed
            && OfferingRun(s, e, channels[t := Offer(channels[t], e)], todo - {id}, run + [Send(e, id)])
  {
    OfferingStep(s, e, channels, todo, id);
    MidwaySend(s, e, channels, todo, id);
    ExecSnoc(s, run, Send(e, id));
  }

  lemma OfferingEnds(s: State, e: Event, channels: map<Ticket, Channel>, run: seq<Step>)
    requires Valid(s) && OfferingRun(s, e, channels, {}, run)
    ensures channels == Published(s, e)
    ensures ExecFrom(s, run + [Finish(e)]) == State(s.nextID, s.subscribers, channels, s.nextEvent + 1, map[], false)
  {
    PublishedByKeys(s, e, channels);
    ExecSnoc(s, run, Finish(e));
    assert Without(Midway(s, e, channels, {}).open, e) == map[];
  }

  /** Close has dealt with the map entries that are not in todo. */
  ghost predicate Closing(s: State, channels: map<Ticket, Channel>, todo: set<nat>) {
    && channels.Keys == s.channels.Keys && todo <= s.subscribers.Keys
    && forall t :: t in s.channels ==>
         channels[t] == if Keyed(s, t) && KeyOf(t) !in todo then s.channels[t].(closed := true) else s.channels[t]
  }

  lemma ClosingStep(s: State, channels: map<Ticket, Channel>, todo: set<nat>, id: nat)
    requires Valid(s) && Closing(s, channels, todo) && id in todo
    ensures var t := s.subscribers[id];
            && t in channels && !channels[t].closed
            && Closing(s, channels[t := channels[t].(closed := true)], todo - {id})
  {}

  lemma ClosedByKeys(s: State, channels: map<Ticket, Channel>)
    requires Valid(s) && channels.Keys == s.channels.Keys
    requires forall t :: t in s.channels ==>
      channels[t] == if Keyed(s, t) then s.channels[t].(closed := true) else s.channels[t]
    ensures channels == ClosedAll(s) && !Panics(s, Close)
  {
    forall t | t in s.channels
      ensures Mapped(s, t) <==> Keyed(s, t)
    {
      MappedIsOpen(s, t);
    }
  }

  lemma SubscribeKeepsValid(s: State)
    requires Valid(s) && s.nextID < 0xD800
    ensures Valid(Next(s, Subscribe))
  {
    var n := s.nextID + 1;
    forall k | k in s.subscribers
      ensures k != KeyOf(n)
    {
      assert 1 <= s.subscribers[k] < n;
    }
  }

  lemma OtherKeys(s: State, t: Ticket, v: Ticket)
    requires Valid(s) && s.nextID <= 0xD800 && t in s.channels && v in s.channels && v != t
    ensures KeyOf(v) != KeyOf(t)
  {
    KeysDistinctExactly(s.nextID);
    assert v < t || t < v;
  }

  lemma UnsubscribeKeepsValid(s: State, t: Ticket)
    requires Valid(s) && s.nextID <= 0xD800
    ensures Valid(Next(s, Unsubscribe(t)))
  {
    if s.open == map[] && t in s.channels && KeyOf(t) in s.subscribers {
      var u := s.subscribers[KeyOf(t)];
      if u != t {
        OtherKeys(s, t, u);
      }
      forall v | v in s.channels && v != t
        ensures KeyOf(v) != KeyOf(t)
      {
        OtherKeys(s, t, v);
      }
    }
  }

  lemma CloseKeepsValid(s: State)
    requires Valid(s)
    ensures Valid(Next(s, Close))
  {
    forall t | t in s.channels
      ensures Mapped(s, t) <==> !s.channels[t].closed
    {
      MappedIsOpen(s, t);
    }
  }

  lemma SendKeepsValid(s: State, e: Event, key: nat)
    requires Valid(s)
    ensures Valid(Next(s, Send(e, key)))
  {}

  lemma StepKeepsValid(s: State, step: Step)
    requires Valid(s) && s.nextID <= 0xD800 && (step.Subscribe? ==> s.nextID < 0xD800)
    ensures Valid(Next(s, step))
  {
    match step
    case Begin =>
    case Send(e, key) => SendKeepsValid(s, e, key);
    case Finish(_) =>
    case Subscribe => SubscribeKeepsValid(s);
    case Unsubscribe(t) => UnsubscribeKeepsValid(s, t);
    case Close => CloseKeepsValid(s);
    case Receive(_) =>
  }

  lemma NextIDGrows(steps: seq<Step>)
    requires steps != []
    ensures Exec(steps[..|steps| - 1]).nextID <= Exec(steps).nextID
  {}

  /** A subscription that has to wait for a publish leaves the number alone. */
  lemma BlockedSubscribe(s: State)
    requires s.open != map[]
    ensures Next(s, Subscribe) == s
  {}

  /** Over every run with at most 0xD800 subscriptions, with publishes overlapping in
      any way: no panic, queues within their capacity, and live subscribers and map
      entries one to one. */
  lemma {:induction false} BusSafe(steps: seq<Step>)
    requires Exec(steps).nextID <= 0xD800
    ensures Valid(Exec(steps)) && !Exec(steps).panicked
    ensures var s := Exec(steps);
            && (forall k :: k in s.subscribers ==>
                  s.subscribers[k] in s.channels && !s.channels[s.subscribers[k]].closed)
            && (forall t :: t in s.channels && !s.channels[t].closed ==>
                  exists k :: k in s.subscribers && s.subscribers[k] == t)
            && (forall t :: t in s.channels ==> |s.channels[t].queue| <= 100)
  {
    RunKeepsValid(steps);
  }

  lemma {:induction false} RunKeepsValid(steps: seq<Step>)
    requires Exec(steps).nextID <= 0xD800
    ensures Valid(Exec(steps))
  {
    if steps != [] {
      var before, last := Exec(steps[..|steps| - 1]), steps[|steps| - 1];
      NextIDGrows(steps);
      RunKeepsValid(steps[..|steps| - 1]);
      if last.Subscribe? && before.open != map[] {
        BlockedSubscribe(before);
      } else {
        StepKeepsValid(before, last);
      }
    }
  }

  // ---------------------------------------------------------------------------
  // Delivery
  // ---------------------------------------------------------------------------

  /** The step sends to the subscription. */
  predicate Reaches(s: State, step: Step, t: Ticket) {
    step.Send? && Visits(s, step.event, step.key) && s.subscribers[step.key] == t
  }

  /** The events sent to the subscription, in the order of the sends. */
  function Offered(steps: seq<Step>, t: Ticket): seq<Event> {
    if steps == [] then []
    else
      var before, last := steps[..|steps| - 1], steps[|steps| - 1];
      Offered(before, t) + if Reaches(Exec(before), last, t) then [last.event] else []
  }

  predicate Overflowed(steps: seq<Step>, t: Ticket) {
    steps != [] &&
    var before, last := steps[..|steps| - 1], steps[|steps| - 1];
    var s := Exec(before);
    || Overflowed(before, t)
    || (Reaches(s, last, t) && t in s.channels && |s.channels[t].queue| >= CAPACITY)
  }

  function Delivery(s: State, t: Ticket): seq<Event> {
    if t in s.channels then s.channels[t].received + s.channels[t].queue else []
  }

  lemma StepDelivery(s: State, step: Step, t: Ticket)
    requires Valid(s)
    ensures Delivery(Next(s, step), t)
         == if Reaches(s, step, t) && |s.channels[t].queue| < CAPACITY then Delivery(s, t) + [step.event]
            else Delivery(s, t)
  {
    if t in s.channels {
      MappedIsOpen(s, t);
      var c := s.channels[t];
      if step.Receive? && step.ticket == t && c.queue != [] {
        assert c.received + [c.queue[0]] + c.queue[1..] == c.received + c.queue;
      } else if Reaches(s, step, t) {
        assert c.received + (c.queue + [step.event]) == c.received + c.queue + [step.event];
      }
    }
  }

  /** A subscriber gets, in order, a subsequence of what was sent to it, and all of
      it unless its buffer was full at some send. */
  lemma {:induction false} DeliveryInOrder(steps: seq<Step>, t: Ticket)
    requires Exec(steps).nextID <= 0xD800
    ensures Subsequence(Delivery(Exec(steps), t), Offered(steps, t))
    ensures Delivery(Exec(steps), t) == Offered(steps, t) <==> !Overflowed(steps, t)
    ensures |Delivery(Exec(steps), t)| <= |Offered(steps, t)|
  {
    if steps != [] {
      var before, last := steps[..|steps| - 1], steps[|steps| - 1];
      var s := Exec(before);
      NextIDGrows(steps);
      DeliveryInOrder(before, t);
      RunKeepsValid(before);
      StepDelivery(s, last, t);
      if Reaches(s, last, t) {
        SubsequenceExtend(Delivery(s, t), Offered(before, t), last.event);
        AppendCancels(Delivery(s, t), Offered(before, t), last.event);
      } else {
        assert Offered(steps, t) == Offered(before, t);
      }
    }
  }

  // ---------------------------------------------------------------------------
  // Coming, receiving, and going
  // ---------------------------------------------------------------------------

  /** A new subscription has an empty open channel of its own, which publishes from
      now on visit. */
  lemma SubscribeOpens(steps: seq<Step>)
    requires Exec(steps).open == map[] && Exec(steps).nextID < 0xD800
    ensures var s, next := Exec(steps), Next(Exec(steps), Subscribe);
            var t := s.nextID + 1;
            && next.nextID == t && t !in s.channels && t in next.channels && next.channels[t] == Channel([], false, [])
            && Keyed(next, t) && forall u :: u in s.channels ==> u in next.channels && next.channels[u] == s.channels[u]
  {
    RunKeepsValid(steps);
  }

  /** A subscriber takes the oldest event of its own queue. */
  lemma ReceiveTakes(s: State, t: Ticket, u: Ticket)
    requires t in s.channels && s.channels[t].queue != [] && u != t
    ensures var c, next := s.channels[t], Next(s, Receive(t));
            && t in next.channels && next.channels[t].received == c.received + [c.queue[0]]
            && next.channels[t].queue == c.queue[1..] && next.channels[t].closed == c.closed
            && (u in s.channels ==> u in next.channels && next.channels[u] == s.channels[u])
  {}

  /** Unsubscribing closes the subscriber's channel, unmaps it, and leaves what waits
      in it and every other subscription alone. */
  lemma UnsubscribeCloses(steps: seq<Step>, t: Ticket, u: Ticket)
    requires var s := Exec(steps); s.nextID <= 0xD800 && s.open == map[] && t in s.channels && u in s.channels && u != t
    ensures var s, next := Exec(steps), Next(Exec(steps), Unsubscribe(t));
            && t in next.channels && next.channels[t] == s.channels[t].(closed := true) && !Mapped(next, t)
            && u in next.channels && next.channels[u] == s.channels[u] && (Mapped(next, u) <==> Mapped(s, u))
  {
    RunKeepsValid(steps);
    UnsubscribeKeepsValid(Exec(steps), t);
    var s, next := Exec(steps), Next(Exec(steps), Unsubscribe(t));
    MappedIsOpen(s, u);
    MappedIsOpen(next, u);
    MappedIsOpen(s, t);
    MappedIsOpen(next, t);
  }

  /** Closing the bus closes every subscriber's channel and unmaps it, and leaves what
      waits in it. */
  lemma CloseClosesAll(steps: seq<Step>, t: Ticket)
    requires var s := Exec(steps); s.nextID <= 0xD800 && s.open == map[] && t in s.channels
    ensures var s, next := Exec(steps), Next(Exec(steps), Close);
            && t in next.channels && next.channels[t] == s.channels[t].(closed := true) && next.subscribers == map[]
  {
    RunKeepsValid(steps);
    MappedIsOpen(Exec(steps), t);
  }

  /** Whoever changes the map waits for the publishes in progress. */
  lemma WritersWait(s: State, t: Ticket)
    requires s.open != map[]
    ensures Next(s, Subscribe) == s && Next(s, Unsubscribe(t)) == s && Next(s, Close) == s
  {}

  // ---------------------------------------------------------------------------
  // What is sent, against what is published
  // ---------------------------------------------------------------------------

  predicate Subscribed(s: State, t: Ticket) {
    t in s.channels && !s.channels[t].closed
  }

  /** The events whose publishing began while the subscription was open, in order. */
  function PublishedTo(steps: seq<Step>, t: Ticket): seq<Event> {
    if steps == [] then []
    else
      var before, last := steps[..|steps| - 1], steps[|steps| - 1];
      PublishedTo(before, t) + if last.Begin? && Subscribed(Exec(before), t) then [Exec(before).nextEvent] else []
  }

  /** The publishes in progress that have still to reach the subscription. */
  function Pending(s: State, t: Ticket): set<Event> {
    set e | e in s.open && Keyed(s, t) && KeyOf(t) in s.open[e]
  }

  lemma PendingAfterSend(s: State, e: Event, key: nat, t: Ticket)
    requires Valid(s) && Visits(s, e, key)
    ensures Pending(Next(s, Send(e, key)), t) == if s.subscribers[key] == t then Pending(s, t) - {e} else Pending(s, t)
    ensures s.subscribers[key] == t ==> e in Pending(s, t)
  {
    var next := Next(s, Send(e, key));
    assert Keyed(s, t) && KeyOf(t) == key ==> s.subscribers[key] == t;
    forall f
      ensures f in Pending(next, t) <==> f in Pending(s, t) && !(f == e && s.subscribers[key] == t)
    {
      assert f in next.open <==> f in s.open;
      assert f in s.open ==> next.open[f] == if f == e then s.open[e] - {key} else s.open[f];
    }
  }

  lemma PendingAfterBegin(s: State, t: Ticket)
    requires Valid(s)
    ensures Pending(Next(s, Begin), t) == if Subscribed(s, t) then Pending(s, t) + {s.nextEvent} else Pending(s, t)
    ensures s.nextEvent !in Pending(s, t)
  {
    var next := Next(s, Begin);
    assert Subscribed(s, t) <==> Keyed(s, t);
    forall f
      ensures f in Pending(next, t) <==> f in Pending(s, t) || (f == s.nextEvent && Subscribed(s, t))
    {
      assert f in next.open <==> f in s.open || f == s.nextEvent;
      assert f in s.open ==> next.open[f] == s.open[f];
    }
  }

  lemma PendingOtherwise(s: State, step: Step, t: Ticket)
    requires Valid(s) && !step.Begin? && !step.Send?
    ensures Pending(Next(s, step), t) == Pending(s, t)
  {
    var next := Next(s, step);
    if step.Finish? {
      forall f
        ensures f in Pending(next, t) <==> f in Pending(s, t)
      {
        assert f in next.open ==> f in s.open && next.open[f] == s.open[f];
      }
    } else if step.Receive? {
      assert next.open == s.open && next.subscribers == s.subscribers;
    } else if s.open == map[] {
      assert next.open == map[];
    }
  }

  /** Conservation: at every moment of every run, what was sent to a subscription
      and what is still on its way there are exactly the events published while it
      was open, each once, however the publishes overlap. */
  lemma {:induction false} SentOnce(steps: seq<Step>, t: Ticket)
    requires Exec(steps).nextID <= 0xD800
    ensures multiset(Offered(steps, t)) + multiset(Pending(Exec(steps), t)) == multiset(PublishedTo(steps, t))
  {
    if steps != [] {
      var before, last := steps[..|steps| - 1], steps[|steps| - 1];
      var s := Exec(before);
      NextIDGrows(steps);
      SentOnce(before, t);
      RunKeepsValid(before);
      if last.Begin? {
        PendingAfterBegin(s, t);
      } else if last.Send? && Visits(s, last.event, last.key) {
        PendingAfterSend(s, last.event, last.key, t);
      } else if !last.Send? {
        PendingOtherwise(s, last, t);
      }
    }
  }

  /** Events are numbered as they are published, so none is published twice. */
  lemma {:induction false} PublishedAscending(steps: seq<Step>, t: Ticket)
    ensures forall i, j :: 0 <= i < j < |PublishedTo(steps, t)| ==> PublishedTo(steps, t)[i] < PublishedTo(steps, t)[j]
    ensures forall i :: 0 <= i < |PublishedTo(steps, t)| ==> PublishedTo(steps, t)[i] < Exec(steps).nextEvent
  {
    if steps != [] {
      PublishedAscending(steps[..|steps| - 1], t);
    }
  }

  /** Every publish of the run begins when no other is in progress. */
  predicate Serial(steps: seq<Step>) {
    forall k :: 0 <= k < |steps| && steps[k].Begin? ==> Exec(steps[..k]).open == map[]
  }

  lemma SerialStep(s: State, step: Step)
    requires Valid(s) && |s.open| <= 1 && (step.Begin? ==> s.open == map[])
    ensures |Next(s, step).open| <= 1
  {
    if step.Finish? && step.event in s.open {
      assert Without(s.open, step.event) == s.open - {step.event};
      assert (s.open - {step.event}).Keys <= s.open.Keys;
      assert s.open.Keys == (s.open.Keys - {step.event}) + {step.event};
    } else if step.Send? && step.event in s.open {
      assert s.open[step.event := s.open[step.event] - {step.key}].Keys == s.open.Keys;
    }
  }

  lemma OneInProgress(s: State, e: Event, f: Event)
    requires |s.open| <= 1 && e in s.open && f in s.open
    ensures e == f
  {
    if e != f {
      assert {e, f} <= s.open.Keys;
      SubsetSize({e, f}, s.open.Keys);
    }
  }

  lemma {:induction false} SubsetSize(a: set<Event>, b: set<Event>)
    requires a <= b
    ensures |a| <= |b|
  {
    if a != {} {
      var x :| x in a;
      SubsetSize(a - {x}, b - {x});
    }
  }

  lemma SinglePending(s: State, e: Event, t: Ticket)
    requires |s.open| <= 1 && e in Pending(s, t)
    ensures Pending(s, t) == {e}
  {
    forall f | f in Pending(s, t)
      ensures f == e
    {
      OneInProgress(s, e, f);
    }
  }

  /** The subscription has been sent its events in the order of the publishes, but
      perhaps for the one in progress. */
  ghost predicate SentInOrder(published: seq<Event>, offered: seq<Event>, pending: set<Event>) {
    && (pending == {} ==> published == offered)
    && (forall e :: e in pending ==> pending == {e} && published == offered + [e])
  }

  lemma SerialSend(s: State, step: Step, t: Ticket, published: seq<Event>, offered: seq<Event>)
    requires Valid(s) && |s.open| <= 1 && step.Send? && SentInOrder(published, offered, Pending(s, t))
    ensures var sent := if Reaches(s, step, t) then offered + [step.event] else offered;
            SentInOrder(published, sent, Pending(Next(s, step), t))
  {
    if Visits(s, step.event, step.key) {
      PendingAfterSend(s, step.event, step.key, t);
      if s.subscribers[step.key] == t {
        SinglePending(s, step.event, t);
      }
    }
  }

  lemma SerialBegin(s: State, t: Ticket, published: seq<Event>, offered: seq<Event>)
    requires Valid(s) && s.open == map[] && SentInOrder(published, offered, Pending(s, t))
    ensures SentInOrder(published + (if Subscribed(s, t) then [s.nextEvent] else []), offered,
                        Pending(Next(s, Begin), t))
  {
    PendingAfterBegin(s, t);
    assert Pending(s, t) == {};
  }

  /** Without overlap, every subscription is sent what was published to it, in that
      order, but perhaps for the one event in progress. */
  lemma SerialInOrder(steps: seq<Step>, t: Ticket)
    requires Exec(steps).nextID <= 0xD800
    requires forall k :: 0 <= k < |steps| && steps[k].Begin? ==> Exec(steps[..k]).open == map[]
    ensures |Exec(steps).open| <= 1
    ensures Exec(steps).open == map[] ==> PublishedTo(steps, t) == Offered(steps, t)
    ensures PublishedTo(steps, t) == Offered(steps, t)
         || exists e :: e in Exec(steps).open && PublishedTo(steps, t) == Offered(steps, t) + [e]
    ensures SentInOrder(PublishedTo(steps, t), Offered(steps, t), Pending(Exec(steps), t))
  {
    SerialRun(steps, t);
    var s, published, offered := Exec(steps), PublishedTo(steps, t), Offered(steps, t);
    if published != offered {
      var e :| e in Pending(s, t);
      assert e in s.open && published == offered + [e];
    }
  }

  lemma {:induction false} SerialRun(steps: seq<Step>, t: Ticket)
    requires Exec(steps).nextID <= 0xD800 && Serial(steps)
    ensures |Exec(steps).open| <= 1
    ensures SentInOrder(PublishedTo(steps, t), Offered(steps, t), Pending(Exec(steps), t))
  {
    if steps != [] {
      var before, last := steps[..|steps| - 1], steps[|steps| - 1];
      NextIDGrows(steps);
      SerialPrefix(steps);
      SerialRun(before, t);
      RunKeepsValid(before);
      SerialStep(Exec(before), last);
      SentInOrderKept(Exec(before), last, t, PublishedTo(before, t), Offered(before, t));
    }
  }

  lemma SentInOrderKept(s: State, step: Step, t: Ticket, published: seq<Event>, offered: seq<Event>)
    requires Valid(s) && |s.open| <= 1 && (step.Begin? ==> s.open == map[])
    requires SentInOrder(published, offered, Pending(s, t))
    ensures var began := if step.Begin? && Subscribed(s, t) then published + [s.nextEvent] else published;
            var sent := if Reaches(s, step, t) then offered + [step.event] else offered;
            SentInOrder(began, sent, Pending(Next(s, step), t))
  {
    if step.Begin? {
      SerialBegin(s, t, published, offered);
    } else if step.Send? {
      SerialSend(s, step, t, published, offered);
    } else {
      PendingOtherwise(s, step, t);
    }
  }

  lemma SerialPrefix(steps: seq<Step>)
    requires Serial(steps) && steps != []
    ensures Serial(steps[..|steps| - 1])
    ensures steps[|steps| - 1].Begin? ==> Exec(steps[..|steps| - 1]).open == map[]
  {
    var before := steps[..|steps| - 1];
    assert forall k :: 0 <= k < |before| ==> before[..k] == steps[..k] && before[k] == steps[k];
  }

  predicate SendsOldest(s: State, step: Step, t: Ticket) {
    Reaches(s, step, t) ==> forall f :: f in Pending(s, t) ==> step.event <= f
  }

  /** Every send to the subscription is of its oldest event still on the way. */
  predicate OldestFirst(steps: seq<Step>, t: Ticket) {
    steps == [] ||
    var before, last := steps[..|steps| - 1], steps[|steps| - 1];
    OldestFirst(before, t) && SendsOldest(Exec(before), last, t)
  }

  predicate Ascending(events: seq<Event>) {
    forall i, j :: 0 <= i < j < |events| ==> events[i] < events[j]
  }

  lemma MultisetCancels(a: multiset<Event>, b: multiset<Event>, c: multiset<Event>)
    requires a + b == a + c
    ensures b == c
  {
    assert b == a + b - a && c == a + c - a;
  }

  /** The event that continues an ascending list is the least of those missing. */
  lemma NextIsOldest(published: seq<Event>, offered: seq<Event>, pending: set<Event>, e: Event)
    requires Ascending(published) && multiset(offered) + multiset(pending) == multiset(published)
    requires offered <= published && e in pending
    ensures offered + [e] <= published <==> forall f :: f in pending ==> e <= f
  {
    var n := |offered|;
    var rest := published[n..];
    assert published == offered + rest && multiset(offered + rest) == multiset(offered) + multiset(rest);
    MultisetCancels(multiset(offered), multiset(rest), multiset(pending));
    assert e in multiset(rest);
    assert rest[0] in multiset(rest) && rest[0] in pending;
    forall f | f in pending
      ensures rest[0] <= f
    {
      assert f in multiset(rest);
      var i :| 0 <= i < |rest| && rest[i] == f;
      assert published[n + i] == f && published[n] == rest[0];
    }
    if offered + [e] <= published {
      assert (offered + [e])[n] == published[n];
    }
    if e == rest[0] {
      assert published[..n + 1] == offered + [e];
    }
  }

  lemma PrefixGrows(offered: seq<Event>, published: seq<Event>, more: seq<Event>)
    requires |offered| <= |published|
    ensures offered <= published + more <==> offered <= published
  {
    assert (published + more)[..|offered|] == published[..|offered|];
  }

  /** One more step of the run. */
  lemma OldestFirstStep(steps: seq<Step>, t: Ticket)
    requires steps != [] && Exec(steps).nextID <= 0xD800
    requires Offered(steps[..|steps| - 1], t) <= PublishedTo(steps[..|steps| - 1], t)
    ensures Offered(steps, t) <= PublishedTo(steps, t)
       <==> SendsOldest(Exec(steps[..|steps| - 1]), steps[|steps| - 1], t)
  {
    var before, last := steps[..|steps| - 1], steps[|steps| - 1];
    var s := Exec(before);
    var offered, published := Offered(before, t), PublishedTo(before, t);
    if Reaches(s, last, t) {
      NextIDGrows(steps);
      SentOnce(before, t);
      RunKeepsValid(before);
      PublishedAscending(before, t);
      PendingAfterSend(s, last.event, last.key, t);
      NextIsOldest(published, offered, Pending(s, t), last.event);
      assert published + [] == published;
    } else {
      PrefixGrows(offered, published, if last.Begin? && Subscribed(s, t) then [s.nextEvent] else []);
      assert offered + [] == offered;
    }
  }

  lemma OfferedNoMore(steps: seq<Step>, t: Ticket)
    requires Exec(steps).nextID <= 0xD800
    ensures |Offered(steps, t)| <= |PublishedTo(steps, t)|
  {
    SentOnce(steps, t);
    assert |multiset(Offered(steps, t))| <= |multiset(PublishedTo(steps, t))|;
  }

  lemma OutOfOrderStays(steps: seq<Step>, t: Ticket)
    requires steps != [] && Exec(steps).nextID <= 0xD800 && Offered(steps, t) <= PublishedTo(steps, t)
    ensures Offered(steps[..|steps| - 1], t) <= PublishedTo(steps[..|steps| - 1], t)
  {
    var before := steps[..|steps| - 1];
    NextIDGrows(steps);
    OfferedNoMore(before, t);
    var offered, published := Offered(before, t), PublishedTo(before, t);
    assert offered <= Offered(steps, t);
    assert published <= PublishedTo(steps, t);
  }

  /** A subscription is sent its events in the order in which they were published if
      and only if every send to it is of the oldest event still on the way. */
  lemma {:induction false} InOrderExactly(steps: seq<Step>, t: Ticket)
    requires Exec(steps).nextID <= 0xD800
    ensures Offered(steps, t) <= PublishedTo(steps, t) <==> OldestFirst(steps, t)
  {
    if steps != [] {
      var before := steps[..|steps| - 1];
      NextIDGrows(steps);
      InOrderExactly(before, t);
      if Offered(before, t) <= PublishedTo(before, t) {
        OldestFirstStep(steps, t);
      } else if Offered(steps, t) <= PublishedTo(steps, t) {
        OutOfOrderStays(steps, t);
      }
    }
  }

  /** Then what a subscriber gets is an in-order part of what was published while it
      was subscribed. */
  lemma DeliveredAsPublished(steps: seq<Step>, t: Ticket)
    requires Exec(steps).nextID <= 0xD800 && OldestFirst(steps, t)
    ensures Subsequence(Delivery(Exec(steps), t), PublishedTo(steps, t))
  {
    InOrderExactly(steps, t);
    DeliveryInOrder(steps, t);
    SubsequenceOfPrefix(Delivery(Exec(steps), t), Offered(steps, t), PublishedTo(steps, t));
  }

  /** Two events, one after the other, to one subscriber. */
  function SendBoth(first: Event, second: Event, t: Ticket): seq<Step> {
    [Send(first, KeyOf(t))] + [Send(second, KeyOf(t))]
  }

  lemma SendReaches(s: State, e: Event, t: Ticket)
    requires Valid(s) && Keyed(s, t) && e in s.open && KeyOf(t) in s.open[e] && |s.channels[t].queue| < CAPACITY
    ensures var next := Next(s, Send(e, KeyOf(t)));
            && Valid(next) && next.subscribers == s.subscribers
            && next.open == s.open[e := s.open[e] - {KeyOf(t)}]
            && next.channels == s.channels[t := Offer(s.channels[t], e)]
            && Delivery(next, t) == Delivery(s, t) + [e]
  {
    SendKeepsValid(s, e, KeyOf(t));
    StepDelivery(s, Send(e, KeyOf(t)), t);
  }

  /** The subscription has yet to be sent both events, and has room for them. */
  predicate Awaits(s: State, first: Event, second: Event, t: Ticket) {
    && Keyed(s, t) && t in s.channels && |s.channels[t].queue| + 2 <= CAPACITY
    && first != second && first in s.open && second in s.open && KeyOf(t) in s.open[first] && KeyOf(t) in s.open[second]
  }

  lemma BothReach(s: State, first: Event, second: Event, t: Ticket)
    requires Valid(s) && Awaits(s, first, second, t)
    ensures var next := ExecFrom(s, SendBoth(first, second, t));
            Valid(next) && Delivery(next, t) == Delivery(s, t) + [first, second]
  {
    var sent := Next(s, Send(first, KeyOf(t)));
    ExecTwo(s, Send(first, KeyOf(t)), Send(second, KeyOf(t)));
    SendReaches(s, first, t);
    SendReaches(sent, second, t);
    assert Delivery(s, t) + [first] + [second] == Delivery(s, t) + [first, second];
  }

  lemma SendElsewhere(s: State, e: Event, t: Ticket, f: Event, g: Event, u: Ticket)
    requires Valid(s) && Keyed(s, t) && Keyed(s, u) && u != t
    ensures var next := Next(s, Send(e, KeyOf(t)));
            && Valid(next) && Keyed(next, t) && Keyed(next, u) && Delivery(next, u) == Delivery(s, u)
            && (Awaits(s, f, g, u) ==> Awaits(next, f, g, u))
  {
    SendKeepsValid(s, e, KeyOf(t));
    StepDelivery(s, Send(e, KeyOf(t)), u);
    assert KeyOf(t) != KeyOf(u);
  }

  lemma BothElsewhere(s: State, first: Event, second: Event, t: Ticket, u: Ticket)
    requires Valid(s) && Keyed(s, t) && Keyed(s, u) && u != t
    ensures var next := ExecFrom(s, SendBoth(first, second, t));
            && Keyed(next, t) && Keyed(next, u) && Delivery(next, u) == Delivery(s, u)
            && (Awaits(s, second, first, u) ==> Awaits(next, second, first, u))
  {
    ExecTwo(s, Send(first, KeyOf(t)), Send(second, KeyOf(t)));
    SendElsewhere(s, first, t, second, first, u);
    SendElsewhere(Next(s, Send(first, KeyOf(t))), second, t, second, first, u);
  }

  lemma CrossFrom(s: State, e: Event, f: Event, t: Ticket, u: Ticket)
    requires Valid(s) && Awaits(s, e, f, t) && Awaits(s, f, e, u) && t != u
    ensures var crossed := ExecFrom(ExecFrom(s, SendBoth(e, f, t)), SendBoth(f, e, u));
            Delivery(crossed, t) == Delivery(s, t) + [e, f] && Delivery(crossed, u) == Delivery(s, u) + [f, e]
  {
    var half := ExecFrom(s, SendBoth(e, f, t));
    BothReach(s, e, f, t);
    BothElsewhere(s, e, f, t, u);
    BothReach(half, f, e, u);
    BothElsewhere(half, f, e, u, t);
  }

  lemma TwoBegin(s: State, t: Ticket)
    requires Valid(s) && s.open == map[] && Keyed(s, t) && |s.channels[t].queue| + 2 <= CAPACITY
    ensures var begun := ExecFrom(s, [Begin] + [Begin]);
            && Valid(begun) && Delivery(begun, t) == Delivery(s, t) && Keyed(begun, t)
            && Awaits(begun, s.nextEvent, s.nextEvent + 1, t) && Awaits(begun, s.nextEvent + 1, s.nextEvent, t)
  {
    ExecTwo(s, Begin, Begin);
  }

  /** Two overlapping publishes, sent to two subscribers in opposite orders. */
  function Crossing(e: Event, t: Ticket, u: Ticket): seq<Step> {
    [Begin] + [Begin] + SendBoth(e, e + 1, t) + SendBoth(e + 1, e, u)
  }

  /** Overlapping publishes can always do that: order is per subscriber. */
  lemma OrdersCanCross(s: State, t: Ticket, u: Ticket)
    requires Valid(s) && s.open == map[] && Keyed(s, t) && Keyed(s, u) && t != u
    requires |s.channels[t].queue| + 2 <= CAPACITY && |s.channels[u].queue| + 2 <= CAPACITY
    ensures var crossed := ExecFrom(s, Crossing(s.nextEvent, t, u));
            && Delivery(crossed, t) == Delivery(s, t) + [s.nextEvent, s.nextEvent + 1]
            && Delivery(crossed, u) == Delivery(s, u) + [s.nextEvent + 1, s.nextEvent]
  {
    CrossingInOrder(s, s.nextEvent, t, u);
    CrossBegun(s, t, u);
  }

  lemma CrossBegun(s: State, t: Ticket, u: Ticket)
    requires Valid(s) && s.open == map[] && Keyed(s, t) && Keyed(s, u) && t != u
    requires |s.channels[t].queue| + 2 <= CAPACITY && |s.channels[u].queue| + 2 <= CAPACITY
    ensures var e := s.nextEvent;
            var begun := ExecFrom(s, [Begin] + [Begin]);
            var crossed := ExecFrom(ExecFrom(begun, SendBoth(e, e + 1, t)), SendBoth(e + 1, e, u));
            Delivery(crossed, t) == Delivery(s, t) + [e, e + 1] && Delivery(crossed, u) == Delivery(s, u) + [e + 1, e]
  {
    TwoBegin(s, t);
    TwoBegin(s, u);
    CrossFrom(ExecFrom(s, [Begin] + [Begin]), s.nextEvent, s.nextEvent + 1, t, u);
  }

  lemma CrossingInOrder(s: State, e: Event, t: Ticket, u: Ticket)
    ensures ExecFrom(s, Crossing(e, t, u))
         == ExecFrom(ExecFrom(ExecFrom(s, [Begin] + [Begin]), SendBoth(e, e + 1, t)), SendBoth(e + 1, e, u))
  {
    ExecAppend(s, [Begin] + [Begin], SendBoth(e, e + 1, t));
    ExecAppend(s, [Begin] + [Begin] + SendBoth(e, e + 1, t), SendBoth(e + 1, e, u));
  }

  // ---------------------------------------------------------------------------
  // One subscription too many
  // ---------------------------------------------------------------------------

  function Subscribes(n: nat): (r: seq<Step>)
    ensures |r| == n
  {
    seq(n, _ => Subscribe)
  }

  lemma {:induction false} SubscribesReach(n: nat)
    ensures Exec(Subscribes(n)).open == map[]
    ensures Exec(Subscribes(n)).nextID == n
    ensures n >= 1 ==> Exec(Subscribes(n)).subscribers[KeyOf(n) := n] == Exec(Subscribes(n)).subscribers
    ensures n >= 1 ==> n in Exec(Subscribes(n)).channels && Exec(Subscribes(n)).channels[n] == EMPTY
  {
    if n > 0 {
      SubscribesReach(n - 1);
      assert Subscribes(n)[..n - 1] == Subscribes(n - 1);
    }
  }

  /** A run from the start: two subscriptions, then two overlapping publishes. */
  lemma OrdersCrossed()
    ensures var s := Exec(Subscribes(2) + Crossing(0, 1, 2));
            Delivery(s, 1) == [0, 1] && Delivery(s, 2) == [1, 0]
  {
    TwoSubscribers();
    ExecAppend(INIT, Subscribes(2), Crossing(0, 1, 2));
    CrossFresh(Exec(Subscribes(2)));
  }

  lemma CrossFresh(s: State)
    requires Valid(s) && s.open == map[] && s.nextEvent == 0 && Keyed(s, 1) && Keyed(s, 2)
    requires s.channels[1] == EMPTY && s.channels[2] == EMPTY
    ensures var crossed := ExecFrom(s, Crossing(0, 1, 2));
            Delivery(crossed, 1) == [0, 1] && Delivery(crossed, 2) == [1, 0]
  {
    OrdersCanCross(s, 1, 2);
    FreshDelivery(s, 1);
    FreshDelivery(s, 2);
  }

  lemma FreshDelivery(s: State, t: Ticket)
    requires t in s.channels && s.channels[t] == EMPTY
    ensures forall events :: Delivery(s, t) + events == events
  {}

  lemma TwoSubscribers()
    ensures var s := Exec(Subscribes(2));
            && Valid(s) && s.open == map[] && s.nextEvent == 0 && Keyed(s, 1) && Keyed(s, 2)
            && s.channels[1] == EMPTY && s.channels[2] == EMPTY
  {
    assert Subscribes(2) == [] + [Subscribe] + [Subscribe];
    ExecSnoc(INIT, [], Subscribe);
    ExecSnoc(INIT, [] + [Subscribe], Subscribe);
    SubscribeKeepsValid(INIT);
    SubscribeKeepsValid(Next(INIT, Subscribe));
  }

  /** From the state that 0xD800 subscriptions reach, one more takes over the
      previous one's map entry: the older channel is open and unreachable. */
  lemma OneMoreOrphans()
    ensures var s := Exec(Subscribes(0xD801));
            && 0xD800 in s.channels && !s.channels[0xD800].closed && !Mapped(s, 0xD800)
  {
    var s := Exec(Subscribes(0xD800));
    SubscribesReach(0xD800);
    RunKeepsValid(Subscribes(0xD800));
    assert Subscribes(0xD801)[..0xD800] == Subscribes(0xD800);
    var next := Next(s, Subscribe);
    forall k | k in next.subscribers
      ensures next.subscribers[k] != 0xD800
    {
      assert k in s.subscribers && s.subscribers[k] == 0xD800 ==> k == KeyOf(0xD800);
    }
  }

  /** Calling an unsubscribe function twice is harmless until a later subscription
      takes over its key: then the second call closes the channel again. */
  lemma OneMoreCanPanic()
    ensures var steps := Subscribes(0xD800) + [Unsubscribe(0xD800)] + [Subscribe] + [Unsubscribe(0xD800)];
            Exec(steps).panicked && Exec(steps).nextID == 0xD801
  {
    SubscribesReach(0xD800);
    var a := Subscribes(0xD800);
    var b := a + [Unsubscribe(0xD800)];
    var c := b + [Subscribe];
    var d := c + [Unsubscribe(0xD800)];
    assert b[..|a|] == a && c[..|b|] == b && d[..|c|] == c;
    assert KeyOf(0xD800) in Exec(a).subscribers;
    assert Exec(b).channels[0xD800].closed && Exec(b).nextID == 0xD800;
    assert Exec(c).channels[0xD800].closed && KeyOf(0xD800) in Exec(c).subscribers;
    assert Panics(Exec(c), Unsubscribe(0xD800));
  }

  /** No run with up to n subscriptions sends to or closes a closed channel, if and
      only if n is at most 0xD800. */
  lemma SafeExactly(n: nat)
    ensures (forall steps :: Exec(steps).nextID <= n ==> !Exec(steps).panicked) <==> n <= 0xD800
  {
    if n <= 0xD800 {
      forall steps | Exec(steps).nextID <= n
        ensures !Exec(steps).panicked
      {
        RunKeepsValid(steps);
      }
    } else {
      OneMoreCanPanic();
      var steps := Subscribes(0xD800) + [Unsubscribe(0xD800)] + [Subscribe] + [Unsubscribe(0xD800)];
      assert Exec(steps).panicked && Exec(steps).nextID <= n;
    }
  }

  // ---------------------------------------------------------------------------
  // The bus object
  // ---------------------------------------------------------------------------

  class Bus {
    var nextID: nat
    var subscribers: map<nat, Ticket>
    var channels: map<Ticket, Channel>
    var nextEvent: nat

    /** Between the calls of one caller no publish is in progress. */
    ghost function Contents(): State
      reads this
    {
      State(nextID, subscribers, channels, nextEvent, map[], false)
    }

    constructor ()
      ensures Contents() == INIT
    {
      nextID, subscribers, channels, nextEvent := 0, map[], map[], 0;
    }

    /** A publish that no other overlaps is a run of the interleaved steps, and
        offers the event to every subscriber once. */
    method Publish() returns (event: Event, ghost run: seq<Step>)
      requires Valid(Contents())
      modifies this`channels, this`nextEvent
      ensures event == old(nextEvent) && nextEvent == event + 1
      ensures channels == Published(old(Contents()), event)
      ensures Contents() == ExecFrom(old(Contents()), run)
    {
      ghost var start := Contents();
      event := nextEvent;
      nextEvent := nextEvent + 1;
      run := OfferToAll(event, start);
      OfferingEnds(start, event, channels, run);
      run := run + [Finish(event)];
    }

    method OfferToAll(event: Event, ghost start: State) returns (ghost run: seq<Step>)
      requires Valid(start) && start.open == map[] && event == start.nextEvent
      requires channels == start.channels && subscribers == start.subscribers
      modifies this`channels
      ensures OfferingRun(start, event, channels, {}, run)
    {
      var todo := subscribers.Keys;
      run := [Begin];
      OfferingBegins(start);
      while todo != {}
        invariant todo <= subscribers.Keys && OfferingRun(start, event, channels, todo, run)
        decreases todo
      {
        var id :| id in todo;
        OfferingGoesOn(start, event, channels, todo, run, id);
        todo, run := todo - {id}, run + [Send(event, id)];
        SendTo(subscribers[id], event);
      }
    }

    /** A non-blocking send on an open channel. */
    method SendTo(t: Ticket, event: Event)
      requires t in channels && !channels[t].closed
      modifies this`channels
      ensures channels == old(channels)[t := Offer(old(channels)[t], event)]
    {
      if |channels[t].queue| < CAPACITY {
        channels := channels[t := channels[t].(queue := channels[t].queue + [event])];
      } else {
        assert channels == channels[t := channels[t]];
      }
    }

    method Subscribe() returns (ticket: Ticket)
      requires Valid(Contents()) && nextID < 0xD800
      modifies this
      ensures Contents() == Next(old(Contents()), Step.Subscribe) && Valid(Contents())
      ensures ticket == nextID && ticket !in old(channels)
    {
      SubscribeKeepsValid(Contents());
      nextID := nextID + 1;
      ticket := nextID;
      var id := KeyOf(nextID);
      channels := channels[ticket := EMPTY];
      subscribers := subscribers[id := ticket];
    }

    /** Calling it again, or after the bus is closed, changes nothing. */
    method Unsubscribe(ticket: Ticket)
      requires Valid(Contents()) && nextID <= 0xD800 && ticket in channels
      modifies this`subscribers, this`channels
      ensures Contents() == Next(old(Contents()), Step.Unsubscribe(ticket)) && Valid(Contents())
      ensures old(channels)[ticket].closed ==> Contents() == old(Contents())
      ensures channels[ticket].closed
    {
      UnsubscribeKeepsValid(Contents(), ticket);
      var id := KeyOf(ticket);
      if id in subscribers {
        channels := channels[ticket := channels[ticket].(closed := true)];
        subscribers := map k | k in subscribers && k != id :: subscribers[k];
      }
    }

    method CloseBus()
      requires Valid(Contents())
      modifies this`subscribers, this`channels
      ensures Contents() == Next(old(Contents()), Close)
    {
      ghost var start := Contents();
      var todo := subscribers.Keys;
      while todo != {}
        invariant Closing(start, channels, todo) && subscribers.Keys == todo
        invariant forall k :: k in todo ==> subscribers[k] == start.subscribers[k]
        decreases todo
      {
        var id :| id in todo;
        ClosingStep(start, channels, todo, id);
        todo := todo - {id};
        CloseEntry(id);
      }
      assert subscribers == map[];
      ClosedByKeys(start, channels);
    }

    /** Closes the open channel of a map entry and deletes the entry. */
    method CloseEntry(id: nat)
      requires id in subscribers && subscribers[id] in channels && !channels[subscribers[id]].closed
      modifies this`subscribers, this`channels
      ensures channels == old(channels)[old(subscribers)[id] := old(channels)[old(subscribers)[id]].(closed := true)]
      ensures subscribers == old(subscribers) - {id}
    {
      var t := subscribers[id];
      channels := channels[t := channels[t].(closed := true)];
      subscribers := subscribers - {id};
    }
  }
}

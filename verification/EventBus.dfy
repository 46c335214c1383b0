/**
 The event bus: subscribers that come and go under the write lock, broadcasts that
 send without waiting under the read lock, in any interleaving.
 */
module EventBus {
  import opened Wrappers

  /** The buffer each subscriber gives its channel. */
  const CAPACITY: nat := 50

  // ---------------------------------------------------------------- under the lock

  /** A subscriber's channel: a buffered queue that can be closed. */
  class Channel {
    var buffer: seq<nat>
    var closed: bool

    constructor ()
      ensures buffer == [] && !closed
    {
      buffer, closed := [], false;
    }

    /** select { case ch <- event: default: }; a send on a closed channel would panic. */
    method TrySend(event: nat) returns (accepted: bool)
      requires !closed
      modifies this`buffer
      ensures accepted <==> |old(buffer)| < CAPACITY
      ensures buffer == if accepted then old(buffer) + [event] else old(buffer)
    {
      accepted := |buffer| < CAPACITY;
      if accepted { buffer := buffer + [event]; }
    }

    method Close()
      requires !closed
      modifies this`closed
      ensures closed
    {
      closed := true;
    }
  }

  class Bus {
    var channels: set<Channel>

    constructor ()
      ensures Valid() && channels == {}
    {
      channels := {};
    }

    /** Every channel in the set is open and within its capacity. */
    ghost predicate Valid()
      reads this, channels
    {
      forall ch :: ch in channels ==> !ch.closed && |ch.buffer| <= CAPACITY
    }

    method Subscribe(ch: Channel)
      requires Valid() && !ch.closed && |ch.buffer| <= CAPACITY
      modifies this
      ensures Valid() && channels == old(channels) + {ch}
    {
      channels := channels + {ch};
    }

    /** Out of the set first, closed after: no later broadcast can reach it. */
    method Unsubscribe(ch: Channel)
      requires Valid() && !ch.closed
      modifies this, ch
      ensures Valid() && channels == old(channels) - {ch} && ch.closed && ch.buffer == old(ch.buffer)
    {
      channels := channels - {ch};
      ch.Close();
    }

    /** Every subscriber with room gets the event, last; a full one misses it; nobody else is touched. */
    method Broadcast(event: nat)
      requires Valid()
      modifies channels
      ensures Valid() && channels == old(channels)
      ensures forall ch :: ch in channels ==>
        !ch.closed && ch.buffer == if |old(ch.buffer)| < CAPACITY then old(ch.buffer) + [event] else old(ch.buffer)
    {
      var left := channels;
      while left != {}
        invariant left <= channels
        invariant forall ch :: ch in channels ==> !ch.closed
        invariant forall ch :: ch in left ==> ch.buffer == old(ch.buffer)
        invariant forall ch :: ch in channels - left ==>
          ch.buffer == if |old(ch.buffer)| < CAPACITY then old(ch.buffer) + [event] else old(ch.buffer)
        decreases |left|
      {
        var ch :| ch in left;
        var accepted := ch.TrySend(event);
        left := left - {ch};
      }
    }
  }

  // ----------------------------------------------------------------- interleavings

  /**
   A subscriber's life.  Subscribe: lock, insert, unlock.  Unsubscribe, once: lock,
   delete, unlock, and close the channel only then.
   */
  datatype Stage =
    | Outside
    | Inserting
    | Inserted
    | Subscribed
    | Deleting
    | Deleted
    | Leaving
    | Closed

  /** A broadcast under way: its serial number, and the channels it has not come to. */
  datatype Sending = Sending(serial: nat, pending: set<nat>)

  datatype State = State(
    stage: nat -> Stage,
    registered: set<nat>,
    writer: Option<nat>,
    sending: map<nat, Sending>,
    nextSerial: nat,
    /** per channel: the broadcasts sent to it, whether accepted or dropped; what it holds; what was read from it */
    offered: nat -> seq<nat>,
    buffer: nat -> seq<nat>,
    received: nat -> seq<nat>)

  datatype Event =
    /** the subscriber's next action */
    | Advance(ch: nat)
    | Receive(ch: nat)
    /** RLock, and the map as it stands; one send; RUnlock */
    | Begin(b: nat)
    | SendTo(b: nat, ch: nat)
    | End(b: nat)

  function To(s: State, ch: nat, stage: Stage): State {
    s.(stage := (c: nat) => if c == ch then stage else s.stage(c))
  }

  /** A lock taken is waited for: an event that cannot happen yet leaves the state as it is. */
  function AdvanceOn(s: State, ch: nat): State {
    var free := s.writer == None && s.sending == map[];
    match s.stage(ch)
    case Outside => if free then To(s, ch, Inserting).(writer := Some(ch)) else s
    case Inserting => To(s, ch, Inserted).(registered := s.registered + {ch})
    case Inserted => To(s, ch, Subscribed).(writer := None)
    case Subscribed => if free then To(s, ch, Deleting).(writer := Some(ch)) else s
    case Deleting => To(s, ch, Deleted).(registered := s.registered - {ch})
    case Deleted => To(s, ch, Leaving).(writer := None)
    case Leaving => To(s, ch, Closed)
    case Closed => s
  }

  /** select { case ch <- event: default: } */
  function Offer(s: State, ch: nat, serial: nat): State {
    var offered := s.(offered := (c: nat) => if c == ch then s.offered(c) + [serial] else s.offered(c));
    if |s.buffer(ch)| < CAPACITY then
      offered.(buffer := (c: nat) => if c == ch then s.buffer(c) + [serial] else s.buffer(c))
    else offered
  }

  function Next(s: State, e: Event): State {
    match e
    case Advance(ch) => AdvanceOn(s, ch)
    case Receive(ch) =>
      if s.buffer(ch) == [] then s
      else s.(received := (c: nat) => if c == ch then s.received(c) + [s.buffer(c)[0]] else s.received(c),
              buffer := (c: nat) => if c == ch then s.buffer(c)[1..] else s.buffer(c))
    case Begin(b) =>
      if s.writer.Some? || b in s.sending then s
      else s.(sending := s.sending[b := Sending(s.nextSerial, s.registered)], nextSerial := s.nextSerial + 1)
    case SendTo(b, ch) =>
      if b in s.sending && ch in s.sending[b].pending then
        var sending := s.sending[b := s.sending[b].(pending := s.sending[b].pending - {ch})];
        Offer(s, ch, s.sending[b].serial).(sending := sending)
      else s
    case End(b) => if b in s.sending && s.sending[b].pending == {} then s.(sending := s.sending - {b}) else s
  }

  /** The step is a send on a closed channel: a panic. */
  predicate SendsOnClosed(s: State, e: Event) {
    e.SendTo? && e.b in s.sending && e.ch in s.sending[e.b].pending && s.stage(e.ch) == Closed
  }

  function Run(s: State, events: seq<Event>): State {
    if events == [] then s else Next(Run(s, events[..|events| - 1]), events[|events| - 1])
  }

  predicate HoldsWrite(g: Stage) {
    g == Inserting || g == Inserted || g == Deleting || g == Deleted
  }

  predicate InMap(g: Stage) {
    g == Inserted || g == Subscribed || g == Deleting
  }

  /** xs are some of ys, in their order. */
  predicate Subsequence(xs: seq<nat>, ys: seq<nat>) {
    if xs == [] then true
    else if ys == [] then false
    else if xs[|xs| - 1] == ys[|ys| - 1] then Subsequence(xs[..|xs| - 1], ys[..|ys| - 1])
    else Subsequence(xs, ys[..|ys| - 1])
  }

  lemma SubsequenceBoth(xs: seq<nat>, ys: seq<nat>, x: nat)
    requires Subsequence(xs, ys)
    ensures Subsequence(xs + [x], ys + [x])
  {
    assert (xs + [x])[..|xs|] == xs && (ys + [x])[..|ys|] == ys;
  }

  lemma {:induction false} SubsequenceDropped(xs: seq<nat>, ys: seq<nat>, y: nat)
    requires Subsequence(xs, ys) && y !in xs
    ensures Subsequence(xs, ys + [y])
  {
    assert (ys + [y])[..|ys|] == ys;
  }

  /** What holds of one channel. */
  predicate ChannelInv(s: State, ch: nat) {
    && (HoldsWrite(s.stage(ch)) <==> s.writer == Some(ch))
    && (InMap(s.stage(ch)) <==> ch in s.registered)
    && |s.buffer(ch)| <= CAPACITY
    && LogInv(s.received(ch) + s.buffer(ch), s.offered(ch), s.nextSerial)
  }

  /** The places of a subsequence: one for each element, in order. */
  lemma {:induction false} SubsequencePlaces(xs: seq<nat>, ys: seq<nat>) returns (at: seq<nat>)
    requires Subsequence(xs, ys)
    ensures |at| == |xs| && (forall i, j :: 0 <= i < j < |at| ==> at[i] < at[j])
    ensures forall i :: 0 <= i < |at| ==> at[i] < |ys| && ys[at[i]] == xs[i]
    decreases |ys|
  {
    if xs == [] { return []; }
    if xs[|xs| - 1] == ys[|ys| - 1] {
      at := SubsequencePlaces(xs[..|xs| - 1], ys[..|ys| - 1]);
      at := at + [|ys| - 1];
    } else {
      at := SubsequencePlaces(xs, ys[..|ys| - 1]);
    }
  }

  /** What was accepted is part of what was offered, in order, and no serial number was offered twice. */
  predicate LogInv(sent: seq<nat>, offered: seq<nat>, nextSerial: nat) {
    && NoTwice(offered) && (forall x :: x in offered ==> x < nextSerial)
    && (forall x :: x in sent ==> x in offered)
    && Subsequence(sent, offered)
  }

  /** What holds of one broadcast under way. */
  predicate BroadcastInv(s: State, b: nat) {
    b in s.sending ==>
      && s.sending[b].pending <= s.registered && s.sending[b].serial < s.nextSerial
      && (forall ch :: ch in s.sending[b].pending ==> s.sending[b].serial !in s.offered(ch))
      && (forall c :: c in s.sending && s.sending[c].serial == s.sending[b].serial ==> c == b)
  }

  ghost predicate Inv(s: State) {
    && (s.writer.Some? ==> s.sending == map[])
    && (forall ch :: ChannelInv(s, ch))
    && (forall b :: BroadcastInv(s, b))
  }

  predicate Empty(s: State) {
    s.registered == {} && s.writer == None && s.sending == map[]
  }

  ghost predicate Fresh(s: State) {
    Empty(s) && forall ch :: s.stage(ch) == Outside && s.offered(ch) == [] && s.buffer(ch) == [] && s.received(ch) == []
  }

  // ------------------------------------------------------------------------ steps

  lemma AdvanceKeepsInv(s: State, ch: nat)
    requires Inv(s)
    ensures Inv(AdvanceOn(s, ch))
  {
    var after := AdvanceOn(s, ch);
    assert ChannelInv(s, ch);
    forall c ensures ChannelInv(after, c) { assert ChannelInv(s, c); }
    forall b ensures BroadcastInv(after, b) { assert BroadcastInv(s, b); }
  }

  lemma ReceiveKeepsInv(s: State, ch: nat)
    requires Inv(s)
    ensures Inv(Next(s, Receive(ch)))
  {
    var after := Next(s, Receive(ch));
    forall c ensures ChannelInv(after, c) {
      assert ChannelInv(s, c);
      if c == ch && s.buffer(ch) != [] {
        assert s.received(ch) + s.buffer(ch) == (s.received(ch) + [s.buffer(ch)[0]]) + s.buffer(ch)[1..];
      }
    }
    forall b ensures BroadcastInv(after, b) { assert BroadcastInv(s, b); }
  }

  lemma BeginKeepsInv(s: State, b: nat)
    requires Inv(s)
    ensures Inv(Next(s, Begin(b)))
  {
    var after := Next(s, Begin(b));
    forall c ensures ChannelInv(after, c) { assert ChannelInv(s, c); }
    forall d ensures BroadcastInv(after, d) {
      assert BroadcastInv(s, d);
      if d == b && after != s {
        forall ch ensures s.nextSerial !in s.offered(ch) { assert ChannelInv(s, ch); }
        forall c | c in s.sending ensures s.sending[c].serial < s.nextSerial { assert BroadcastInv(s, c); }
      }
    }
  }

  lemma EndKeepsInv(s: State, b: nat)
    requires Inv(s)
    ensures Inv(Next(s, End(b)))
  {
    var after := Next(s, End(b));
    forall c ensures ChannelInv(after, c) { assert ChannelInv(s, c); }
    forall d ensures BroadcastInv(after, d) { assert BroadcastInv(s, d); }
  }

  /** A log extended by one broadcast, accepted or dropped. */
  lemma LogExtended(sent: seq<nat>, offered: seq<nat>, serial: nat, nextSerial: nat)
    requires LogInv(sent, offered, nextSerial) && serial !in offered && serial < nextSerial
    ensures LogInv(sent, offered + [serial], nextSerial) && LogInv(sent + [serial], offered + [serial], nextSerial)
  {
    SubsequenceBoth(sent, offered, serial);
    SubsequenceDropped(sent, offered, serial);
  }

  lemma OfferKeepsChannel(s: State, ch: nat, serial: nat, c: nat)
    requires ChannelInv(s, c) && serial < s.nextSerial && serial !in s.offered(ch)
    ensures ChannelInv(Offer(s, ch, serial), c)
  {
    hide LogInv;
    if c == ch {
      var sent := s.received(ch) + s.buffer(ch);
      LogExtended(sent, s.offered(ch), serial, s.nextSerial);
      assert s.received(ch) + (s.buffer(ch) + [serial]) == sent + [serial];
    }
  }

  lemma SendKeepsInv(s: State, b: nat, ch: nat)
    requires Inv(s)
    ensures Inv(Next(s, SendTo(b, ch)))
  {
    var after := Next(s, SendTo(b, ch));
    assert BroadcastInv(s, b);
    if b in s.sending && ch in s.sending[b].pending {
      forall c ensures ChannelInv(after, c) {
        assert ChannelInv(s, c);
        OfferKeepsChannel(s, ch, s.sending[b].serial, c);
      }
      forall d ensures BroadcastInv(after, d) { assert BroadcastInv(s, d); }
    }
  }

  lemma {:induction false} RunKeepsInv(s: State, events: seq<Event>)
    requires Fresh(s)
    ensures Inv(Run(s, events))
    decreases |events|
  {
    if events != [] {
      var before := Run(s, events[..|events| - 1]);
      RunKeepsInv(s, events[..|events| - 1]);
      match events[|events| - 1] {
        case Advance(ch) => AdvanceKeepsInv(before, ch);
        case Receive(ch) => ReceiveKeepsInv(before, ch);
        case Begin(b) => BeginKeepsInv(before, b);
        case SendTo(b, ch) => SendKeepsInv(before, b, ch);
        case End(b) => EndKeepsInv(before, b);
      }
    }
  }

  // ------------------------------------------------------------------- properties

  /** No interleaving sends on a closed channel; every send goes to a channel in the map. */
  lemma NeverSendsOnClosed(s: State, events: seq<Event>, e: Event)
    requires Fresh(s)
    ensures !SendsOnClosed(Run(s, events), e)
    ensures var now := Run(s, events);
            e.SendTo? && e.b in now.sending && e.ch in now.sending[e.b].pending ==> e.ch in now.registered
  {
    RunKeepsInv(s, events);
    if e.SendTo? {
      assert BroadcastInv(Run(s, events), e.b);
      assert ChannelInv(Run(s, events), e.ch);
    }
  }

  /**
   In every interleaving a subscriber's buffer stays within its capacity, and what
   it has received and holds is a subsequence of what was sent to it while it was
   subscribed, no broadcast twice.
   */
  lemma ReceivedInOrderOnce(s: State, events: seq<Event>, ch: nat)
    requires Fresh(s)
    ensures var now := Run(s, events);
            && |now.buffer(ch)| <= CAPACITY
            && Subsequence(now.received(ch) + now.buffer(ch), now.offered(ch)) && NoTwice(now.offered(ch))
  {
    RunKeepsInv(s, events);
    assert ChannelInv(Run(s, events), ch);
  }

  /** The order in which a broadcast visits a set of channels. */
  function Visits(b: nat, order: seq<nat>): seq<Event> {
    if order == [] then [] else Visits(b, order[..|order| - 1]) + [SendTo(b, order[|order| - 1])]
  }

  lemma SendComesOff(s: State, b: nat, ch: nat)
    requires b in s.sending && ch in s.sending[b].pending
    ensures b in Next(s, SendTo(b, ch)).sending
    ensures Next(s, SendTo(b, ch)).sending[b].pending == s.sending[b].pending - {ch}
  {
  }

  lemma RunOneMore(s: State, events: seq<Event>, e: Event)
    ensures Run(s, events + [e]) == Next(Run(s, events), e)
  {
    assert (events + [e])[..|events|] == events;
  }

  /** No send waits: a broadcast finishes by its own steps alone, however full the buffers are. */
  lemma {:induction false} BroadcastNeverBlocks(s: State, b: nat, order: seq<nat>)
    requires b in s.sending && NoTwice(order)
    requires forall ch :: ch in order ==> ch in s.sending[b].pending
    ensures b in Run(s, Visits(b, order)).sending
    ensures Run(s, Visits(b, order)).sending[b].pending == s.sending[b].pending - set ch | ch in order
    decreases |order|
  {
    if order != [] {
      var front, last := order[..|order| - 1], order[|order| - 1];
      BroadcastNeverBlocks(s, b, front);
      RunOneMore(s, Visits(b, front), SendTo(b, last));
      assert order == front + [last] && last !in front;
      SendComesOff(Run(s, Visits(b, front)), b, last);
    }
  }

  /** What the holder of the write lock, if any, still does before it lets go: its own steps, waiting for nobody. */
  function WriterSteps(s: State): seq<Event> {
    if s.writer == None then []
    else
      var ch := s.writer.value;
      if s.stage(ch) == Inserting || s.stage(ch) == Deleting then [Advance(ch), Advance(ch)] else [Advance(ch)]
  }

  lemma WriterLetsGo(s: State)
    requires Inv(s)
    ensures var ready := Run(s, WriterSteps(s)); ready.writer == None && ready.sending == s.sending
  {
    hide Run, LogInv;
    if s.writer.None? {
      RunNothing(s);
    } else {
      var ch := s.writer.value;
      assert ChannelInv(s, ch);
      RunOnce(s, Advance(ch));
      RunTwice(s, Advance(ch), Advance(ch));
    }
  }

  lemma RunNothing(s: State)
    ensures Run(s, []) == s
  {
  }

  lemma RunOnce(s: State, e: Event)
    ensures Run(s, [e]) == Next(s, e)
  {
    RunOneMore(s, [], e);
    assert [] + [e] == [e];
  }

  lemma RunTwice(s: State, d: Event, e: Event)
    ensures Run(s, [d, e]) == Next(Next(s, d), e)
  {
    RunOnce(s, d);
    RunOneMore(s, [d], e);
  }

  /**
   From every reachable state a broadcast can begin once the writer there may be
   has taken its own remaining steps, reaches every channel in the map, in any
   order, and ends: it waits for no subscriber to read.
   */
  lemma BroadcastFinishes(s: State, b: nat, order: seq<nat>)
    requires Inv(s) && b !in s.sending && NoTwice(order)
    requires (set ch | ch in order) == Run(s, WriterSteps(s)).registered
    ensures var begun := Next(Run(s, WriterSteps(s)), Begin(b));
            && b in begun.sending && begun.sending[b].pending == (set ch | ch in order)
            && b in Run(begun, Visits(b, order)).sending && b !in Next(Run(begun, Visits(b, order)), End(b)).sending
  {
    hide Run, WriterSteps, Visits, LogInv;
    WriterLetsGo(s);
    BroadcastNeverBlocks(Next(Run(s, WriterSteps(s)), Begin(b)), b, order);
  }

  /** One send: the event goes to the end of the buffer if there is room and is dropped if not, and no other changes. */
  lemma SendDelivers(s: State, b: nat, ch: nat, other: nat)
    requires b in s.sending && ch in s.sending[b].pending && other != ch
    ensures var now, serial := Next(s, SendTo(b, ch)), s.sending[b].serial;
            && now.offered(ch) == s.offered(ch) + [serial]
            && now.buffer(ch) == (if |s.buffer(ch)| < 50 then s.buffer(ch) + [serial] else s.buffer(ch))
            && now.buffer(other) == s.buffer(other) && now.offered(other) == s.offered(other)
            && now.received == s.received
  {
  }

  /** A read takes the oldest event held. */
  lemma ReceiveTakesFirst(s: State, ch: nat, event: nat, rest: seq<nat>)
    requires s.buffer(ch) == [event] + rest
    ensures var now := Next(s, Receive(ch)); now.received(ch) == s.received(ch) + [event] && now.buffer(ch) == rest
  {
  }

  /** When nobody holds the lock a subscriber gets in, and out again with its channel closed, by its own steps. */
  lemma SubscriberGetsInAndOut(s: State, ch: nat)
    requires s.writer == None && s.sending == map[]
    ensures s.stage(ch) == Outside ==>
      var now := Run(s, [Advance(ch)] + [Advance(ch)] + [Advance(ch)]);
      now.stage(ch) == Subscribed && now.registered == s.registered + {ch} && now.writer == None
    ensures s.stage(ch) == Subscribed ==>
      var now := Run(s, [Advance(ch)] + [Advance(ch)] + [Advance(ch)] + [Advance(ch)]);
      now.stage(ch) == Closed && now.registered == s.registered - {ch} && now.writer == None
  {
    var one := [Advance(ch)];
    RunOnce(s, Advance(ch));
    RunOneMore(s, one, Advance(ch));
    RunOneMore(s, one + one, Advance(ch));
    RunOneMore(s, one + one + one, Advance(ch));
  }
}

/** The notification bus: bounded, lossy fan-out to subscribers that come and go. */
module NotifyBus {
  import opened Prelude

  const BusBuffer := 16

  datatype Event = Event(source: string, sourceId: string, title: string)

  /** One subscriber's channel and its history: what was received, where in the published
      stream it started, and for each event offered since then whether it was kept. */
  datatype Chan = Chan(buffer: seq<Event>, received: seq<Event>, since: nat, kept: seq<bool>)

  /** `live` are the channels in the subscriber table, `closed` those already closed. */
  datatype State = State(live: map<nat, Chan>, closed: map<nat, Chan>, next: nat, published: seq<Event>)

  const Empty := State(map[], map[], 0, [])

  datatype Op = Subscribe | Unsubscribe(id: nat) | Publish(ev: Event) | Receive(id: nat)

  /** A non-blocking send: the event is shed when the buffer is full. */
  function Offer(c: Chan, ev: Event): (r: Chan) {
    if |c.buffer| < BusBuffer then c.(buffer := c.buffer + [ev], kept := c.kept + [true])
    else c.(kept := c.kept + [false])
  }

  function Take(c: Chan): (r: Chan) {
    if c.buffer == [] then c else c.(buffer := c.buffer[1..], received := c.received + [c.buffer[0]])
  }

  function Exec(s: State, op: Op): (r: State) {
    match op
    case Subscribe => s.(live := s.live[s.next := Chan([], [], |s.published|, [])], next := s.next + 1)
    case Unsubscribe(id) =>
      if id in s.live then s.(live := s.live - {id}, closed := s.closed[id := s.live[id]]) else s
    case Publish(ev) =>
      s.(live := map id | id in s.live :: Offer(s.live[id], ev), published := s.published + [ev])
    case Receive(id) =>
      if id in s.live then s.(live := s.live[id := Take(s.live[id])])
      else if id in s.closed then s.(closed := s.closed[id := Take(s.closed[id])])
      else s
  }

  function Run(s: State, ops: seq<Op>): (r: State) {
    if ops == [] then s else Exec(Run(s, ops[..|ops| - 1]), ops[|ops| - 1])
  }

  // ----- what delivery means -----

  /** The events a mask keeps. */
  ghost function Select(evs: seq<Event>, kept: seq<bool>): (r: seq<Event>)
    requires |evs| == |kept|
  {
    if evs == [] then []
    else
      var k := |evs| - 1;
      var init := Select(evs[..k], kept[..k]);
      if kept[k] then init + [evs[k]] else init
  }

  ghost function Shed(kept: seq<bool>): (n: nat) {
    if kept == [] then 0
    else Shed(kept[..|kept| - 1]) + if kept[|kept| - 1] then 0 else 1
  }

  /** `part` sits inside `whole` in order: the positions in `at` witness it. */
  ghost predicate EmbedsAt(part: seq<Event>, whole: seq<Event>, at: seq<nat>) {
    && |at| == |part|
    && (forall i | 0 <= i < |at| :: at[i] < |whole| && part[i] == whole[at[i]])
    && forall i, j | 0 <= i < j < |at| :: at[i] < at[j]
  }

  ghost predicate Subsequence(part: seq<Event>, whole: seq<Event>) {
    exists at :: EmbedsAt(part, whole, at)
  }

  lemma {:induction false} SelectEmbeds(evs: seq<Event>, kept: seq<bool>) returns (at: seq<nat>)
    requires |evs| == |kept|
    ensures EmbedsAt(Select(evs, kept), evs, at)
    ensures |Select(evs, kept)| + Shed(kept) == |evs|
  {
    if evs == [] {
      at := [];
    } else {
      var k := |evs| - 1;
      at := SelectEmbeds(evs[..k], kept[..k]);
      EmbedsExtends(Select(evs[..k], kept[..k]), evs, at);
      if kept[k] {
        at := at + [k];
      }
    }
  }

  lemma EmbedsExtends(part: seq<Event>, evs: seq<Event>, at: seq<nat>)
    requires evs != [] && EmbedsAt(part, evs[..|evs| - 1], at)
    ensures EmbedsAt(part, evs, at) && EmbedsAt(part + [evs[|evs| - 1]], evs, at + [|evs| - 1])
  {
  }

  lemma SelectAppend(evs: seq<Event>, kept: seq<bool>, ev: Event, keep: bool)
    requires |evs| == |kept|
    ensures Select(evs + [ev], kept + [keep]) == if keep then Select(evs, kept) + [ev] else Select(evs, kept)
  {
  }

  /** The stretch of the published stream a channel was offered. */
  ghost function Offered(c: Chan, published: seq<Event>): (r: seq<Event>)
    requires c.since + |c.kept| <= |published|
  {
    published[c.since..c.since + |c.kept|]
  }

  /** Received plus buffered is what the mask keeps of what was offered. */
  ghost predicate Faithful(c: Chan, published: seq<Event>) {
    && c.since + |c.kept| <= |published| && |c.buffer| <= BusBuffer
    && c.received + c.buffer == Select(Offered(c, published), c.kept)
  }

  ghost predicate Inv(s: State) {
    && (forall id | id in s.live :: id < s.next && id !in s.closed && Faithful(s.live[id], s.published)
                                    && s.live[id].since + |s.live[id].kept| == |s.published|)
    && forall id | id in s.closed :: id < s.next && Faithful(s.closed[id], s.published)
  }

  // ----- every operation keeps it -----

  lemma OfferKeeps(c: Chan, published: seq<Event>, ev: Event)
    requires Faithful(c, published) && c.since + |c.kept| == |published|
    ensures Faithful(Offer(c, ev), published + [ev])
  {
    OfferedExtends(c, published, ev);
    SelectAppend(Offered(c, published), c.kept, ev, |c.buffer| < BusBuffer);
    if |c.buffer| < BusBuffer {
      assert c.received + (c.buffer + [ev]) == c.received + c.buffer + [ev];
    }
  }

  lemma OfferedExtends(c: Chan, published: seq<Event>, ev: Event)
    requires c.since + |c.kept| == |published|
    ensures Offered(Offer(c, ev), published + [ev]) == Offered(c, published) + [ev]
  {
  }

  lemma TakeKeeps(c: Chan, published: seq<Event>)
    requires Faithful(c, published)
    ensures Faithful(Take(c), published)
    ensures Take(c).received + Take(c).buffer == c.received + c.buffer
  {
  }

  lemma ClosedUnaffected(c: Chan, published: seq<Event>, ev: Event)
    requires Faithful(c, published)
    ensures Faithful(c, published + [ev])
  {
    assert Offered(c, published + [ev]) == Offered(c, published);
  }

  lemma {:induction false} ExecKeeps(s: State, op: Op)
    requires Inv(s)
    ensures Inv(Exec(s, op))
  {
    match op {
      case Subscribe => SubscribeKeeps(s);
      case Unsubscribe(id) => UnsubscribeKeeps(s, id);
      case Publish(ev) => PublishKeeps(s, ev);
      case Receive(id) => ReceiveKeeps(s, id);
    }
  }

  lemma SubscribeKeeps(s: State)
    requires Inv(s)
    ensures Inv(Exec(s, Subscribe))
  {
  }

  lemma UnsubscribeKeeps(s: State, id: nat)
    requires Inv(s)
    ensures Inv(Exec(s, Unsubscribe(id)))
  {
  }

  lemma PublishKeeps(s: State, ev: Event)
    requires Inv(s)
    ensures Inv(Exec(s, Publish(ev)))
  {
    forall id | id in s.live ensures Faithful(Offer(s.live[id], ev), s.published + [ev]) {
      OfferKeeps(s.live[id], s.published, ev);
    }
    forall id | id in s.closed ensures Faithful(s.closed[id], s.published + [ev]) {
      ClosedUnaffected(s.closed[id], s.published, ev);
    }
  }

  lemma {:induction false} ReceiveKeeps(s: State, id: nat)
    requires Inv(s)
    ensures Inv(Exec(s, Receive(id)))
  {
    if id in s.live {
      TakeKeeps(s.live[id], s.published);
    } else if id in s.closed {
      TakeKeeps(s.closed[id], s.published);
    }
  }

  lemma {:induction false} RunKeeps(ops: seq<Op>)
    ensures Inv(Run(Empty, ops))
  {
    if ops != [] {
      RunKeeps(ops[..|ops| - 1]);
      ExecKeeps(Run(Empty, ops[..|ops| - 1]), ops[|ops| - 1]);
    }
  }

  // ----- main results -----

  ghost predicate Known(s: State, id: nat) {
    id in s.live || id in s.closed
  }

  ghost function ChanOf(s: State, id: nat): (c: Chan)
    requires Known(s, id)
  {
    if id in s.live then s.live[id] else s.closed[id]
  }

  /** After every run, for every subscriber past or present: what it received followed by
      its buffer is an in-order subsequence of what was published while it was subscribed;
      received, buffered and shed add up to that; and the buffer never exceeds 16. */
  lemma {:induction false} DeliveryIsInOrder(ops: seq<Op>, id: nat)
    requires Known(Run(Empty, ops), id)
    ensures var s := Run(Empty, ops);
            var c := ChanOf(s, id);
            && c.since + |c.kept| <= |s.published|
            && (id in s.live ==> Offered(c, s.published) == s.published[c.since..])
            && Subsequence(c.received + c.buffer, Offered(c, s.published))
            && |c.received| + |c.buffer| + Shed(c.kept) == |Offered(c, s.published)|
            && |c.buffer| <= BusBuffer
  {
    RunKeeps(ops);
    var s := Run(Empty, ops);
    var c := ChanOf(s, id);
    assert Faithful(c, s.published);
    var at := SelectEmbeds(Offered(c, s.published), c.kept);
    assert EmbedsAt(c.received + c.buffer, Offered(c, s.published), at);
  }

  /** Whether operation `k` of the run publishes while the subscriber's buffer is full. */
  ghost predicate Overflows(ops: seq<Op>, id: nat, k: nat)
    requires k < |ops|
  {
    OverflowsAt(Run(Empty, ops[..k]), ops[k], id)
  }

  ghost predicate OverflowsAt(s: State, op: Op, id: nat) {
    op.Publish? && id in s.live && |s.live[id].buffer| >= BusBuffer
  }

  /** A subscriber loses nothing if and only if no publish ever finds its backlog at 16, and
      then it has in hand exactly what was published to it. */
  lemma {:induction false} LosslessExactly(ops: seq<Op>, id: nat)
    requires Known(Run(Empty, ops), id)
    ensures var s := Run(Empty, ops);
            var c := ChanOf(s, id);
            c.since + |c.kept| <= |s.published| &&
            (c.received + c.buffer == Offered(c, s.published) <==> NeverOverflows(ops, id))
  {
    RunKeeps(ops);
    var s := Run(Empty, ops);
    var c := ChanOf(s, id);
    assert Faithful(c, s.published);
    ShedExactly(ops, id);
    var at := SelectEmbeds(Offered(c, s.published), c.kept);
    if Shed(c.kept) == 0 {
      SelectAll(Offered(c, s.published), c.kept);
    }
  }

  lemma {:induction false} SelectAll(evs: seq<Event>, kept: seq<bool>)
    requires |evs| == |kept| && Shed(kept) == 0
    ensures Select(evs, kept) == evs
  {
    if evs != [] {
      SelectAll(evs[..|evs| - 1], kept[..|evs| - 1]);
    }
  }

  ghost predicate NeverOverflows(ops: seq<Op>, id: nat) {
    forall k | 0 <= k < |ops| :: !Overflows(ops, id, k)
  }

  lemma NeverOverflowsExtends(ops: seq<Op>, id: nat)
    requires ops != []
    ensures var init := ops[..|ops| - 1];
            NeverOverflows(ops, id) <==> NeverOverflows(init, id) && !OverflowsAt(Run(Empty, init), ops[|ops| - 1], id)
  {
    var init := ops[..|ops| - 1];
    forall k | 0 <= k < |init| ensures Overflows(init, id, k) <==> Overflows(ops, id, k) {
      assert init[..k] == ops[..k];
    }
    assert ops[..|init|] == init;
    assert Overflows(ops, id, |init|) <==> OverflowsAt(Run(Empty, init), ops[|ops| - 1], id);
  }

  lemma {:induction false} ShedExactly(ops: seq<Op>, id: nat)
    requires Known(Run(Empty, ops), id)
    ensures Shed(ChanOf(Run(Empty, ops), id).kept) == 0 <==> NeverOverflows(ops, id)
  {
    if ops != [] {
      var init, last := ops[..|ops| - 1], ops[|ops| - 1];
      RunKeeps(init);
      NeverOverflowsExtends(ops, id);
      if Known(Run(Empty, init), id) {
        ShedExactly(init, id);
        ShedStep(Run(Empty, init), last, id);
      } else {
        NeverSubscribed(init, id);
      }
    }
  }

  lemma ShedStep(s: State, op: Op, id: nat)
    requires Inv(s) && Known(s, id)
    ensures Known(Exec(s, op), id)
    ensures Shed(ChanOf(Exec(s, op), id).kept) == Shed(ChanOf(s, id).kept) + if OverflowsAt(s, op, id) then 1 else 0
  {
    if op.Publish? && id in s.live {
      ShedOffer(s.live[id], op.ev);
    } else {
      MaskUntouched(s, op, id);
    }
  }

  lemma ShedOffer(c: Chan, ev: Event)
    ensures Shed(Offer(c, ev).kept) == Shed(c.kept) + if |c.buffer| >= BusBuffer then 1 else 0
  {
    assert (c.kept + [true])[..|c.kept|] == c.kept && (c.kept + [false])[..|c.kept|] == c.kept;
  }

  lemma MaskUntouched(s: State, op: Op, id: nat)
    requires Inv(s) && Known(s, id) && !(op.Publish? && id in s.live)
    ensures Known(Exec(s, op), id) && ChanOf(Exec(s, op), id).kept == ChanOf(s, id).kept
  {
  }

  lemma {:induction false} NeverSubscribed(ops: seq<Op>, id: nat)
    requires !Known(Run(Empty, ops), id)
    ensures NeverOverflows(ops, id)
  {
    if ops != [] {
      var init, last := ops[..|ops| - 1], ops[|ops| - 1];
      RunKeeps(init);
      if Known(Run(Empty, init), id) {
        ShedStep(Run(Empty, init), last, id);
      }
      NeverSubscribed(init, id);
      NeverOverflowsExtends(ops, id);
    }
  }

  /** A closed channel is never sent to again, and never reopened: whatever follows, its
      contents only move from buffered to received. */
  lemma {:induction false} ClosedIsSealed(s: State, ops: seq<Op>, id: nat)
    requires Inv(s) && id in s.closed
    ensures id in Run(s, ops).closed && id !in Run(s, ops).live && Inv(Run(s, ops))
    ensures var c, c' := s.closed[id], Run(s, ops).closed[id];
            c'.received + c'.buffer == c.received + c.buffer && c'.kept == c.kept && c.received <= c'.received
  {
    if ops != [] {
      var init, last := ops[..|ops| - 1], ops[|ops| - 1];
      ClosedIsSealed(s, init, id);
      ExecKeeps(Run(s, init), last);
      SealedStep(Run(s, init), last, id);
      TakeMoves(Run(s, init).closed[id], s.closed[id].received);
    }
  }

  /** A receive moves the oldest event and loses nothing. */
  lemma TakeMoves(c: Chan, earlier: seq<Event>)
    requires earlier <= c.received
    ensures Take(c).received + Take(c).buffer == c.received + c.buffer && Take(c).kept == c.kept
    ensures earlier <= Take(c).received
  {
    if c.buffer != [] {
      assert c.buffer == [c.buffer[0]] + c.buffer[1..];
    }
  }

  lemma SealedStep(s: State, op: Op, id: nat)
    requires id in s.closed && id !in s.live && id < s.next
    ensures id in Exec(s, op).closed && id !in Exec(s, op).live
    ensures Exec(s, op).closed[id] == if op == Receive(id) then Take(s.closed[id]) else s.closed[id]
  {
  }

  /** What one operation returns to the reader of channel `id`. */
  ghost function Returns(s: State, op: Op, id: nat): (r: seq<Event>) {
    if op == Receive(id) && Known(s, id) && ChanOf(s, id).buffer != [] then [ChanOf(s, id).buffer[0]] else []
  }

  /** All that the receives of a run returned to the reader of channel `id`. */
  ghost function Returned(ops: seq<Op>, id: nat): (r: seq<Event>) {
    if ops == [] then []
    else
      var init := ops[..|ops| - 1];
      Returned(init, id) + Returns(Run(Empty, init), ops[|ops| - 1], id)
  }

  /** Over any run, what a subscriber has received is what its receives returned, in order;
      one that was never subscribed got nothing. */
  lemma {:induction false} ReceivedIsReturned(ops: seq<Op>, id: nat)
    ensures Known(Run(Empty, ops), id) ==> ChanOf(Run(Empty, ops), id).received == Returned(ops, id)
    ensures !Known(Run(Empty, ops), id) ==> Returned(ops, id) == []
  {
    if ops != [] {
      var init := ops[..|ops| - 1];
      RunKeeps(init);
      ReceivedIsReturned(init, id);
      ReceivedStep(Run(Empty, init), ops[|ops| - 1], id);
    }
  }

  lemma ReceivedStep(s: State, op: Op, id: nat)
    requires (id in s.live ==> id !in s.closed) && (Known(s, id) ==> id < s.next)
    ensures Known(s, id) ==>
              Known(Exec(s, op), id) && ChanOf(Exec(s, op), id).received == ChanOf(s, id).received + Returns(s, op, id)
    ensures !Known(s, id) && Known(Exec(s, op), id) ==> ChanOf(Exec(s, op), id).received == []
  {
  }

  // ----- the bus as it runs -----

  class Bus {
    var subscribers: map<nat, Chan>
    var closed: map<nat, Chan>
    var next: nat
    var published: seq<Event>

    constructor ()
      ensures View() == Empty
    {
      subscribers, closed, next, published := map[], map[], 0, [];
    }

    ghost function View(): (s: State)
      reads this
    {
      State(subscribers, closed, next, published)
    }

    /** The id is one no subscriber has or had; the channel starts empty, to be offered
        exactly what is published from now on; the others notice nothing. */
    method Subscribe() returns (id: nat)
      modifies this
      ensures View() == Exec(old(View()), Op.Subscribe)
      ensures id in subscribers && subscribers[id].buffer == subscribers[id].received == [] && subscribers[id].since == |published|
      ensures subscribers - {id} == old(subscribers) - {id} && closed == old(closed) && published == old(published)
      ensures old(Inv(View())) ==> !Known(old(View()), id) && Inv(View())
    {
      if Inv(View()) {
        SubscribeKeeps(View());
      }
      id := next;
      next := next + 1;
      subscribers := subscribers[id := Chan([], [], |published|, [])];
    }

    /** The cleanup function Subscribe returns: the channel leaves the table as it is, and is
        closed; calling it again does nothing. */
    method Cleanup(id: nat)
      modifies this
      ensures View() == Exec(old(View()), Unsubscribe(id))
      ensures subscribers == old(subscribers) - {id} && next == old(next) && published == old(published)
      ensures closed == if id in old(subscribers) then old(closed)[id := old(subscribers)[id]] else old(closed)
      ensures Exec(View(), Unsubscribe(id)) == View()
    {
      if id in subscribers {
        var c := subscribers[id];
        subscribers := subscribers - {id};
        closed := closed[id := c];
      }
    }

    /** Publish: one non-blocking send per subscriber, in any order. A channel with fewer than
        16 events waiting gets the event last; a full one, and every closed one, nothing. */
    method Broadcast(ev: Event)
      modifies this
      ensures View() == Exec(old(View()), Publish(ev))
      ensures subscribers.Keys == old(subscribers).Keys && closed == old(closed) && published == old(published) + [ev]
      ensures forall id | id in subscribers ::
                && subscribers[id].received == old(subscribers)[id].received
                && subscribers[id].buffer == if |old(subscribers)[id].buffer| < 16 then old(subscribers)[id].buffer + [ev]
                                             else old(subscribers)[id].buffer
    {
      var todo := subscribers.Keys;
      while todo != {}
        invariant todo <= subscribers.Keys == old(subscribers).Keys
        invariant closed == old(closed) && next == old(next) && published == old(published)
        invariant forall id | id in subscribers :: subscribers[id] == if id in todo then old(subscribers)[id] else Offer(old(subscribers)[id], ev)
        decreases todo
      {
        var id :| id in todo;
        todo := todo - {id};
        subscribers := subscribers[id := Offer(subscribers[id], ev)];
      }
      published := published + [ev];
    }

    /** The SSE writer draining one event: the oldest waiting one moves from buffered to
        received; with none waiting nothing changes. No other channel is touched. */
    method Drain(id: nat) returns (ev: Option<Event>)
      modifies this
      ensures View() == Exec(old(View()), Receive(id))
      ensures ev.Some? <==> Known(old(View()), id) && ChanOf(old(View()), id).buffer != []
      ensures ev.Some? ==>
                var c, c' := ChanOf(old(View()), id), ChanOf(View(), id);
                && Known(View(), id) && c.buffer == [ev.value] + c'.buffer && c'.received == c.received + [ev.value]
      ensures ev.None? ==> View() == old(View())
      ensures subscribers - {id} == old(subscribers) - {id} && closed - {id} == old(closed) - {id}
    {
      ev := None;
      if id in subscribers {
        if subscribers[id].buffer != [] {
          ev := Some(subscribers[id].buffer[0]);
        }
        subscribers := subscribers[id := Take(subscribers[id])];
      } else if id in closed {
        if closed[id].buffer != [] {
          ev := Some(closed[id].buffer[0]);
        }
        closed := closed[id := Take(closed[id])];
      }
    }
  }
}

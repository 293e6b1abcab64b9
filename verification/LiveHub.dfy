/** Live fan-out: one publisher, any number of subscribers with bounded
    drop-oldest queues, deliveries running later on each subscriber's own loop.
    A frame is identified by its publication number.
  */
module LiveHub {
  import opened Prelude

  /** One subscriber: what was latest when it joined, deliveries scheduled on its loop, its
      queue, and what its stream has yielded. */
  datatype Subscriber = Subscriber(
    base: nat,
    latestDue: bool,
    scheduled: seq<nat>,
    queue: seq<nat>,
    received: seq<nat>)

  /** `published` frames so far; `toSchedule` are the subscribers the publish in progress has
      snapshotted and not reached yet. */
  datatype Hub = Hub(published: nat, subscribers: map<nat, Subscriber>, nextSubscriber: nat, toSchedule: set<nat>)

  const EMPTY := Hub(0, map[], 0, {})

  datatype Step =
    | Subscribe
    | Publish
    | Schedule(id: nat, loopClosed: bool)
    | Deliver(id: nat)
    | Receive(id: nat)
    | Leave(id: nat)

  function Without<T>(m: map<nat, T>, id: nat): map<nat, T> { map k | k in m && k != id :: m[k] }

  function Offered(s: Subscriber, bound: nat): Subscriber
    requires s.scheduled != []
  {
    var kept := if |s.queue| >= bound && s.queue != [] then s.queue[1..] else s.queue;
    s.(scheduled := s.scheduled[1..], queue := kept + [s.scheduled[0]])
  }

  function Yielded(s: Subscriber): Subscriber {
    if s.latestDue && s.base > 0 then s.(latestDue := false, received := s.received + [s.base - 1])
    else if s.queue != [] then s.(queue := s.queue[1..], received := s.received + [s.queue[0]])
    else s
  }

  /** A step that is not enabled leaves the hub as it is; a second publish waits for the first. */
  function Next(bound: nat, h: Hub, step: Step): Hub {
    match step
    case Subscribe =>
      h.(subscribers := h.subscribers[h.nextSubscriber := Subscriber(h.published, h.published > 0, [], [], [])],
         nextSubscriber := h.nextSubscriber + 1)
    case Publish =>
      if h.toSchedule != {} then h else h.(published := h.published + 1, toSchedule := h.subscribers.Keys)
    case Schedule(id, loopClosed) =>
      if id !in h.toSchedule || h.published == 0 then h
      else
        var rest := h.(toSchedule := h.toSchedule - {id});
        if id !in h.subscribers then rest
        else if loopClosed then rest.(subscribers := Without(h.subscribers, id))
        else
          var s := h.subscribers[id];
          rest.(subscribers := h.subscribers[id := s.(scheduled := s.scheduled + [h.published - 1])])
    case Deliver(id) =>
      if id !in h.subscribers || h.subscribers[id].scheduled == [] then h
      else h.(subscribers := h.subscribers[id := Offered(h.subscribers[id], bound)])
    case Receive(id) =>
      if id !in h.subscribers then h
      else h.(subscribers := h.subscribers[id := Yielded(h.subscribers[id])])
    case Leave(id) =>
      h.(subscribers := Without(h.subscribers, id))
  }

  function Run(bound: nat, steps: seq<Step>): Hub {
    if steps == [] then EMPTY else Next(bound, Run(bound, steps[..|steps| - 1]), steps[|steps| - 1])
  }

  // ---------- the invariant ----------

  ghost predicate Increasing(s: seq<nat>) { forall i, j :: 0 <= i < j < |s| ==> s[i] < s[j] }

  /** How many publications have been scheduled for this subscriber's loop, counting from the first. */
  function ScheduledUpTo(h: Hub, id: nat): int { if id in h.toSchedule then h.published - 1 else h.published }

  /** Received then queued frames: increasing, none from before the one that was latest on joining,
      and ending with the newest one delivered so far. */
  ghost predicate IsLine(line: seq<nat>, base: nat, delivered: nat) {
    && Increasing(line)
    && (forall i :: 0 <= i < |line| ==> base <= line[i] + 1 && line[i] < delivered)
    && (delivered > base ==> line != [] && line[|line| - 1] == delivered - 1)
  }

  /** The publications from number `first` on, waiting for the subscriber's loop. */
  ghost predicate IsDue(scheduled: seq<nat>, first: int) {
    forall i :: 0 <= i < |scheduled| ==> scheduled[i] == first + i
  }

  ghost predicate NoneBefore(queue: seq<nat>, base: nat) { forall i :: 0 <= i < |queue| ==> base <= queue[i] }

  ghost predicate SubscriberOk(bound: nat, s: Subscriber, upTo: int) {
    var delivered := upTo - |s.scheduled|;
    && s.base <= delivered
    && IsDue(s.scheduled, delivered)
    && |s.queue| <= bound
    && IsLine(s.received + s.queue, s.base, delivered)
    && NoneBefore(s.queue, s.base)
    && (s.latestDue ==> s.received == [] && s.base > 0)
    && (s.base > 0 && !s.latestDue ==> s.received != [] && s.received[0] == s.base - 1)
  }

  ghost predicate HubOk(bound: nat, h: Hub) {
    && (forall id :: id in h.subscribers ==>
          id < h.nextSubscriber && SubscriberOk(bound, h.subscribers[id], ScheduledUpTo(h, id)))
    && (forall id :: id in h.toSchedule ==> id < h.nextSubscriber)
    && (h.toSchedule != {} ==> h.published > 0)
  }

  lemma LineGrows(line: seq<nat>, base: nat, d: nat)
    requires IsLine(line, base, d) && base <= d
    ensures IsLine(line + [d], base, d + 1)
  {}

  /** Dropping one frame from a line that goes on with a newer one. */
  lemma LineDrops(line: seq<nat>, n: nat, base: nat, d: nat)
    requires IsLine(line, base, d) && base <= d && n < |line|
    ensures IsLine(line[..n] + line[n + 1..] + [d], base, d + 1)
  {
    var kept := line[..n] + line[n + 1..];
    assert forall i :: 0 <= i < |kept| ==> kept[i] == line[if i < n then i else i + 1];
    hide *;
    KeptLineGrows(line, n, kept, base, d);
  }

  lemma KeptLineGrows(line: seq<nat>, n: nat, kept: seq<nat>, base: nat, d: nat)
    requires IsLine(line, base, d) && base <= d && n < |line| && |kept| == |line| - 1
    requires forall i :: 0 <= i < |kept| ==> kept[i] == line[if i < n then i else i + 1]
    ensures IsLine(kept + [d], base, d + 1)
  {}

  lemma OfferKeepsLine(received: seq<nat>, queue: seq<nat>, base: nat, d: nat)
    requires IsLine(received + queue, base, d) && base <= d
    ensures IsLine(received + (queue + [d]), base, d + 1)
    ensures queue != [] ==> IsLine(received + (queue[1..] + [d]), base, d + 1)
  {
    hide IsLine;
    var line, n := received + queue, |received|;
    LineGrows(line, base, d);
    assert received + (queue + [d]) == line + [d];
    if queue != [] {
      LineDrops(line, n, base, d);
      assert received + (queue[1..] + [d]) == line[..n] + line[n + 1..] + [d];
    }
  }

  lemma DueMovesOn(scheduled: seq<nat>, first: int)
    requires IsDue(scheduled, first) && scheduled != []
    ensures scheduled[0] == first && IsDue(scheduled[1..], first + 1)
  {}

  lemma OfferKeepsBase(queue: seq<nat>, base: nat, d: nat)
    requires NoneBefore(queue, base) && base <= d
    ensures NoneBefore(queue + [d], base) && (queue != [] ==> NoneBefore(queue[1..] + [d], base))
  {}

  lemma OfferKeepsOk(bound: nat, s: Subscriber, upTo: int)
    requires bound >= 1 && SubscriberOk(bound, s, upTo) && s.scheduled != []
    ensures SubscriberOk(bound, Offered(s, bound), upTo)
  {
    hide IsLine, IsDue, NoneBefore;
    var delivered := upTo - |s.scheduled|;
    DueMovesOn(s.scheduled, delivered);
    OfferKeepsLine(s.received, s.queue, s.base, delivered);
    OfferKeepsBase(s.queue, s.base, delivered);
  }

  lemma LineStarts(queue: seq<nat>, base: nat, d: nat)
    requires IsLine(queue, base, d) && 0 < base <= d && NoneBefore(queue, base)
    ensures IsLine([base - 1] + queue, base, d)
  {
    var line := [base - 1] + queue;
    assert forall i :: 0 < i < |line| ==> line[i] == queue[i - 1];
  }

  lemma YieldKeepsOk(bound: nat, s: Subscriber, upTo: int)
    requires SubscriberOk(bound, s, upTo)
    ensures SubscriberOk(bound, Yielded(s), upTo)
  {
    hide IsLine, IsDue, NoneBefore;
    if s.latestDue {
      assert [] + s.queue == s.queue && [] + [s.base - 1] == [s.base - 1];
      LineStarts(s.queue, s.base, upTo - |s.scheduled|);
    } else if s.queue != [] {
      YieldKeepsBase(s.queue, s.base);
      assert s.received + [s.queue[0]] + s.queue[1..] == s.received + s.queue;
    }
  }

  lemma YieldKeepsBase(queue: seq<nat>, base: nat)
    requires NoneBefore(queue, base) && queue != []
    ensures NoneBefore(queue[1..], base)
  {}

  lemma JoinIsOk(bound: nat, published: nat)
    ensures SubscriberOk(bound, Subscriber(published, published > 0, [], [], []), published)
  {}

  lemma ScheduleKeepsOk(bound: nat, s: Subscriber, upTo: nat)
    requires SubscriberOk(bound, s, upTo)
    ensures SubscriberOk(bound, s.(scheduled := s.scheduled + [upTo]), upTo + 1)
  {
    hide IsLine, NoneBefore;
  }

  lemma StepKeepsOk(bound: nat, h: Hub, step: Step)
    requires bound >= 1 && HubOk(bound, h)
    ensures HubOk(bound, Next(bound, h, step))
  {
    hide SubscriberOk, Offered, Yielded;
    var g := Next(bound, h, step);
    JoinIsOk(bound, h.published);
    forall id | id in g.subscribers
      ensures id < g.nextSubscriber && SubscriberOk(bound, g.subscribers[id], ScheduledUpTo(g, id))
    {
      if id in h.subscribers {
        var s := h.subscribers[id];
        if step == Deliver(id) && s.scheduled != [] { OfferKeepsOk(bound, s, ScheduledUpTo(h, id)); }
        if step == Receive(id) { YieldKeepsOk(bound, s, ScheduledUpTo(h, id)); }
        if step == Schedule(id, false) && id in h.toSchedule { ScheduleKeepsOk(bound, s, h.published - 1); }
      }
    }
  }

  /** What one stream has yielded, seen against everything published. */
  ghost predicate SeesSubsequence(s: Subscriber, published: nat) {
    && Increasing(s.received)
    && (forall i :: 0 <= i < |s.received| ==> s.base <= s.received[i] + 1 && s.received[i] < published)
    && (s.base > 0 && s.received != [] ==> s.received[0] == s.base - 1)
  }

  /** After any steps, for every subscriber: what it has received is an increasing run of publications,
      starting at the frame that was latest when it joined, and its queue is within its bound. */
  lemma {:induction false} SubscribersSeeASubsequence(bound: nat, steps: seq<Step>)
    requires bound >= 1
    ensures var h := Run(bound, steps);
      && HubOk(bound, h)
      && forall id :: id in h.subscribers ==>
           |h.subscribers[id].queue| <= bound && SeesSubsequence(h.subscribers[id], h.published)
  {
    if steps != [] {
      SubscribersSeeASubsequence(bound, steps[..|steps| - 1]);
      StepKeepsOk(bound, Run(bound, steps[..|steps| - 1]), steps[|steps| - 1]);
    }
    var h := Run(bound, steps);
    forall id | id in h.subscribers ensures SeesSubsequence(h.subscribers[id], h.published) {
      OkSeesSubsequence(bound, h.subscribers[id], ScheduledUpTo(h, id), h.published);
    }
  }

  lemma OkSeesSubsequence(bound: nat, s: Subscriber, upTo: int, published: nat)
    requires SubscriberOk(bound, s, upTo) && upTo <= published
    ensures SeesSubsequence(s, published)
  {
    var line := s.received + s.queue;
    assert forall i :: 0 <= i < |s.received| ==> s.received[i] == line[i];
  }

  /** Once deliveries have run and the queue is drained, the last frame received is the last published. */
  lemma DrainedSubscriberIsCurrent(bound: nat, steps: seq<Step>, id: nat)
    requires bound >= 1
    requires var h := Run(bound, steps);
      && id in h.subscribers && id !in h.toSchedule && h.published > 0
      && h.subscribers[id].scheduled == [] && h.subscribers[id].queue == [] && !h.subscribers[id].latestDue
    ensures var h := Run(bound, steps);
      h.subscribers[id].received != [] && h.subscribers[id].received[|h.subscribers[id].received| - 1] == h.published - 1
  {
    SubscribersSeeASubsequence(bound, steps);
    var h := Run(bound, steps);
    var s := h.subscribers[id];
    assert SubscriberOk(bound, s, ScheduledUpTo(h, id));
    assert s.received + s.queue == s.received;
    assert h.published == ScheduledUpTo(h, id);
    if s.base == h.published { assert s.received != []; }
  }

  // ---------- the hub as an object ----------

  class OperationalHub {
    const queueSize: nat
    var published: nat
    var subscribers: map<nat, Subscriber>
    var nextSubscriber: nat
    var toSchedule: set<nat>

    function Model(): Hub
      reads this
    {
      Hub(published, subscribers, nextSubscriber, toSchedule)
    }

    constructor (queueSize: nat)
      requires queueSize >= 2
      ensures Model() == EMPTY && this.queueSize == queueSize && HubOk(queueSize, Model())
    {
      this.queueSize := queueSize;
      published, subscribers, nextSubscriber, toSchedule := 0, map[], 0, {};
    }

    /** The locked section of `publish`. */
    method PublishLocked()
      requires queueSize >= 1 && HubOk(queueSize, Model())
      requires toSchedule == {}
      modifies this
      ensures Model() == Next(queueSize, old(Model()), Publish) && HubOk(queueSize, Model())
    {
      hide HubOk;
      StepKeepsOk(queueSize, Model(), Publish);
      published := published + 1;
      toSchedule := subscribers.Keys;
    }

    /** One `call_soon_threadsafe` of the loop in `publish`. */
    method ScheduleDelivery(id: nat, loopClosed: bool)
      requires queueSize >= 1 && HubOk(queueSize, Model())
      requires id in toSchedule && published > 0
      modifies this
      ensures Model() == Next(queueSize, old(Model()), Schedule(id, loopClosed)) && HubOk(queueSize, Model())
    {
      hide HubOk;
      StepKeepsOk(queueSize, Model(), Schedule(id, loopClosed));
      toSchedule := toSchedule - {id};
      if id in subscribers {
        if loopClosed {
          subscribers := Without(subscribers, id);
        } else {
          var s := subscribers[id];
          subscribers := subscribers[id := s.(scheduled := s.scheduled + [published - 1])];
        }
      }
    }

    /** The closure `deliver`, run by the subscriber's loop. */
    method RunDelivery(id: nat)
      requires queueSize >= 1 && HubOk(queueSize, Model())
      requires id in subscribers && subscribers[id].scheduled != []
      modifies this
      ensures Model() == Next(queueSize, old(Model()), Deliver(id)) && HubOk(queueSize, Model())
      ensures id in subscribers
      ensures var was, now := old(subscribers[id]), subscribers[id];
        && (|was.queue| < queueSize ==> now.queue == was.queue + [was.scheduled[0]])
        && (|was.queue| >= queueSize && was.queue != [] ==> now.queue == was.queue[1..] + [was.scheduled[0]])
    {
      hide HubOk;
      StepKeepsOk(queueSize, Model(), Deliver(id));
      var s := subscribers[id];
      var frame, queue := s.scheduled[0], s.queue;
      if |queue| >= queueSize && queue != [] {
        queue := queue[1..];
      }
      queue := queue + [frame];
      subscribers := subscribers[id := s.(scheduled := s.scheduled[1..], queue := queue)];
    }

    /** Entering `stream`: registration and the read of the latest frame share one locked section. */
    method Join() returns (id: nat)
      requires queueSize >= 1 && HubOk(queueSize, Model())
      modifies this
      ensures id == old(nextSubscriber)
      ensures Model() == Next(queueSize, old(Model()), Subscribe) && HubOk(queueSize, Model())
    {
      hide HubOk;
      StepKeepsOk(queueSize, Model(), Subscribe);
      id := nextSubscriber;
      nextSubscriber := nextSubscriber + 1;
      subscribers := subscribers[id := Subscriber(published, published > 0, [], [], [])];
    }

    /** One `yield` of `stream`: the latest frame first, then the queue; nothing while it is empty. */
    method YieldNext(id: nat) returns (frame: Option<nat>)
      requires queueSize >= 1 && HubOk(queueSize, Model())
      requires id in subscribers && (subscribers[id].latestDue ==> subscribers[id].base > 0)
      modifies this
      ensures Model() == Next(queueSize, old(Model()), Receive(id)) && HubOk(queueSize, Model())
      ensures frame.None? ==> subscribers[id].received == old(subscribers[id].received)
      ensures frame.Some? ==> subscribers[id].received == old(subscribers[id].received) + [frame.value]
    {
      hide HubOk;
      StepKeepsOk(queueSize, Model(), Receive(id));
      var s := subscribers[id];
      frame := None;
      if s.latestDue {
        frame := Some(s.base - 1);
        s := s.(latestDue := false);
      } else if s.queue != [] {
        frame := Some(s.queue[0]);
        s := s.(queue := s.queue[1..]);
      }
      if frame.Some? {
        s := s.(received := s.received + [frame.value]);
      }
      subscribers := subscribers[id := s];
    }
  }
}

/** What a live subscriber misses: a frame is lost only to a full queue, and then it is the
    oldest one queued. The numbers of frames delivered, lost and kept always balance.
  */
module LiveDeliveries {
  import opened Prelude
  import opened LiveHub

  /** The step runs a delivery on the loop of this subscriber. */
  predicate Delivers(h: Hub, step: Step, id: nat) {
    step == Deliver(id) && id in h.subscribers && h.subscribers[id].scheduled != []
  }

  /** It does so while the subscriber's queue is full. */
  predicate Overflows(bound: nat, h: Hub, step: Step, id: nat) {
    Delivers(h, step, id) && |h.subscribers[id].queue| >= bound
  }

  /** A delivery appends its frame; room in the queue keeps everything, a full queue loses exactly its oldest frame. */
  lemma DeliveryKeeps(bound: nat, h: Hub, id: nat)
    requires bound >= 1 && HubOk(bound, h) && Delivers(h, Deliver(id), id)
    ensures var s := h.subscribers[id];
      var after := Next(bound, h, Deliver(id));
      id in after.subscribers
      && var t := after.subscribers[id];
         && t.received == s.received && t.base == s.base && t.latestDue == s.latestDue
         && t.scheduled == s.scheduled[1..]
         && (|s.queue| < bound ==> t.queue == s.queue + [s.scheduled[0]])
         && (|s.queue| >= bound ==> s.queue != [] && [s.queue[0]] + t.queue == s.queue + [s.scheduled[0]])
  {
    hide SubscriberOk, ScheduledUpTo;
  }

  /** A stream yields the frame that was latest on joining first, and then exactly the head of its queue. */
  lemma YieldKeeps(bound: nat, h: Hub, id: nat)
    requires HubOk(bound, h) && id in h.subscribers
    ensures var s := h.subscribers[id];
      var after := Next(bound, h, Receive(id));
      id in after.subscribers
      && var t := after.subscribers[id];
         && t.base == s.base && t.scheduled == s.scheduled
         && (s.latestDue ==> !t.latestDue && t.received == [s.base - 1] && t.queue == s.queue && s.base > 0 && s.received == [])
         && (!s.latestDue ==> !t.latestDue && t.received + t.queue == s.received + s.queue
                              && |t.received| == |s.received| + if s.queue != [] then 1 else 0)
  {
    hide IsLine, IsDue, NoneBefore;
    var s := h.subscribers[id];
    assert SubscriberOk(bound, s, ScheduledUpTo(h, id));
    if s.latestDue { assert s.received + [s.base - 1] == [s.base - 1]; }
  }

  /** Only a delivery, a yield or a scheduling of its own touches a subscriber. */
  lemma OthersAreUntouched(bound: nat, h: Hub, step: Step, id: nat)
    requires id in h.subscribers && id in Next(bound, h, step).subscribers && id < h.nextSubscriber
    requires step != Deliver(id) && step != Receive(id)
    ensures var s, t := h.subscribers[id], Next(bound, h, step).subscribers[id];
      t == s.(scheduled := t.scheduled)
      && |t.scheduled| - |s.scheduled| == ScheduledUpTo(Next(bound, h, step), id) - ScheduledUpTo(h, id)
  {
    hide Offered, Yielded;
  }

  /** A publication that no other one holds up becomes the newest and is to be sent to every subscriber there is. */
  lemma PublicationTells(bound: nat, h: Hub)
    ensures var after := Next(bound, h, Publish);
      && after.subscribers == h.subscribers
      && (h.toSchedule == {} ==> after.published == h.published + 1 && after.toSchedule == h.subscribers.Keys)
      && (h.toSchedule != {} ==> after == h)
  {}

  /** Sending puts the newest publication at the end of what waits on the subscriber's loop. */
  lemma SendingTells(bound: nat, h: Hub, id: nat)
    requires id in h.toSchedule && h.published > 0
    ensures var after := Next(bound, h, Schedule(id, false));
      && after.published == h.published && after.toSchedule == h.toSchedule - {id}
      && after.subscribers.Keys == h.subscribers.Keys
      && (id in h.subscribers ==> after.subscribers[id].scheduled == h.subscribers[id].scheduled + [h.published - 1])
  {}

  // ---------- over a run ----------

  function DeliveredIn(bound: nat, steps: seq<Step>, id: nat): nat {
    if steps == [] then 0
    else
      var n := |steps| - 1;
      DeliveredIn(bound, steps[..n], id) + if Delivers(Run(bound, steps[..n]), steps[n], id) then 1 else 0
  }

  /** Deliveries that met a full queue. */
  function LostIn(bound: nat, steps: seq<Step>, id: nat): nat {
    if steps == [] then 0
    else
      var n := |steps| - 1;
      LostIn(bound, steps[..n], id) + if Overflows(bound, Run(bound, steps[..n]), steps[n], id) then 1 else 0
  }

  function Frames(from: nat, count: nat): seq<nat> {
    seq(count, i requires 0 <= i < count => from + i)
  }

  /** The frame that was latest on joining, once it has been yielded. */
  function Head(s: Subscriber): seq<nat> {
    if s.base > 0 && !s.latestDue then [s.base - 1] else []
  }

  ghost predicate Balances(s: Subscriber, upTo: int, delivered: nat, lost: nat) {
    && delivered == upTo - |s.scheduled| - s.base
    && |s.received| + |s.queue| + lost == |Head(s)| + delivered
    && (lost == 0 ==> s.received + s.queue == Head(s) + Frames(s.base, delivered))
  }

  lemma {:induction false} NothingBeforeJoining(bound: nat, steps: seq<Step>, id: nat)
    requires bound >= 1 && id >= Run(bound, steps).nextSubscriber
    ensures DeliveredIn(bound, steps, id) == 0 && LostIn(bound, steps, id) == 0
  {
    hide HubOk;
    if steps != [] {
      var n := |steps| - 1;
      SubscribersSeeASubsequence(bound, steps[..n]);
      IdsAreOld(bound, Run(bound, steps[..n]), id);
      NothingBeforeJoining(bound, steps[..n], id);
    }
  }

  lemma IdsAreOld(bound: nat, h: Hub, id: nat)
    requires HubOk(bound, h)
    ensures id in h.subscribers ==> id < h.nextSubscriber && SubscriberOk(bound, h.subscribers[id], ScheduledUpTo(h, id))
    ensures id in h.toSchedule ==> id < h.nextSubscriber
  {}

  /** The balance of every subscriber on every run: what it received or has queued, together with what was lost to a
      full queue, is the frame latest on joining and one frame for each delivery; and when no delivery met a full
      queue, it is exactly those frames, in order. */
  lemma {:induction false} FramesBalance(bound: nat, steps: seq<Step>, id: nat)
    requires bound >= 1 && id in Run(bound, steps).subscribers
    ensures var h := Run(bound, steps);
      Balances(h.subscribers[id], ScheduledUpTo(h, id), DeliveredIn(bound, steps, id), LostIn(bound, steps, id))
  {
    hide HubOk, Next, Balances;
    if steps == [] {
    } else {
      var n := |steps| - 1;
      var h, step := Run(bound, steps[..n]), steps[n];
      SubscribersSeeASubsequence(bound, steps[..n]);
      IdsAreOld(bound, h, id);
      if id in h.subscribers {
        FramesBalance(bound, steps[..n], id);
        StepBalances(bound, h, step, id, DeliveredIn(bound, steps[..n], id), LostIn(bound, steps[..n], id));
      } else {
        JoinBalances(bound, h, step, id);
        NothingBeforeJoining(bound, steps[..n], id);
      }
    }
  }

  lemma JoinBalances(bound: nat, h: Hub, step: Step, id: nat)
    requires HubOk(bound, h) && id !in h.subscribers && id in Next(bound, h, step).subscribers
    ensures id == h.nextSubscriber && !Delivers(h, step, id)
    ensures var g := Next(bound, h, step); Balances(g.subscribers[id], ScheduledUpTo(g, id), 0, 0)
  {
    hide SubscriberOk, Offered, Yielded;
  }

  lemma StepBalances(bound: nat, h: Hub, step: Step, id: nat, delivered: nat, lost: nat)
    requires bound >= 1 && HubOk(bound, h) && id in h.subscribers && id in Next(bound, h, step).subscribers
    requires Balances(h.subscribers[id], ScheduledUpTo(h, id), delivered, lost)
    ensures var g := Next(bound, h, step);
      Balances(g.subscribers[id], ScheduledUpTo(g, id), delivered + (if Delivers(h, step, id) then 1 else 0),
               lost + if Overflows(bound, h, step, id) then 1 else 0)
  {
    hide HubOk, SubscriberOk, Balances, IsDue, Head, ScheduledUpTo;
    IdsAreOld(bound, h, id);
    SameClock(bound, h, step, id);
    WaitingIsDue(bound, h.subscribers[id], ScheduledUpTo(h, id));
    if Delivers(h, step, id) {
      DeliveryKeeps(bound, h, id);
      hide Next;
      DeliveryBalances(bound, h.subscribers[id], Next(bound, h, step).subscribers[id], ScheduledUpTo(h, id), delivered, lost);
    } else if step == Receive(id) {
      YieldKeeps(bound, h, id);
      hide Next;
      YieldBalances(h.subscribers[id], Next(bound, h, step).subscribers[id], ScheduledUpTo(h, id), delivered, lost);
    } else if step != Deliver(id) {
      OthersAreUntouched(bound, h, step, id);
      hide Next;
      OtherBalances(h.subscribers[id], Next(bound, h, step).subscribers[id], ScheduledUpTo(h, id),
        ScheduledUpTo(Next(bound, h, step), id), delivered, lost);
    }
  }

  lemma WaitingIsDue(bound: nat, s: Subscriber, upTo: int)
    requires SubscriberOk(bound, s, upTo)
    ensures IsDue(s.scheduled, upTo - |s.scheduled|)
  {}

  lemma SameClock(bound: nat, h: Hub, step: Step, id: nat)
    ensures step == Deliver(id) || step == Receive(id) ==> ScheduledUpTo(Next(bound, h, step), id) == ScheduledUpTo(h, id)
  {}

  lemma DeliveryBalances(bound: nat, s: Subscriber, t: Subscriber, upTo: int, delivered: nat, lost: nat)
    requires bound >= 1 && Balances(s, upTo, delivered, lost) && s.scheduled != [] && IsDue(s.scheduled, upTo - |s.scheduled|)
    requires t.received == s.received && t.base == s.base && t.latestDue == s.latestDue && t.scheduled == s.scheduled[1..]
    requires |s.queue| < bound ==> t.queue == s.queue + [s.scheduled[0]]
    requires |s.queue| >= bound ==> s.queue != [] && [s.queue[0]] + t.queue == s.queue + [s.scheduled[0]]
    ensures Balances(t, upTo, delivered + 1, lost + if |s.queue| >= bound then 1 else 0)
  {
    if |s.queue| < bound {
      assert t.received + t.queue == (s.received + s.queue) + [s.scheduled[0]];
      assert Frames(s.base, delivered + 1) == Frames(s.base, delivered) + [s.base + delivered];
    } else {
      assert |[s.queue[0]] + t.queue| == |s.queue + [s.scheduled[0]]|;
    }
  }

  lemma YieldBalances(s: Subscriber, t: Subscriber, upTo: int, delivered: nat, lost: nat)
    requires Balances(s, upTo, delivered, lost) && t.base == s.base && t.scheduled == s.scheduled
    requires s.latestDue ==> !t.latestDue && t.received == [s.base - 1] && t.queue == s.queue && s.base > 0 && s.received == []
    requires !s.latestDue ==> !t.latestDue && t.received + t.queue == s.received + s.queue
    ensures Balances(t, upTo, delivered, lost)
  {
    if s.latestDue {
      assert s.received + s.queue == s.queue && Head(s) == [] && Head(s) + Frames(s.base, delivered) == Frames(s.base, delivered);
    } else {
      assert |t.received + t.queue| == |s.received + s.queue|;
    }
  }

  lemma OtherBalances(s: Subscriber, t: Subscriber, upTo: int, later: int, delivered: nat, lost: nat)
    requires Balances(s, upTo, delivered, lost) && t == s.(scheduled := t.scheduled)
    requires |t.scheduled| - |s.scheduled| == later - upTo
    ensures Balances(t, later, delivered, lost)
  {}

  /** A subscriber that leaves, or whose loop is found closed, is gone for the rest of the run. */
  lemma {:induction false} LeftStaysGone(bound: nat, steps: seq<Step>, more: seq<Step>, id: nat)
    requires bound >= 1 && id < Run(bound, steps).nextSubscriber
    requires Leaves(Run(bound, steps), more, id)
    ensures id !in Run(bound, steps + more).subscribers && id < Run(bound, steps + more).nextSubscriber
    decreases |more|
  {
    hide Offered, Yielded;
    var n := |more| - 1;
    var all := steps + more;
    assert all[..|all| - 1] == steps + more[..n] && all[|all| - 1] == more[n];
    if n == 0 {
      assert steps + more[..0] == steps;
    } else {
      assert more[..n][0] == more[0];
      LeftStaysGone(bound, steps, more[..n], id);
    }
  }

  /** The first of these steps takes it out. */
  predicate Leaves(h: Hub, more: seq<Step>, id: nat) {
    && more != []
    && (more[0] == Leave(id) || (more[0] == Schedule(id, true) && id in h.toSchedule && h.published > 0))
  }
}

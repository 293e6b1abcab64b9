/** The event mailbox of the carrier runtime: bounded, de-duplicating, emptied
    only by a successful graph cycle, with latches that emit a degraded condition
    once until it has been seen healthy.
  */
module EventMailbox {
  import opened Prelude

  datatype Event = Event(id: string, kind: string, entity: Option<string>)

  type Key = (string, Option<string>)

  function IdsOf(events: seq<Event>): seq<string> {
    seq(|events|, i requires 0 <= i < |events| => events[i].id)
  }

  function IdSet(events: seq<Event>): set<string> { set e | e in events :: e.id }

  function KeyOf(e: Event): Key { (e.kind, e.entity) }

  function KeySet(events: seq<Event>): set<Key> { set e | e in events :: KeyOf(e) }

  /** The mailbox and, for the record, every id handed to a successful cycle so far. */
  datatype Mailbox = Mailbox(
    pending: seq<Event>,
    processed: set<string>,
    order: seq<string>,
    latches: set<Key>,
    delivered: seq<string>)

  type Positive = n: nat | n > 0 witness 1

  /** The configuration admits positive limits only. */
  datatype Limits = Limits(eventHistory: Positive, processedEvents: Positive)

  const EMPTY := Mailbox([], {}, [], {}, [])

  // ---------- the operations, as functions ----------

  /** The events of `events` that are new to `known`, once each. */
  function Unknown(known: set<string>, events: seq<Event>): seq<Event>
    decreases |events|
  {
    if events == [] then []
    else if events[0].id in known then Unknown(known, events[1..])
    else [events[0]] + Unknown(known + {events[0].id}, events[1..])
  }

  function Submitted(l: Limits, m: Mailbox, events: seq<Event>): Mailbox {
    var accepted := Unknown(IdSet(m.pending) + m.processed, events);
    m.(pending := LastOf(m.pending + accepted, l.eventHistory))
  }

  function Requeued(l: Limits, m: Mailbox, events: seq<Event>): Mailbox {
    Submitted(l, m.(processed := m.processed - IdSet(events)), events)
  }

  /** Live prediction events join without the processed check and without the trim. */
  function Drained(m: Mailbox, live: seq<Event>): Mailbox {
    m.(pending := m.pending + Unknown(IdSet(m.pending), live))
  }

  /** The first event of each key that is not latched. */
  function Fresh(latched: set<Key>, events: seq<Event>): seq<Event>
    decreases |events|
  {
    if events == [] then []
    else if KeyOf(events[0]) in latched then Fresh(latched, events[1..])
    else [events[0]] + Fresh(latched + {KeyOf(events[0])}, events[1..])
  }

  function Latched(l: Limits, m: Mailbox, assessed: seq<Event>): Mailbox {
    Submitted(l, m, Fresh(m.latches, assessed)).(latches := KeySet(assessed))
  }

  /** Forgetting the oldest processed ids until the deque fits. */
  function Forget(processed: set<string>, order: seq<string>, limit: nat): (set<string>, seq<string>)
    decreases |order|
  {
    if |order| <= limit then (processed, order) else Forget(processed - {order[0]}, order[1..], limit)
  }

  function Delivered(l: Limits, m: Mailbox): Mailbox {
    var ids := IdsOf(m.pending);
    var (processed, order) := Forget(m.processed + IdSet(m.pending), m.order + ids, l.processedEvents);
    Mailbox([], processed, order, m.latches, m.delivered + ids)
  }

  /** How far a cycle gets: the situation provider may fail, or the graph, or neither. */
  datatype Outcome = FailsBeforeAssessment | FailsInGraph | Succeeds

  function Cycled(l: Limits, m: Mailbox, live: seq<Event>, assessed: seq<Event>, outcome: Outcome): Mailbox {
    var drained := Drained(m, live);
    match outcome
    case FailsBeforeAssessment => drained
    case FailsInGraph => Latched(l, drained, assessed).(latches := m.latches)
    case Succeeds => Delivered(l, Latched(l, drained, assessed))
  }

  lemma IdSetGrows(events: seq<Event>, e: Event)
    ensures IdSet(events + [e]) == IdSet(events) + {e.id}
  {
    assert (events + [e])[|events|] == e;
    assert forall x :: x in events + [e] <==> x in events || x == e;
  }

  lemma IdSetStep(events: seq<Event>, i: nat)
    requires i < |events|
    ensures IdSet(events[..i + 1]) == IdSet(events[..i]) + {events[i].id}
    ensures IdsOf(events[..i + 1]) == IdsOf(events[..i]) + [events[i].id]
  {
    assert events[..i + 1] == events[..i] + [events[i]];
    IdSetGrows(events[..i], events[i]);
  }

  lemma UnknownStep(known: set<string>, events: seq<Event>, i: nat)
    requires i < |events|
    ensures Unknown(known, events[i..]) ==
      if events[i].id in known then Unknown(known, events[i + 1..])
      else [events[i]] + Unknown(known + {events[i].id}, events[i + 1..])
  {
    assert events[i..][1..] == events[i + 1..];
  }

  lemma NothingUnknown(known: set<string>, events: seq<Event>)
    ensures Unknown(known, events[|events|..]) == []
  {}

  // ---------- the runtime ----------

  class CarrierRuntime {
    var pending: seq<Event>
    var processedEventIds: set<string>
    var processedEventOrder: seq<string>
    var regionalReplanLatches: set<Key>
    const limits: Limits
    ghost var delivered: seq<string>

    ghost function Model(): Mailbox
      reads this
    {
      Mailbox(pending, processedEventIds, processedEventOrder, regionalReplanLatches, delivered)
    }

    constructor (limits: Limits)
      ensures Model() == EMPTY && this.limits == limits
    {
      this.limits := limits;
      pending, processedEventIds, processedEventOrder, regionalReplanLatches := [], {}, [], {};
      delivered := [];
    }

    /** `submit_events`. */
    method SubmitEvents(events: seq<Event>)
      modifies this
      ensures Model() == Submitted(limits, old(Model()), events)
    {
      hide IdSet, Unknown;
      var pendingIds := IdSet(pending);
      ghost var accepted: seq<Event> := [];
      ghost var before := Model();
      ghost var all := Unknown(IdSet(before.pending) + before.processed, events);
      assert events[0..] == events;
      for i := 0 to |events|
        invariant Model() == before.(pending := before.pending + accepted)
        invariant pendingIds == IdSet(pending)
        invariant accepted + Unknown(pendingIds + processedEventIds, events[i..]) == all
      {
        var event := events[i];
        UnknownStep(pendingIds + processedEventIds, events, i);
        if event.id in pendingIds || event.id in processedEventIds {
          continue;
        }
        IdSetGrows(pending, event);
        assert pendingIds + {event.id} + processedEventIds == pendingIds + processedEventIds + {event.id};
        accepted := accepted + [event];
        pending := pending + [event];
        pendingIds := pendingIds + {event.id};
      }
      NothingUnknown(pendingIds + processedEventIds, events);
      assert accepted == all;
      if |pending| > limits.eventHistory {
        pending := pending[|pending| - limits.eventHistory..];
      }
    }

    /** `requeue_events`. */
    method RequeueEvents(events: seq<Event>)
      modifies this
      ensures Model() == Requeued(limits, old(Model()), events)
    {
      for i := 0 to |events|
        invariant Model() == old(Model()).(processed := old(processedEventIds) - IdSet(events[..i]))
      {
        processedEventIds := processedEventIds - {events[i].id};
        IdSetStep(events, i);
      }
      assert events[..|events|] == events;
      SubmitEvents(events);
    }

    /** `_drain_live_prediction_events`. */
    method DrainLivePredictionEvents(live: seq<Event>)
      modifies this
      ensures Model() == Drained(old(Model()), live)
    {
      hide IdSet, Unknown;
      var pendingIds := IdSet(pending);
      ghost var accepted: seq<Event> := [];
      ghost var before := Model();
      assert live[0..] == live;
      for i := 0 to |live|
        invariant Model() == before.(pending := before.pending + accepted)
        invariant pendingIds == IdSet(pending)
        invariant accepted + Unknown(pendingIds, live[i..]) == Unknown(IdSet(before.pending), live)
      {
        var event := live[i];
        UnknownStep(pendingIds, live, i);
        if event.id !in pendingIds {
          IdSetGrows(pending, event);
          accepted := accepted + [event];
          pending := pending + [event];
          pendingIds := pendingIds + {event.id};
        }
      }
      NothingUnknown(pendingIds, live);
    }

    /** `_latch_regional_replan_events`. */
    method LatchRegionalReplanEvents(events: seq<Event>) returns (freshEvents: seq<Event>)
      modifies this`regionalReplanLatches
      ensures freshEvents == Fresh(old(regionalReplanLatches), events)
      ensures regionalReplanLatches == KeySet(events)
    {
      var activeKeys := KeySet(events);
      regionalReplanLatches := regionalReplanLatches * activeKeys;
      freshEvents := [];
      var seenKeys: set<Key> := {};
      LatchedOutsideDoNotMatter(old(regionalReplanLatches), regionalReplanLatches, events);
      assert events[0..] == events && regionalReplanLatches + seenKeys == regionalReplanLatches;
      for i := 0 to |events|
        invariant freshEvents + Fresh(regionalReplanLatches + seenKeys, events[i..]) == Fresh(regionalReplanLatches, events)
      {
        var key := KeyOf(events[i]);
        assert events[i..][1..] == events[i + 1..];
        if key in regionalReplanLatches || key in seenKeys { continue; }
        freshEvents := freshEvents + [events[i]];
        assert regionalReplanLatches + seenKeys + {key} == regionalReplanLatches + (seenKeys + {key});
        seenKeys := seenKeys + {key};
      }
      regionalReplanLatches := regionalReplanLatches + activeKeys;
    }

    /** `_run_cycle`: the monitor checkpoints are not part of the model. */
    method RunCycle(live: seq<Event>, assessed: seq<Event>, outcome: Outcome)
      modifies this
      ensures Model() == Cycled(limits, old(Model()), live, assessed, outcome)
    {
      var previousLatches := regionalReplanLatches;
      DrainLivePredictionEvents(live);
      if outcome == FailsBeforeAssessment {
        regionalReplanLatches := previousLatches;
        return;
      }
      var freshEvents := LatchRegionalReplanEvents(assessed);
      SubmitEvents(freshEvents);
      if outcome == FailsInGraph {
        regionalReplanLatches := previousLatches;
        return;
      }
      RecordDelivery();
    }

    /** The part of `_run_cycle` after the graph has returned. */
    method RecordDelivery()
      modifies this
      ensures Model() == Delivered(limits, old(Model()))
    {
      hide IdSet, IdsOf;
      var pendingEvents := pending;
      ghost var before := Model();
      NoIds(pendingEvents);
      for i := 0 to |pendingEvents|
        invariant Model() == before.(processed := before.processed + IdSet(pendingEvents[..i]),
                                     order := before.order + IdsOf(pendingEvents[..i]))
      {
        processedEventIds := processedEventIds + {pendingEvents[i].id};
        processedEventOrder := processedEventOrder + [pendingEvents[i].id];
        IdSetStep(pendingEvents, i);
      }
      ghost var recorded := Model();
      while |processedEventOrder| > limits.processedEvents
        invariant Model() == recorded.(processed := processedEventIds, order := processedEventOrder)
        invariant Forget(processedEventIds, processedEventOrder, limits.processedEvents)
               == Forget(recorded.processed, recorded.order, limits.processedEvents)
      {
        processedEventIds := processedEventIds - {processedEventOrder[0]};
        processedEventOrder := processedEventOrder[1..];
      }
      delivered := delivered + IdsOf(pendingEvents);
      pending := [];
    }
  }

  lemma NoIds(events: seq<Event>)
    ensures IdSet(events[..0]) == {} && IdsOf(events[..0]) == [] && events[..|events|] == events
  {}

  lemma {:induction false} LatchedOutsideDoNotMatter(a: set<Key>, b: set<Key>, events: seq<Event>)
    requires forall e :: e in events ==> (KeyOf(e) in a <==> KeyOf(e) in b)
    ensures Fresh(a, events) == Fresh(b, events)
    decreases |events|
  {
    if events != [] {
      var key := KeyOf(events[0]);
      assert forall e :: e in events[1..] ==> e in events;
      LatchedOutsideDoNotMatter(a, b, events[1..]);
      LatchedOutsideDoNotMatter(a + {key}, b + {key}, events[1..]);
    }
  }

  // ---------- whole runs ----------

  datatype Step =
    | Submit(events: seq<Event>)
    | Requeue(events: seq<Event>)
    | Cycle(live: seq<Event>, assessed: seq<Event>, outcome: Outcome)

  function Next(l: Limits, m: Mailbox, step: Step): Mailbox {
    match step
    case Submit(events) => Submitted(l, m, events)
    case Requeue(events) => Requeued(l, m, events)
    case Cycle(live, assessed, outcome) => Cycled(l, m, live, assessed, outcome)
  }

  function Run(l: Limits, steps: seq<Step>): Mailbox {
    if steps == [] then EMPTY else Next(l, Run(l, steps[..|steps| - 1]), steps[|steps| - 1])
  }

  predicate Within(ids: set<string>, order: seq<string>) { forall id :: id in ids ==> id in order }

  /** What holds after any steps. */
  ghost predicate Consistent(l: Limits, m: Mailbox) {
    && Distinct(IdsOf(m.pending))
    && Within(m.processed, m.order)
    && m.order == LastOf(m.delivered, l.processedEvents)
  }

  lemma {:induction false} UnknownIsNew(known: set<string>, events: seq<Event>)
    ensures var u := Unknown(known, events);
      && (forall i :: 0 <= i < |u| ==> u[i].id !in known)
      && Distinct(IdsOf(u))
      && forall e :: e in events ==> e.id in known || e.id in IdSet(u)
    decreases |events|
  {
    if events != [] {
      var id := events[0].id;
      if id in known {
        UnknownIsNew(known, events[1..]);
      } else {
        UnknownIsNew(known + {id}, events[1..]);
        var rest := Unknown(known + {id}, events[1..]);
        HeadIsNew(events[0], rest);
        forall e | e in events ensures e.id in known || e.id in IdSet([events[0]] + rest) {
          if e != events[0] { assert e in events[1..]; }
        }
      }
    }
  }

  lemma HeadIsNew(head: Event, rest: seq<Event>)
    ensures IdSet([head] + rest) == {head.id} + IdSet(rest)
    ensures Distinct(IdsOf(rest)) && (forall i :: 0 <= i < |rest| ==> rest[i].id != head.id) ==>
      Distinct(IdsOf([head] + rest))
  {
    var all := [head] + rest;
    assert IdsOf(all) == [head.id] + IdsOf(rest);
    assert forall x :: x in all <==> x == head || x in rest;
  }

  lemma JoinKeepsDistinct(pending: seq<Event>, more: seq<Event>, n: nat)
    requires Distinct(IdsOf(pending)) && Distinct(IdsOf(more))
    requires forall i :: 0 <= i < |more| ==> more[i].id !in IdSet(pending)
    ensures Distinct(IdsOf(pending + more)) && Distinct(IdsOf(LastOf(pending + more, n)))
  {
    var ids := IdsOf(pending + more);
    forall i, j | 0 <= i < j < |ids| ensures ids[i] != ids[j] {
      if j < |pending| {
        assert ids[i] == IdsOf(pending)[i] && ids[j] == IdsOf(pending)[j];
      } else if i < |pending| {
        assert pending[i] in pending && more[j - |pending|].id == ids[j];
      } else {
        assert ids[i] == IdsOf(more)[i - |pending|] && ids[j] == IdsOf(more)[j - |pending|];
      }
    }
    var tail := IdsOf(LastOf(pending + more, n));
    var d := |ids| - |tail|;
    assert forall i :: 0 <= i < |tail| ==> tail[i] == ids[i + d];
  }

  lemma SubmitKeepsConsistent(l: Limits, m: Mailbox, events: seq<Event>)
    requires Consistent(l, m)
    ensures Consistent(l, Submitted(l, m, events))
  {
    var accepted := Unknown(IdSet(m.pending) + m.processed, events);
    UnknownIsNew(IdSet(m.pending) + m.processed, events);
    JoinKeepsDistinct(m.pending, accepted, l.eventHistory);
  }

  lemma DrainKeepsConsistent(l: Limits, m: Mailbox, live: seq<Event>)
    requires Consistent(l, m)
    ensures Consistent(l, Drained(m, live))
  {
    UnknownIsNew(IdSet(m.pending), live);
    JoinKeepsDistinct(m.pending, Unknown(IdSet(m.pending), live), l.eventHistory);
  }

  lemma {:induction false} ForgetKeepsTail(processed: set<string>, order: seq<string>, limit: nat)
    requires Within(processed, order)
    ensures var (p, o) := Forget(processed, order, limit);
      && o == LastOf(order, limit) && Within(p, o) && p <= processed
      && (Distinct(order) && (forall id :: id in order ==> id in processed) ==> forall id :: id in o ==> id in p)
    decreases |order|
  {
    if |order| > limit {
      assert order == [order[0]] + order[1..];
      ForgetKeepsTail(processed - {order[0]}, order[1..], limit);
    }
  }

  lemma JoinTails(s: seq<string>, more: seq<string>, n: nat)
    ensures LastOf(LastOf(s, n) + more, n) == LastOf(s + more, n)
  {}

  lemma DeliverKeepsConsistent(l: Limits, m: Mailbox)
    requires Consistent(l, m)
    ensures Consistent(l, Delivered(l, m))
  {
    var ids := IdsOf(m.pending);
    IdsCover(m.pending);
    ForgetKeepsTail(m.processed + IdSet(m.pending), m.order + ids, l.processedEvents);
    JoinTails(m.delivered, ids, l.processedEvents);
  }

  lemma IdsCover(events: seq<Event>)
    ensures forall id :: id in IdSet(events) <==> id in IdsOf(events)
  {
    forall id | id in IdSet(events) ensures id in IdsOf(events) {
      var e :| e in events && e.id == id;
      var i :| 0 <= i < |events| && events[i] == e;
      assert IdsOf(events)[i] == id;
    }
    forall id | id in IdsOf(events) ensures id in IdSet(events) {
      var i :| 0 <= i < |events| && IdsOf(events)[i] == id;
      assert events[i] in events;
    }
  }

  lemma FewerAreWithin(processed: set<string>, gone: set<string>, order: seq<string>)
    requires Within(processed, order)
    ensures Within(processed - gone, order)
  {}

  lemma StepKeepsConsistent(l: Limits, m: Mailbox, step: Step)
    requires Consistent(l, m)
    ensures Consistent(l, Next(l, m, step))
  {
    hide Unknown, Fresh, IdsOf, IdSet, Distinct, Within, Forget, LastOf;
    match step
    case Submit(events) => SubmitKeepsConsistent(l, m, events);
    case Requeue(events) =>
      assert Within(m.processed - IdSet(events), m.order) by { FewerAreWithin(m.processed, IdSet(events), m.order); }
      SubmitKeepsConsistent(l, m.(processed := m.processed - IdSet(events)), events);
    case Cycle(live, assessed, outcome) =>
      var drained := Drained(m, live);
      DrainKeepsConsistent(l, m, live);
      SubmitKeepsConsistent(l, drained, Fresh(drained.latches, assessed));
      if outcome.Succeeds? { DeliverKeepsConsistent(l, Latched(l, drained, assessed)); }
  }

  /** After any steps: pending ids are distinct, and the processed set stays inside the deque, which
      holds the ids last delivered, as many as its bound allows. */
  lemma {:induction false} RunIsConsistent(l: Limits, steps: seq<Step>)
    ensures Consistent(l, Run(l, steps)) && |Run(l, steps).order| <= l.processedEvents
  {
    if steps != [] {
      RunIsConsistent(l, steps[..|steps| - 1]);
      StepKeepsConsistent(l, Run(l, steps[..|steps| - 1]), steps[|steps| - 1]);
    }
  }

  // ---------- nothing is lost ----------

  predicate IsSuccess(step: Step) { step.Cycle? && step.outcome.Succeeds? }

  /** What one step lets in, in order. */
  function Accepted(m: Mailbox, step: Step): seq<Event> {
    match step
    case Submit(events) => Unknown(IdSet(m.pending) + m.processed, events)
    case Requeue(events) => Unknown(IdSet(m.pending) + (m.processed - IdSet(events)), events)
    case Cycle(live, assessed, outcome) =>
      var joined := Unknown(IdSet(m.pending), live);
      if outcome.FailsBeforeAssessment? then joined
      else joined + Unknown(IdSet(m.pending + joined) + m.processed, Fresh(m.latches, assessed))
  }

  /** What it then trims, oldest first; a cycle that fails before its assessment trims nothing. */
  function Trimmed(l: Limits, m: Mailbox, step: Step): seq<Event> {
    var all := m.pending + Accepted(m, step);
    if (step.Cycle? && step.outcome.FailsBeforeAssessment?) || |all| <= l.eventHistory then []
    else all[..|all| - l.eventHistory]
  }

  /** What a successful cycle hands over. */
  function HandedOver(l: Limits, m: Mailbox, step: Step): seq<Event> {
    if IsSuccess(step) then (m.pending + Accepted(m, step))[|Trimmed(l, m, step)|..] else []
  }

  /** What is let in was among the step's events, once each, and was not pending. */
  lemma AcceptedIsNew(m: Mailbox, step: Step)
    ensures Distinct(IdsOf(Accepted(m, step)))
    ensures forall e :: e in Accepted(m, step) ==> e.id !in IdSet(m.pending)
  {
    match step
    case Submit(events) => UnknownIsNew(IdSet(m.pending) + m.processed, events);
    case Requeue(events) => UnknownIsNew(IdSet(m.pending) + (m.processed - IdSet(events)), events);
    case Cycle(live, assessed, outcome) =>
      var joined := Unknown(IdSet(m.pending), live);
      var known := IdSet(m.pending + joined) + m.processed;
      var emitted := Unknown(known, Fresh(m.latches, assessed));
      UnknownIsNew(IdSet(m.pending), live);
      UnknownIsNew(known, Fresh(m.latches, assessed));
      forall e | e in m.pending || e in joined ensures e.id in known { assert e in m.pending + joined; }
      hide Unknown, Fresh;
      forall i | 0 <= i < |emitted| ensures emitted[i].id !in IdSet(joined) && emitted[i].id !in IdSet(m.pending) {}
      JoinKeepsDistinct(joined, emitted, 0);
  }

  /** The events a step brings that have to be let in. */
  predicate MustGetIn(m: Mailbox, step: Step, e: Event) {
    e.id !in IdSet(m.pending)
    && match step
       case Submit(events) => e in events && e.id !in m.processed
       case Requeue(events) => e in events
       case Cycle(live, assessed, outcome) =>
         || e in live
         || (!outcome.FailsBeforeAssessment? && e in Fresh(m.latches, assessed) && e.id !in m.processed)
  }

  /** Nothing new is turned away: an event that is not pending gets in unless it was submitted, or assessed, and is
      still remembered as processed. */
  lemma NewEventsGetIn(m: Mailbox, step: Step, e: Event)
    requires MustGetIn(m, step, e)
    ensures e.id in IdSet(Accepted(m, step))
  {
    match step
    case Submit(events) => UnknownIsNew(IdSet(m.pending) + m.processed, events);
    case Requeue(events) => UnknownIsNew(IdSet(m.pending) + (m.processed - IdSet(events)), events);
    case Cycle(live, assessed, outcome) =>
      var joined := Unknown(IdSet(m.pending), live);
      var known := IdSet(m.pending + joined) + m.processed;
      var emitted := Unknown(known, Fresh(m.latches, assessed));
      UnknownIsNew(IdSet(m.pending), live);
      UnknownIsNew(known, Fresh(m.latches, assessed));
      IdSetOfConcat(m.pending, joined);
      IdSetOfConcat(joined, emitted);
  }

  lemma IdSetOfConcat(a: seq<Event>, b: seq<Event>)
    ensures IdSet(a + b) == IdSet(a) + IdSet(b)
  {
    assert forall x :: x in a + b <==> x in a || x in b;
  }

  /** One step: pending followed by what it lets in splits into what it trims, then either what stays
      pending or, on success, what is handed over. A failed cycle changes nothing but pending. */
  lemma LeavesOnlyByDeliveryOrTrim(l: Limits, m: Mailbox, step: Step)
    ensures var after := Next(l, m, step);
      && m.pending + Accepted(m, step) == Trimmed(l, m, step) + HandedOver(l, m, step) + after.pending
      && (IsSuccess(step) ==> after.pending == [])
      && after.delivered == m.delivered + IdsOf(HandedOver(l, m, step))
      && (Trimmed(l, m, step) != [] ==> |HandedOver(l, m, step) + after.pending| == l.eventHistory)
      && (step.Cycle? && !IsSuccess(step) ==> after == m.(pending := after.pending))
  {
    NoIdsOfNothing();
    TrimIsPrefix(l, m, step);
    if step.Cycle? {
      CycleSplits(l, m, step.live, step.assessed, step.outcome);
      hide Accepted, IdsOf, Cycled, Trimmed;
    } else {
      PlainSplits(l, m, step);
      hide Next, Accepted, IdsOf, Trimmed;
    }
  }

  /** Every step that submits leaves at most as many pending as the limit allows. */
  lemma PendingIsBounded(l: Limits, m: Mailbox, step: Step)
    requires !(step.Cycle? && step.outcome.FailsBeforeAssessment?)
    ensures |Next(l, m, step).pending| <= l.eventHistory
  {
    hide Unknown, Fresh, Forget, IdSet, IdsOf;
  }

  lemma NoIdsOfNothing()
    ensures IdsOf([]) == []
  {}

  lemma TrimIsPrefix(l: Limits, m: Mailbox, step: Step)
    ensures var all, trimmed := m.pending + Accepted(m, step), Trimmed(l, m, step);
      && |trimmed| <= |all| && all == trimmed + all[|trimmed|..]
      && (trimmed != [] ==> |all| - |trimmed| == l.eventHistory)
  {
    hide Accepted;
  }

  lemma PlainSplits(l: Limits, m: Mailbox, step: Step)
    requires !step.Cycle?
    ensures Next(l, m, step).pending == (m.pending + Accepted(m, step))[|Trimmed(l, m, step)|..]
    ensures Next(l, m, step).delivered == m.delivered
  {
    hide Unknown, IdSet, IdsOf;
  }

  /** A successful cycle hands over the newest of what was pending and what it let in, in order, up to the
      limit, and empties the mailbox. */
  lemma SuccessDeliversAll(l: Limits, m: Mailbox, live: seq<Event>, assessed: seq<Event>)
    ensures var step := Cycle(live, assessed, Succeeds);
      var after := Next(l, m, step);
      && after.delivered == m.delivered + IdsOf(LastOf(m.pending + Accepted(m, step), l.eventHistory))
      && after.pending == [] && after.latches == KeySet(assessed)
  {
    CycleSplits(l, m, live, assessed, Succeeds);
    hide Accepted, IdsOf, Unknown, Fresh;
  }

  lemma CycleSplits(l: Limits, m: Mailbox, live: seq<Event>, assessed: seq<Event>, outcome: Outcome)
    ensures var step, after := Cycle(live, assessed, outcome), Cycled(l, m, live, assessed, outcome);
      var rest := (m.pending + Accepted(m, step))[|Trimmed(l, m, step)|..];
      && after.pending == (if outcome.Succeeds? then [] else rest)
      && after.delivered == m.delivered + (if outcome.Succeeds? then IdsOf(rest) else [])
      && (!outcome.Succeeds? ==> after == m.(pending := after.pending))
  {
    var joined := Unknown(IdSet(m.pending), live);
    var emitted := Unknown(IdSet(m.pending + joined) + m.processed, Fresh(m.latches, assessed));
    hide Unknown, Fresh, IdSet, Forget, IdsOf;
    assert m.pending + joined + emitted == m.pending + (joined + emitted);
  }

  /** The same over a run: everything let in, trimmed, and handed over, in order. */
  function AllAccepted(l: Limits, m: Mailbox, steps: seq<Step>): seq<Event> {
    if steps == [] then []
    else
      var n := |steps| - 1;
      AllAccepted(l, m, steps[..n]) + Accepted(RunFrom(l, m, steps[..n]), steps[n])
  }

  function AllTrimmed(l: Limits, steps: seq<Step>): seq<Event> {
    if steps == [] then []
    else
      var n := |steps| - 1;
      AllTrimmed(l, steps[..n]) + Trimmed(l, Run(l, steps[..n]), steps[n])
  }

  function RunFrom(l: Limits, m: Mailbox, steps: seq<Step>): Mailbox {
    if steps == [] then m else Next(l, RunFrom(l, m, steps[..|steps| - 1]), steps[|steps| - 1])
  }

  /** Conservation: on every run each event that was let in is, exactly once, delivered, pending or
      trimmed. */
  lemma {:induction false} EveryAcceptedEventIsSomewhere(l: Limits, steps: seq<Step>)
    ensures multiset(IdsOf(AllAccepted(l, EMPTY, steps)))
         == multiset(Run(l, steps).delivered) + multiset(IdsOf(Run(l, steps).pending)) + multiset(IdsOf(AllTrimmed(l, steps)))
  {
    hide Accepted, Trimmed, HandedOver, Next;
    if steps != [] {
      var n := |steps| - 1;
      var m, step := Run(l, steps[..n]), steps[n];
      EveryAcceptedEventIsSomewhere(l, steps[..n]);
      RunIsRunFrom(l, steps[..n]);
      LeavesOnlyByDeliveryOrTrim(l, m, step);
      var accepted, trimmed, handed := Accepted(m, step), Trimmed(l, m, step), HandedOver(l, m, step);
      IdsOfConcat(AllAccepted(l, EMPTY, steps[..n]), accepted);
      IdsOfConcat(AllTrimmed(l, steps[..n]), trimmed);
      IdsOfConcat(m.pending, accepted);
      IdsOfConcat(trimmed + handed, Next(l, m, step).pending);
      IdsOfConcat(trimmed, handed);
      hide IdsOf, AllAccepted, AllTrimmed, Run;
      Balance(IdsOf(AllAccepted(l, EMPTY, steps[..n])), IdsOf(accepted), m.delivered, IdsOf(handed), IdsOf(m.pending),
        IdsOf(Next(l, m, step).pending), IdsOf(AllTrimmed(l, steps[..n])), IdsOf(trimmed));
      AllOfOneMore(l, steps);
    }
  }

  lemma Balance(all: seq<string>, accepted: seq<string>, delivered: seq<string>, handed: seq<string>,
                pending: seq<string>, left: seq<string>, gone: seq<string>, trimmed: seq<string>)
    requires multiset(all) == multiset(delivered) + multiset(pending) + multiset(gone)
    requires pending + accepted == trimmed + handed + left
    ensures multiset(all + accepted) == multiset(delivered + handed) + multiset(left) + multiset(gone + trimmed)
  {
    assert multiset(pending + accepted) == multiset(trimmed + handed + left);
    assert multiset(pending + accepted) == multiset(pending) + multiset(accepted);
    assert multiset(trimmed + handed + left) == multiset(trimmed + handed) + multiset(left);
    assert multiset(trimmed + handed) == multiset(trimmed) + multiset(handed);
    var before, after := multiset(all + accepted), multiset(delivered + handed) + multiset(left) + multiset(gone + trimmed);
    assert before == multiset(all) + multiset(accepted);
    assert after == multiset(delivered) + multiset(handed) + multiset(left) + (multiset(gone) + multiset(trimmed));
    forall id ensures before[id] == after[id] {
      assert (multiset(pending) + multiset(accepted))[id] == multiset(pending)[id] + multiset(accepted)[id];
      assert (multiset(trimmed + handed) + multiset(left))[id] == multiset(trimmed + handed)[id] + multiset(left)[id];
      assert (multiset(trimmed) + multiset(handed))[id] == multiset(trimmed)[id] + multiset(handed)[id];
      assert multiset(all)[id] == (multiset(delivered) + multiset(pending) + multiset(gone))[id];
    }
  }

  lemma AllOfOneMore(l: Limits, steps: seq<Step>)
    requires steps != []
    ensures var n := |steps| - 1;
      var m := Run(l, steps[..n]);
      && AllAccepted(l, EMPTY, steps) == AllAccepted(l, EMPTY, steps[..n]) + Accepted(m, steps[n])
      && AllTrimmed(l, steps) == AllTrimmed(l, steps[..n]) + Trimmed(l, m, steps[n])
      && Run(l, steps) == Next(l, m, steps[n])
  {
    hide Accepted, Trimmed, Next;
    RunIsRunFrom(l, steps[..|steps| - 1]);
  }

  lemma IdsOfConcat(a: seq<Event>, b: seq<Event>)
    ensures IdsOf(a + b) == IdsOf(a) + IdsOf(b)
    ensures multiset(IdsOf(a + b)) == multiset(IdsOf(a)) + multiset(IdsOf(b))
  {
    assert IdsOf(a + b) == IdsOf(a) + IdsOf(b);
  }

  lemma {:induction false} RunIsRunFrom(l: Limits, steps: seq<Step>)
    ensures Run(l, steps) == RunFrom(l, EMPTY, steps)
  {
    hide Next;
    if steps != [] { RunIsRunFrom(l, steps[..|steps| - 1]); }
  }

  /** Over any run without a successful cycle, failed ones included, pending only grows at its end by what
      is let in and shrinks at its front, and then only while it is full. */
  lemma {:induction false} FailuresLoseNothing(l: Limits, m: Mailbox, steps: seq<Step>)
    requires forall s :: s in steps ==> !IsSuccess(s)
    ensures var all, after := m.pending + AllAccepted(l, m, steps), RunFrom(l, m, steps);
      && |after.pending| <= |all| && after.pending == all[|all| - |after.pending|..]
      && (after.pending != all ==> |after.pending| >= l.eventHistory)
      && after.delivered == m.delivered
  {
    hide Accepted, Trimmed, Next;
    if steps == [] {
      assert m.pending + [] == m.pending;
    } else {
      var n := |steps| - 1;
      var before, step := RunFrom(l, m, steps[..n]), steps[n];
      assert step in steps;
      FailuresLoseNothing(l, m, steps[..n]);
      LeavesOnlyByDeliveryOrTrim(l, before, step);
      var accepted, trimmed, after := Accepted(before, step), Trimmed(l, before, step), Next(l, before, step);
      var soFar := m.pending + AllAccepted(l, m, steps[..n]);
      assert m.pending + AllAccepted(l, m, steps) == soFar + accepted;
      assert HandedOver(l, before, step) == [] && IdsOf([]) == [] && trimmed + [] == trimmed;
      SuffixOfSuffix(soFar, before.pending, accepted, trimmed, after.pending);
    }
  }

  lemma SuffixOfSuffix(soFar: seq<Event>, before: seq<Event>, accepted: seq<Event>, trimmed: seq<Event>, after: seq<Event>)
    requires |before| <= |soFar| && before == soFar[|soFar| - |before|..]
    requires before + accepted == trimmed + after
    ensures |after| <= |soFar + accepted| && after == (soFar + accepted)[|soFar + accepted| - |after|..]
    ensures |after| == |soFar + accepted| ==> |trimmed| == 0 && |before| == |soFar|
    ensures trimmed == [] && before == soFar ==> after == soFar + accepted
  {
    assert after == (before + accepted)[|trimmed|..];
    assert before + accepted == (soFar + accepted)[|soFar| - |before|..];
  }

  // ---------- at most once ----------

  /** No id occurs twice within `limit` consecutive deliveries and the one after them. */
  ghost predicate AtMostOnceWithin(delivered: seq<string>, limit: nat) {
    forall i, j :: 0 <= i < j < |delivered| && j - i <= limit ==> delivered[i] != delivered[j]
  }

  ghost predicate Guarded(l: Limits, m: Mailbox) {
    && Consistent(l, m)
    && (forall id :: id in m.order ==> id in m.processed)
    && IdSet(m.pending) !! m.processed
    && AtMostOnceWithin(m.delivered, l.processedEvents)
  }

  lemma SubmitKeepsGuarded(l: Limits, m: Mailbox, events: seq<Event>)
    requires Guarded(l, m)
    ensures Guarded(l, Submitted(l, m, events))
  {
    SubmitKeepsConsistent(l, m, events);
    var known := IdSet(m.pending) + m.processed;
    var accepted := Unknown(known, events);
    UnknownIsNew(known, events);
    forall e | e in LastOf(m.pending + accepted, l.eventHistory) ensures e.id !in m.processed {
      if e !in m.pending { assert e in accepted; }
    }
  }

  lemma DeliverKeepsGuarded(l: Limits, m: Mailbox)
    requires Guarded(l, m)
    ensures Guarded(l, Delivered(l, m))
  {
    var ids, limit := IdsOf(m.pending), l.processedEvents;
    DeliverKeepsConsistent(l, m);
    IdsCover(m.pending);
    OrderIsDistinct(m.delivered, limit);
    assert Distinct(m.order + ids) by {
      forall i, j | 0 <= i < |m.order| && 0 <= j < |ids| ensures m.order[i] != ids[j] {
        assert m.order[i] in m.order && ids[j] in ids;
      }
    }
    ForgetKeepsTail(m.processed + IdSet(m.pending), m.order + ids, limit);
    var all := m.delivered + ids;
    forall i, j | 0 <= i < j < |all| && j - i <= limit ensures all[i] != all[j] {
      if j >= |m.delivered| {
        if i < |m.delivered| {
          assert m.delivered[i] == m.order[i - (|m.delivered| - |m.order|)];
          assert all[i] in m.order && all[j] in ids;
        } else {
          assert ids[i - |m.delivered|] != ids[j - |m.delivered|];
        }
      }
    }
  }

  lemma OrderIsDistinct(delivered: seq<string>, limit: nat)
    requires AtMostOnceWithin(delivered, limit)
    ensures Distinct(LastOf(delivered, limit))
  {
    var order := LastOf(delivered, limit);
    var d := |delivered| - |order|;
    assert forall i :: 0 <= i < |order| ==> order[i] == delivered[i + d];
  }

  /** A step that brings back no id still in the order deque. */
  predicate IsHarmless(m: Mailbox, step: Step) {
    match step
    case Submit(_) => true
    case Requeue(events) => forall e :: e in events ==> e.id !in m.order
    case Cycle(live, _, _) => forall e :: e in live ==> e.id !in m.order
  }

  lemma DrainKeepsGuarded(l: Limits, m: Mailbox, live: seq<Event>)
    requires Guarded(l, m) && forall e :: e in live ==> e.id !in m.order
    ensures Guarded(l, Drained(m, live))
  {
    DrainKeepsConsistent(l, m, live);
    UnknownIsOf(IdSet(m.pending), live);
    var joined := Unknown(IdSet(m.pending), live);
    forall e | e in m.pending + joined ensures e.id !in m.processed {
      if e !in m.pending { assert e in joined; }
    }
  }

  lemma {:induction false} UnknownIsOf(known: set<string>, events: seq<Event>)
    ensures forall e :: e in Unknown(known, events) ==> e in events
    decreases |events|
  {
    if events != [] {
      UnknownIsOf(known, events[1..]);
      UnknownIsOf(known + {events[0].id}, events[1..]);
    }
  }

  lemma NothingComesBack(l: Limits, m: Mailbox, events: seq<Event>)
    requires Guarded(l, m) && IsHarmless(m, Requeue(events))
    ensures m.(processed := m.processed - IdSet(events)) == m
  {
    assert m.processed - IdSet(events) == m.processed;
  }

  lemma StepKeepsGuarded(l: Limits, m: Mailbox, step: Step)
    requires Guarded(l, m) && IsHarmless(m, step)
    ensures Guarded(l, Next(l, m, step))
  {
    hide Guarded, Submitted, Delivered, Fresh;
    match step
    case Submit(events) => SubmitKeepsGuarded(l, m, events);
    case Requeue(events) =>
      NothingComesBack(l, m, events);
      SubmitKeepsGuarded(l, m, events);
    case Cycle(live, assessed, outcome) =>
      var drained := Drained(m, live);
      DrainKeepsGuarded(l, m, live);
      var latched := Latched(l, drained, assessed);
      SubmitKeepsGuarded(l, drained, Fresh(drained.latches, assessed));
      LatchesDoNotMatter(l, Submitted(l, drained, Fresh(drained.latches, assessed)), latched);
      LatchesDoNotMatter(l, latched, latched.(latches := m.latches));
      DeliverKeepsGuarded(l, latched);
  }

  lemma LatchesDoNotMatter(l: Limits, a: Mailbox, b: Mailbox)
    requires Guarded(l, a) && b == a.(latches := b.latches)
    ensures Guarded(l, b)
  {}

  /** On every run whose requeues and live predictions bring back no id still in the order deque, no id
      is delivered twice within the last `processed_event_limit` deliveries. */
  lemma {:induction false} DeliveredAtMostOnce(l: Limits, steps: seq<Step>)
    requires forall k :: 0 <= k < |steps| ==> IsHarmless(Run(l, steps[..k]), steps[k])
    ensures Guarded(l, Run(l, steps))
    ensures AtMostOnceWithin(Run(l, steps).delivered, l.processedEvents)
  {
    hide Next, IsHarmless;
    if steps == [] {
      assert Guarded(l, EMPTY);
    } else {
      var n := |steps| - 1;
      forall k | 0 <= k < n ensures IsHarmless(Run(l, steps[..n][..k]), steps[..n][k]) {
        assert steps[..n][..k] == steps[..k];
      }
      DeliveredAtMostOnce(l, steps[..n]);
      StepKeepsGuarded(l, Run(l, steps[..n]), steps[n]);
    }
  }

  // ---------- exactly when a delivery repeats ----------

  /** None of the ids about to be handed over is among the deliveries still within the window. */
  ghost predicate IsFreshDelivery(l: Limits, m: Mailbox) {
    forall p, q :: 0 <= p < |m.pending| && 0 <= q < |m.order| && |m.order| - q + p <= l.processedEvents ==>
      m.order[q] != m.pending[p].id
  }

  lemma DeliveryRepeatsIff(l: Limits, m: Mailbox)
    requires Consistent(l, m) && AtMostOnceWithin(m.delivered, l.processedEvents)
    ensures AtMostOnceWithin(m.delivered + IdsOf(m.pending), l.processedEvents) <==> IsFreshDelivery(l, m)
  {
    if IsFreshDelivery(l, m) { FreshDoesNotRepeat(l, m); }
    if AtMostOnceWithin(m.delivered + IdsOf(m.pending), l.processedEvents) { UnrepeatedIsFresh(l, m); }
  }

  lemma FreshDoesNotRepeat(l: Limits, m: Mailbox)
    requires Consistent(l, m) && AtMostOnceWithin(m.delivered, l.processedEvents) && IsFreshDelivery(l, m)
    ensures AtMostOnceWithin(m.delivered + IdsOf(m.pending), l.processedEvents)
  {
    var d, ids, limit := |m.delivered|, IdsOf(m.pending), l.processedEvents;
    var all, base := m.delivered + ids, d - |m.order|;
    assert forall q :: 0 <= q < |m.order| ==> m.order[q] == m.delivered[base + q];
    forall i, j | 0 <= i < j < |all| && j - i <= limit ensures all[i] != all[j] {
      if j < d {
      } else if i < d {
        assert m.order[i - base] != m.pending[j - d].id;
      } else {
        assert ids[i - d] != ids[j - d];
      }
    }
  }

  lemma UnrepeatedIsFresh(l: Limits, m: Mailbox)
    requires Consistent(l, m) && AtMostOnceWithin(m.delivered + IdsOf(m.pending), l.processedEvents)
    ensures IsFreshDelivery(l, m)
  {
    var d, ids, limit := |m.delivered|, IdsOf(m.pending), l.processedEvents;
    var all, base := m.delivered + ids, d - |m.order|;
    assert forall q :: 0 <= q < |m.order| ==> m.order[q] == m.delivered[base + q];
    forall p, q | 0 <= p < |m.pending| && 0 <= q < |m.order| && |m.order| - q + p <= limit
      ensures m.order[q] != m.pending[p].id
    {
      assert all[base + q] != all[d + p];
    }
  }

  /** The mailbox a successful cycle hands over. */
  function BeforeDelivery(l: Limits, m: Mailbox, step: Step): Mailbox
    requires step.Cycle?
  {
    Latched(l, Drained(m, step.live), step.assessed)
  }

  lemma BeforeDeliveryIsConsistent(l: Limits, m: Mailbox, step: Step)
    requires Consistent(l, m) && IsSuccess(step)
    ensures Consistent(l, BeforeDelivery(l, m, step)) && BeforeDelivery(l, m, step).delivered == m.delivered
    ensures Next(l, m, step).delivered == m.delivered + IdsOf(BeforeDelivery(l, m, step).pending)
  {
    DrainKeepsConsistent(l, m, step.live);
    SubmitKeepsConsistent(l, Drained(m, step.live), Fresh(m.latches, step.assessed));
  }

  lemma OnlySuccessDelivers(l: Limits, m: Mailbox, step: Step)
    ensures !IsSuccess(step) ==> Next(l, m, step).delivered == m.delivered
  {}

  /** On any run at all, requeues and live predictions included, no id is delivered twice within the window
      if and only if every successful cycle found none of its ids among the recent ones in the deque. */
  lemma {:induction false} DeliveredAtMostOnceIff(l: Limits, steps: seq<Step>)
    ensures AtMostOnceWithin(Run(l, steps).delivered, l.processedEvents) <==>
      forall k :: 0 <= k < |steps| && IsSuccess(steps[k]) ==>
        IsFreshDelivery(l, BeforeDelivery(l, Run(l, steps[..k]), steps[k]))
  {
    hide Next, BeforeDelivery, IsFreshDelivery, Consistent;
    if steps != [] {
      var n := |steps| - 1;
      var m := Run(l, steps[..n]);
      assert forall k :: 0 <= k < n ==> steps[..n][..k] == steps[..k] && steps[..n][k] == steps[k];
      DeliveredAtMostOnceIff(l, steps[..n]);
      RunIsConsistent(l, steps[..n]);
      OnlySuccessDelivers(l, m, steps[n]);
      if IsSuccess(steps[n]) {
        var handed := BeforeDelivery(l, m, steps[n]);
        BeforeDeliveryIsConsistent(l, m, steps[n]);
        RepeatsStay(m.delivered, IdsOf(handed.pending), l.processedEvents);
        if AtMostOnceWithin(m.delivered, l.processedEvents) { DeliveryRepeatsIff(l, handed); }
      }
    }
  }

  lemma RepeatsStay(delivered: seq<string>, more: seq<string>, limit: nat)
    ensures AtMostOnceWithin(delivered + more, limit) ==> AtMostOnceWithin(delivered, limit)
  {
    var all := delivered + more;
    if AtMostOnceWithin(all, limit) {
      forall i, j | 0 <= i < j < |delivered| && j - i <= limit ensures delivered[i] != delivered[j] {
        assert all[i] != all[j];
      }
    }
  }

  /** One event, requeued or brought in by the live predictions, into an idle guarded mailbox: it repeats a
      delivery within the window if and only if its id is still in the order deque. */
  lemma OneEventRepeatsIff(l: Limits, m: Mailbox, e: Event)
    requires Guarded(l, m) && m.pending == [] && m.latches == {}
    ensures AtMostOnceWithin(Next(l, Next(l, m, Requeue([e])), CYCLE).delivered, l.processedEvents) <==> e.id !in m.order
    ensures AtMostOnceWithin(Next(l, m, Cycle([e], [], Succeeds)).delivered, l.processedEvents) <==> e.id !in m.order
  {
    DeliverOne(l, m, Requeue([e]), e);
    DrainOne(l, m, e);
    var one := m.(pending := [e]);
    DeliveryRepeatsIff(l, one);
    assert IdsOf(one.pending) == [e.id];
    assert IsFreshDelivery(l, one) <==> e.id !in m.order;
  }

  lemma DrainOne(l: Limits, m: Mailbox, e: Event)
    requires m.pending == [] && m.latches == {}
    ensures Next(l, m, Cycle([e], [], Succeeds)).delivered == m.delivered + [e.id]
  {
    assert Unknown(IdSet(m.pending), [e]) == [e] by {
      assert Unknown(IdSet(m.pending) + {e.id}, [e][1..]) == [];
    }
    var drained := Drained(m, [e]);
    assert drained.pending == [e];
    assert Submitted(l, drained, []) == drained by { assert drained.pending + [] == drained.pending; }
    assert IdsOf([e]) == [e.id];
  }

  const A := Event("a", "k", None)
  const B := Event("b", "k", None)
  const CYCLE := Cycle([], [], Succeeds)
  const REQUEUE_RUN := [Submit([A]), CYCLE, Requeue([A]), CYCLE, Submit([B]), CYCLE, Submit([A]), CYCLE]

  const SMALL := Limits(10, 2)

  lemma AfterRequeue()
    ensures Run(SMALL, REQUEUE_RUN[..4]) == Mailbox([], {"a"}, ["a", "a"], {}, ["a", "a"])
  {
    hide Next, Run;
    NothingRun(SMALL);
    RunTwo(SMALL, REQUEUE_RUN, 0);
    DeliverOne(SMALL, EMPTY, Submit([A]), A);
    assert REQUEUE_RUN[..0] == [] && [] + ["a"] == ["a"];
    assert Forget({"a"}, ["a"], 2) == ({"a"}, ["a"]) && Forget({"a"}, ["a", "a"], 2) == ({"a"}, ["a", "a"]);
    assert ["a"] + ["a"] == ["a", "a"] && {} + {"a"} == {"a"} && {"a"} + {"a"} == {"a"};
    var m := Mailbox([], {"a"}, ["a"], {}, ["a"]);
    RunTwo(SMALL, REQUEUE_RUN, 2);
    DeliverOne(SMALL, m, Requeue([A]), A);
  }

  lemma AfterStaleEntryIsTrimmed()
    ensures Run(SMALL, REQUEUE_RUN[..6]) == Mailbox([], {"b"}, ["a", "b"], {}, ["a", "a", "b"])
  {
    hide Next, Run;
    AfterRequeue();
    var m := Mailbox([], {"a"}, ["a", "a"], {}, ["a", "a"]);
    RunTwo(SMALL, REQUEUE_RUN, 4);
    DeliverOne(SMALL, m, Submit([B]), B);
    assert {"a"} + {"b"} - {"a"} == {"b"};
    assert ["a", "a"] + ["b"] == ["a", "a", "b"] && ["a", "a", "b"][1..] == ["a", "b"];
    assert Forget({"b"}, ["a", "b"], 2) == ({"b"}, ["a", "b"]);
  }

  /** With a requeue the guarantee fails beyond the requeued delivery itself: the old entry of `a` stays
      in the deque, so trimming it also forgets the later delivery, and a plain submit gets in again. */
  lemma RequeueBreaksAtMostOnce()
    ensures Run(SMALL, REQUEUE_RUN).delivered == ["a", "a", "b", "a"]
    ensures !AtMostOnceWithin(["a", "b", "a"], 2)
  {
    hide Next, Run;
    AfterStaleEntryIsTrimmed();
    var m := Mailbox([], {"b"}, ["a", "b"], {}, ["a", "a", "b"]);
    RunTwo(SMALL, REQUEUE_RUN, 6);
    DeliverOne(SMALL, m, Submit([A]), A);
    assert REQUEUE_RUN[..8] == REQUEUE_RUN;
    assert ["a", "b", "a"][0] == ["a", "b", "a"][2];
  }

  lemma NothingRun(l: Limits)
    ensures Run(l, []) == EMPTY
  {}

  lemma RunTwo(l: Limits, steps: seq<Step>, k: nat)
    requires k + 2 <= |steps|
    ensures Run(l, steps[..k + 2]) == Next(l, Next(l, Run(l, steps[..k]), steps[k]), steps[k + 1])
  {
    assert steps[..k + 2][..k + 1] == steps[..k + 1] && steps[..k + 1][..k] == steps[..k];
  }

  /** One event through an empty mailbox. */
  lemma DeliverOne(l: Limits, m: Mailbox, step: Step, e: Event)
    requires m.pending == [] && m.latches == {}
    requires step == Requeue([e]) || (step == Submit([e]) && e.id !in m.processed)
    ensures var (processed, order) := Forget(m.processed + {e.id}, m.order + [e.id], l.processedEvents);
      Next(l, Next(l, m, step), CYCLE) == Mailbox([], processed, order, {}, m.delivered + [e.id])
  {
    var m0 := if step.Requeue? then m.(processed := m.processed - {e.id}) else m;
    assert IdSet([e]) == {e.id} && IdSet([]) == {} && IdsOf([e]) == [e.id];
    assert Unknown(IdSet(m0.pending) + m0.processed, [e]) == [e] by {
      assert Unknown(IdSet(m0.pending) + m0.processed + {e.id}, [e][1..]) == [];
    }
    var m1 := Next(l, m, step);
    assert m1 == m0.(pending := [e]);
    assert m1.pending + [] == m1.pending;
    assert Drained(m1, []) == m1 && Submitted(l, m1, []) == m1;
    assert Latched(l, m1, []) == m1;
    assert m0.processed + {e.id} == m.processed + {e.id};
  }

  // ---------- latches ----------

  /** A cycle emits one event for every key that is degraded now and was not latched. */
  lemma {:induction false} FreshCoversNewKeys(latched: set<Key>, events: seq<Event>)
    ensures var emitted := Fresh(latched, events);
      && KeySet(emitted) == KeySet(events) - latched
      && forall i, j :: 0 <= i < j < |emitted| ==> KeyOf(emitted[i]) != KeyOf(emitted[j])
    decreases |events|
  {
    if events != [] {
      var head, rest := events[0], events[1..];
      KeySetOfCons(head, rest);
      if KeyOf(head) in latched {
        FreshCoversNewKeys(latched, rest);
      } else {
        FreshCoversNewKeys(latched + {KeyOf(head)}, rest);
        var emitted := Fresh(latched + {KeyOf(head)}, rest);
        KeySetOfCons(head, emitted);
        forall j | 0 <= j < |emitted| ensures KeyOf(emitted[j]) != KeyOf(head) {
          assert emitted[j] in emitted && KeyOf(emitted[j]) in KeySet(emitted);
        }
      }
    }
  }

  lemma KeySetOfCons(head: Event, rest: seq<Event>)
    ensures KeySet([head] + rest) == {KeyOf(head)} + KeySet(rest)
    ensures rest == ([head] + rest)[1..]
  {
    assert forall x :: x in [head] + rest <==> x == head || x in rest;
  }

  /** The keys of the last assessment that ended in a successful cycle. */
  function LastSeenDegraded(steps: seq<Step>): set<Key> {
    if steps == [] then {}
    else
      var last := steps[|steps| - 1];
      if last.Cycle? && last.outcome.Succeeds? then KeySet(last.assessed) else LastSeenDegraded(steps[..|steps| - 1])
  }

  lemma StepLatches(l: Limits, m: Mailbox, step: Step)
    ensures Next(l, m, step).latches == if IsSuccess(step) then KeySet(step.assessed) else m.latches
  {
    hide KeySet, Unknown, Fresh, Forget, IdSet, IdsOf, LastOf;
  }

  /** So a condition is emitted again only after a successful cycle has seen it healthy; failed cycles
      do not move the latches. */
  lemma {:induction false} LatchesAreTheLastAssessment(l: Limits, steps: seq<Step>)
    ensures Run(l, steps).latches == LastSeenDegraded(steps)
  {
    hide Next, KeySet;
    if steps != [] {
      var n := |steps| - 1;
      LatchesAreTheLastAssessment(l, steps[..n]);
      StepLatches(l, Run(l, steps[..n]), steps[n]);
    }
  }
}

/** No event is lost between cycles while every offer reaches the mailbox: each cycle
    holds the newest situation and the newest version of every event offered for it.
  */
module CarrierEvents {
  import opened Prelude
  import opened PendingEvents
  import opened CarrierProtocol

  /** All events of a list of situations, oldest first. */
  function AllEvents(situations: seq<Situation>): seq<Event> {
    if situations == [] then []
    else AllEvents(situations[..|situations| - 1]) + situations[|situations| - 1].events
  }

  /** The newest event of each id here is the newest of that id among `all`. */
  ghost predicate Refines(events: seq<Event>, all: seq<Event>) {
    forall e :: IsNewest(events, e) ==> IsNewest(all, e)
  }

  ghost predicate IsStateOf(s: Situation, newest: Situation) { s.revision == newest.revision && s.body == newest.body }

  /** The newest situation offered, with the events of all of them: its own when they cover the rest,
      and otherwise exactly one of each id, the newest version, in (time, id) order. */
  ghost predicate Gathers(s: Situation, offered: seq<Situation>)
    requires offered != []
  {
    && IsStateOf(s, offered[|offered| - 1])
    && Ids(s.events) == Ids(AllEvents(offered))
    && Refines(s.events, AllEvents(offered))
    && (s == offered[|offered| - 1] || IsMergeOf(s.events, AllEvents(offered)))
  }

  /** The newest situation, with some of those events. */
  ghost predicate Echoes(s: Situation, offered: seq<Situation>)
    requires offered != []
  {
    && IsStateOf(s, offered[|offered| - 1])
    && Ids(s.events) <= Ids(AllEvents(offered))
    && Refines(s.events, AllEvents(offered))
  }

  // ---------- merging gathers ----------

  lemma IdsOfConcat(a: seq<Event>, b: seq<Event>)
    ensures Ids(a + b) == Ids(a) + Ids(b)
  {
    forall id ensures id in Ids(a + b) <==> id in Ids(a) + Ids(b) {
      if id in Ids(a + b) {
        var e :| e in a + b && e.id == id;
        assert e in a || e in b;
      } else {
        assert forall e :: e in a || e in b ==> e in a + b;
      }
    }
  }

  lemma NewestOfConcat(a: seq<Event>, b: seq<Event>, e: Event)
    ensures IsNewest(a + b, e) <==> IsNewest(b, e) || (IsNewest(a, e) && e.id !in Ids(b))
  {
    var all := a + b;
    if IsNewest(all, e) {
      var k :| 0 <= k < |all| && all[k] == e && forall j :: k < j < |all| ==> all[j].id != e.id;
      if k >= |a| {
        assert b[k - |a|] == e && forall j :: k - |a| < j < |b| ==> b[j] == all[j + |a|];
      } else {
        assert forall j :: 0 <= j < |b| ==> b[j] == all[j + |a|];
        assert a[k] == e && forall j :: k < j < |a| ==> a[j] == all[j];
      }
    }
    if IsNewest(b, e) {
      var k :| 0 <= k < |b| && b[k] == e && forall j :: k < j < |b| ==> b[j].id != e.id;
      assert all[k + |a|] == e;
    }
    if IsNewest(a, e) && e.id !in Ids(b) {
      var k :| 0 <= k < |a| && a[k] == e && forall j :: k < j < |a| ==> a[j].id != e.id;
      assert forall j :: 0 <= j < |b| ==> b[j] in b;
      assert all[k] == e;
    }
  }

  lemma MergedIsNewest(merged: seq<Event>, all: seq<Event>, e: Event)
    requires IsNewest(merged, e) && forall x :: x in merged ==> IsNewest(all, x)
    ensures IsNewest(all, e)
  {
    var k :| 0 <= k < |merged| && merged[k] == e;
    assert merged[k] in merged;
  }

  /** Merging two lists into one that both describe. */
  lemma MergeRefines(latest: Situation, mail: Situation, all: seq<Event>)
    requires mail.events != []
    requires Ids(mail.events) + Ids(latest.events) == Ids(all)
    requires forall e :: IsNewest(mail.events + latest.events, e) ==> IsNewest(all, e)
    ensures var r := Merge(latest, Some(mail)); IsMergeOf(r.events, all) && Refines(r.events, all)
  {
    hide IsNewest, Merge, InOrder, DistinctIds, Ids;
    MergeKeepsEveryEvent(latest, mail);
    IdsOfConcat(mail.events, latest.events);
    var merged := Merge(latest, Some(mail)).events;
    forall e | IsNewest(merged, e) ensures IsNewest(all, e) {
      MergedIsNewest(merged, all, e);
    }
  }

  /** Offering one more situation. */
  lemma OfferGathers(mailbox: Option<Situation>, earlier: seq<Situation>, s: Situation)
    requires earlier == [] ==> mailbox.None?
    requires earlier != [] ==> mailbox.Some? && Gathers(mailbox.value, earlier)
    ensures Gathers(Merge(s, mailbox), earlier + [s]) && Echoes(s, earlier + [s])
  {
    hide IsNewest, IsMergeOf, Merge, Ids;
    var offered := earlier + [s];
    assert offered[..|earlier|] == earlier;
    var before, all := AllEvents(earlier), AllEvents(offered);
    assert all == before + s.events;
    IdsOfConcat(before, s.events);
    forall e | IsNewest(s.events, e) ensures IsNewest(all, e) { NewestOfConcat(before, s.events, e); }
    if mailbox.None? || mailbox.value.events == [] {
      MergeWithNothing(s, mailbox);
      assert Ids(before) == {} by { if earlier == [] { NoEventsNoIds(before); } }
    } else {
      var mail := mailbox.value;
      forall e | IsNewest(mail.events + s.events, e) ensures IsNewest(all, e) {
        NewestOfConcat(mail.events, s.events, e);
        NewestOfConcat(before, s.events, e);
      }
      MergeRefines(s, mail, all);
      MergedIds(Merge(s, mailbox).events, all);
      MergeKeepsState(s, mailbox);
    }
  }

  lemma MergeWithNothing(s: Situation, mailbox: Option<Situation>)
    requires mailbox.None? || mailbox.value.events == []
    ensures Merge(s, mailbox) == s && (mailbox.Some? ==> Ids(mailbox.value.events) == {})
  {}

  lemma NoEventsNoIds(events: seq<Event>)
    ensures events == [] <==> Ids(events) == {}
  {
    assert events != [] ==> events[0].id in Ids(events);
  }

  lemma MergedIds(merged: seq<Event>, all: seq<Event>)
    requires IsMergeOf(merged, all)
    ensures Ids(merged) == Ids(all)
  {}

  lemma MergeKeepsState(latest: Situation, mailbox: Option<Situation>)
    ensures IsStateOf(Merge(latest, mailbox), latest)
  {}

  /** Merging the held situation into a mailbox that gathered already. */
  lemma RestartGathers(held: Situation, mail: Situation, offered: seq<Situation>)
    requires offered != [] && Echoes(held, offered) && Gathers(mail, offered)
    ensures Gathers(Merge(held, Some(mail)), offered)
  {
    hide IsNewest, IsMergeOf, Merge, Ids;
    var all := AllEvents(offered);
    if mail.events == [] {
      MergeWithNothing(held, Some(mail));
      NoEventsNoIds(held.events);
      NoEventsNoIds(all);
      NothingIsMerged(all);
    } else {
      forall e | IsNewest(mail.events + held.events, e) ensures IsNewest(all, e) {
        NewestOfConcat(mail.events, held.events, e);
      }
      MergeRefines(held, mail, all);
      MergedIds(Merge(held, Some(mail)).events, all);
      MergeKeepsState(held, Some(mail));
    }
  }

  lemma NothingIsMerged(all: seq<Event>)
    requires Ids(all) == {}
    ensures IsMergeOf([], all)
  {}

  // ---------- what every run without a bypass keeps ----------

  /** No early return, an engine to run on, and revisions that rise. */
  predicate IsOrderly(c: Carrier, step: Step) {
    match step
    case Offered(s, bypassed, around) => !bypassed && around.hasEngine && IsNewer(s, c.situation)
    case WorkerEnds(_, _) => true
    case Boundaries(_, around) => around.hasEngine
    case Drained(around) => around.hasEngine
    case Retried(around) => around.hasEngine
    case Closed => true
  }

  ghost predicate Orderly(steps: seq<Step>) {
    forall k :: 0 <= k < |steps| ==> IsOrderly(Run(steps[..k]), steps[k])
  }

  /** The mailbox gathers what was offered since the last cycle started. */
  ghost predicate MailboxGathers(c: Carrier) {
    && (c.offered == [] ==>
          && c.mailbox.None?
          && (c.cycles == [] ==> c.situation.None?)
          && (c.cycles != [] ==>
                c.situation.Some? && c.situation.value.revision == c.cycles[|c.cycles| - 1].situation.revision))
    && (c.offered != [] ==>
          && c.mailbox.Some? && Gathers(c.mailbox.value, c.offered)
          && c.situation.Some? && Echoes(c.situation.value, c.offered)
          && (c.cycles != [] ==> c.situation.value.revision > c.cycles[|c.cycles| - 1].situation.revision))
  }

  /** Every cycle that something was offered for gathers it all. */
  ghost predicate CyclesGather(c: Carrier) {
    && |c.accounts| == |c.cycles|
    && forall i :: 0 <= i < |c.cycles| ==> CycleGathers(c.cycles[i], c.accounts[i])
  }

  ghost predicate CycleGathers(cycle: Cycle, account: Account) {
    account.basis != [] ==> Gathers(cycle.situation, account.basis)
  }

  ghost predicate Conserves(c: Carrier) { CyclesGather(c) && (c.closing || MailboxGathers(c)) }

  /** A start with `latest` held, when merging it with the mailbox gathers all that was offered. */
  lemma StartConserves(c: Carrier, s: Situation, around: Surroundings)
    requires Safe(c) && CyclesGather(c) && !c.closing && around.hasEngine && c.offered != []
    requires Adopt(c, s).situation.Some? && Echoes(Adopt(c, s).situation.value, c.offered)
    requires Gathers(Merge(Adopt(c, s).situation.value, c.mailbox), c.offered)
    requires c.cycles != [] ==> Adopt(c, s).situation.value.revision > c.cycles[|c.cycles| - 1].situation.revision
    requires c.mailbox.Some? ==> Gathers(c.mailbox.value, c.offered) || IsNewer(Adopt(c, s).situation.value, c.mailbox)
    ensures Conserves(Start(c, s, around))
  {
    hide Merge, Gathers, Echoes, Safe;
    SafeSlot(c);
    MergeKeepsState(Adopt(c, s).situation.value, c.mailbox);
    var after := Start(c, s, around);
    forall i | 0 <= i < |after.cycles| ensures CycleGathers(after.cycles[i], after.accounts[i]) {
      if i < |c.cycles| { assert CycleGathers(c.cycles[i], c.accounts[i]); }
    }
  }

  lemma SafeSlot(c: Carrier)
    requires Safe(c)
    ensures |c.accounts| == |c.cycles| && (c.slot.Some? ==> c.slot.value + 1 == |c.cycles|)
  {}

  lemma OfferConserves(c: Carrier, s: Situation, around: Surroundings)
    requires Safe(c) && Conserves(c) && IsOrderly(c, Offered(s, false, around))
    ensures Conserves(Offer(c, s, false, around))
  {
    hide Merge, Start, CycleGathers, Ids, Refines, IsMergeOf;
    var seen := c.(situation := Some(s), offered := c.offered + [s]);
    forall i | 0 <= i < |seen.cycles| ensures CycleGathers(seen.cycles[i], seen.accounts[i]) {
      assert CycleGathers(c.cycles[i], c.accounts[i]);
    }
    if c.closing {
      StartWhenClosing(seen, s, around);
    } else {
      OfferGathers(c.mailbox, c.offered, s);
      SafeWithSituation(c, Some(s), seen.offered);
      StartConserves(seen, s, around);
    }
  }

  lemma StartWhenClosing(c: Carrier, s: Situation, around: Surroundings)
    requires c.closing
    ensures Start(c, s, around) == c
  {}

  lemma SafeWithSituation(c: Carrier, situation: Option<Situation>, offered: seq<Situation>)
    requires Safe(c)
    ensures Safe(c.(situation := situation, offered := offered))
  {
    hide CycleIsOk;
    var after := c.(situation := situation, offered := offered);
    forall i | 0 <= i < |after.cycles| ensures CycleIsOk(after.cycles[i], after.accounts[i], after.slot == Some(i)) {
      assert CycleIsOk(c.cycles[i], c.accounts[i], c.slot == Some(i));
    }
  }

  lemma SafeWithoutMailbox(c: Carrier)
    requires Safe(c)
    ensures Safe(c.(mailbox := None))
  {
    hide CycleIsOk;
    var after := c.(mailbox := None);
    forall i | 0 <= i < |after.cycles| ensures CycleIsOk(after.cycles[i], after.accounts[i], after.slot == Some(i)) {
      assert CycleIsOk(c.cycles[i], c.accounts[i], c.slot == Some(i));
    }
  }

  /** The situation in a mailbox is what a start from it would hold. */
  lemma MailIsHeld(c: Carrier)
    requires !c.closing && c.mailbox.Some? && MailboxGathers(c)
    ensures c.offered != [] && Adopt(c, c.mailbox.value) == c.(situation := c.mailbox)
    ensures Adopt(c.(mailbox := None), c.mailbox.value) == c.(mailbox := None, situation := c.mailbox)
    ensures Echoes(c.mailbox.value, c.offered) && Gathers(c.mailbox.value, c.offered)
  {
    hide Refines, IsMergeOf, Ids;
  }

  lemma ScheduleConserves(c: Carrier, completed: Cycle, around: Surroundings)
    requires Safe(c) && Conserves(c) && around.hasEngine
    requires c.cycles != [] && completed.situation.revision == c.cycles[|c.cycles| - 1].situation.revision
    ensures Conserves(Schedule(c, completed, around))
  {
    hide Start, CycleGathers, Merge, Gathers, Echoes, Safe;
    var emptied := c.(mailbox := None);
    assert CyclesGather(emptied);
    if c.closing {
      if c.mailbox.Some? { StartWhenClosing(emptied, c.mailbox.value, around); }
      if c.situation.Some? { StartWhenClosing(emptied, c.situation.value, around); }
    } else if c.mailbox.Some? {
      var mail := c.mailbox.value;
      MailIsHeld(c);
      SafeWithoutMailbox(c);
      MergeWithNothing(mail, None);
      MailRevision(c);
      StartConserves(emptied, mail, around);
    }
  }

  lemma MailRevision(c: Carrier)
    requires MailboxGathers(c) && c.mailbox.Some?
    ensures c.situation.Some? && c.mailbox.value.revision == c.situation.value.revision
  {}

  /** Equal as far as situations, mailbox, offers and bases go. */
  ghost predicate SameStory(a: Carrier, b: Carrier) {
    && a.situation == b.situation && a.mailbox == b.mailbox && a.offered == b.offered && a.closing == b.closing
    && |a.cycles| == |b.cycles| == |a.accounts| == |b.accounts|
    && (forall i :: 0 <= i < |a.cycles| ==> a.cycles[i].situation == b.cycles[i].situation)
    && (forall i :: 0 <= i < |a.cycles| ==> a.accounts[i].basis == b.accounts[i].basis)
  }

  lemma SameStoryConserves(a: Carrier, b: Carrier)
    requires SameStory(a, b) && Conserves(a)
    ensures Conserves(b)
  {
    hide Gathers, Echoes;
    forall i | 0 <= i < |b.cycles| ensures CycleGathers(b.cycles[i], b.accounts[i]) {
      assert CycleGathers(a.cycles[i], a.accounts[i]);
    }
  }

  /** The carrier once the cycle in its slot has retired. */
  function Planned(c: Carrier, id: nat, hasEngine: bool): Carrier
    requires id < |c.cycles| && |c.accounts| == |c.cycles|
  {
    if IsStale(c, c.cycles[id]) then Retire(c, id) else PlanningPhase(Retire(c, id), id, hasEngine)
  }

  /** A boundary, in a safe state: nothing while the cycle runs, else it retires and perhaps hands on. */
  lemma ApplyUnfolds(c: Carrier, boundary: Boundary, around: Surroundings)
    requires Safe(c) && c.slot.Some?
    ensures |c.accounts| == |c.cycles| && c.slot.value + 1 == |c.cycles|
    ensures var cycle, planned := c.cycles[c.slot.value], Planned(c, c.slot.value, boundary.hasEngine);
      var settled, stale := if boundary.closedMeanwhile then Shut(planned) else planned, IsStale(c, cycle);
      Apply(c, boundary, around) ==
        if !cycle.done then c
        else if !stale && boundary.raises then planned
        else if !stale && cycle.epoch.Some? && cycle.epoch == boundary.bootstrapEpoch then settled
        else Schedule(settled, cycle, around)
  {
    hide Schedule, CycleIsOk, MailboxIsNewer, CycleResult, Shut;
    var id := c.slot.value;
    assert CycleIsOk(c.cycles[id], c.accounts[id], true);
    FlightIsUnapplied(c.cycles[id], c.accounts[id]);
    if !c.cycles[id].done { assert Retire(c, id) == c; }
  }

  lemma PlannedIsSafe(c: Carrier, hasEngine: bool)
    requires Safe(c) && c.slot.Some? && c.slot.value < |c.cycles| && c.cycles[c.slot.value].done
    ensures |c.accounts| == |c.cycles|
    ensures var planned := Planned(c, c.slot.value, hasEngine);
      SameStory(c, planned) && Safe(planned) && Safe(Shut(planned))
  {
    var id := c.slot.value;
    RetireIsSafe(c, id, hasEngine);
    ShutIsSafe(Planned(c, id, hasEngine));
    hide CycleIsOk, MailboxIsNewer, CycleResult, Shut;
  }

  lemma ApplyConserves(c: Carrier, boundary: Boundary, around: Surroundings)
    requires Safe(c) && Conserves(c) && around.hasEngine
    ensures Conserves(Apply(c, boundary, around))
  {
    hide Schedule, Conserves, Safe, Shut, Planned, CycleResult;
    if c.slot.Some? {
      ApplyUnfolds(c, boundary, around);
      hide Apply;
      var cycle := c.cycles[c.slot.value];
      if cycle.done {
        var planned := Planned(c, c.slot.value, boundary.hasEngine);
        PlannedIsSafe(c, boundary.hasEngine);
        SameStoryConserves(c, planned);
        ShutConserves(planned);
        ScheduleConserves(planned, cycle, around);
        ScheduleConserves(Shut(planned), cycle, around);
      }
    }
  }

  lemma FlightIsUnapplied(cycle: Cycle, account: Account)
    requires CycleIsOk(cycle, account, true)
    ensures !cycle.planningApplied && cycle.planningDone == cycle.done
  {}

  lemma ShutConserves(c: Carrier)
    requires Conserves(c)
    ensures Conserves(Shut(c)) && Shut(c).cycles == c.cycles
  {}

  lemma StepConserves(c: Carrier, step: Step)
    requires Safe(c) && Conserves(c) && IsOrderly(c, step)
    ensures Conserves(Next(c, step))
  {
    hide Start, Apply, Offer, Safe, Gathers, Echoes, CycleGathers, Merge, MailboxGathers;
    match step
    case Offered(s, bypassed, around) => OfferConserves(c, s, around);
    case WorkerEnds(id, outcome) =>
      SafeSlot(c);
      SameStoryConserves(c, Finish(c, id, outcome));
    case Boundaries(boundary, around) => ApplyConserves(c, boundary, around);
    case Drained(around) => DrainConserves(c, around);
    case Retried(around) => RetryConserves(c, around.(waiting := false));
    case Closed => ShutConserves(c);
  }

  lemma DrainConserves(c: Carrier, around: Surroundings)
    requires Safe(c) && Conserves(c) && around.hasEngine
    ensures c.mailbox.Some? ==> Conserves(Start(c, c.mailbox.value, around))
  {
    hide Start, Safe, Gathers, Echoes, CycleGathers, Merge;
    if c.mailbox.Some? {
      var mail := c.mailbox.value;
      if c.closing {
        StartWhenClosing(c, mail, around);
      } else {
        MailIsHeld(c);
        RestartGathers(mail, mail, c.offered);
        MailRevision(c);
        StartConserves(c, mail, around);
      }
    }
  }

  lemma RetryConserves(c: Carrier, around: Surroundings)
    requires Safe(c) && Conserves(c) && around.hasEngine && !around.waiting
    ensures c.situation.Some? ==> Conserves(Start(c, c.situation.value, around))
  {
    hide Gathers, Echoes, CycleGathers, Merge, CyclesAreOk;
    if c.situation.Some? {
      var held := c.situation.value;
      if c.closing {
      } else if c.offered != [] {
        RestartGathers(held, c.mailbox.value, c.offered);
        StartConserves(c, held, around);
      } else {
        MergeKeepsState(held, None);
        var after := Start(c, held, around);
        forall i | 0 <= i < |after.cycles| ensures CycleGathers(after.cycles[i], after.accounts[i]) {
          if i < |c.cycles| {
            assert CycleGathers(c.cycles[i], c.accounts[i]);
          } else {
            NothingToGather(after.cycles[i], after.accounts[i]);
          }
        }
      }
    }
  }

  lemma NothingToGather(cycle: Cycle, account: Account)
    requires account.basis == []
    ensures CycleGathers(cycle, account)
  {}

  lemma {:induction false} RunConserves(steps: seq<Step>)
    requires Orderly(steps)
    ensures Conserves(Run(steps))
  {
    hide Next, Conserves, IsOrderly, Safe;
    if steps == [] {
      IdleConserves();
    } else {
      var n := |steps| - 1;
      forall k | 0 <= k < n ensures IsOrderly(Run(steps[..n][..k]), steps[..n][k]) {
        assert steps[..n][..k] == steps[..k];
      }
      RunConserves(steps[..n]);
      StepConserves(Run(steps[..n]), steps[n]);
    }
  }

  lemma IdleConserves()
    ensures Conserves(IDLE)
  {}

  // ---------- the record of offers ----------

  function Bases(accounts: seq<Account>): seq<Situation> {
    if accounts == [] then [] else Bases(accounts[..|accounts| - 1]) + accounts[|accounts| - 1].basis
  }

  function Ledger(c: Carrier): seq<Situation> { Bases(c.accounts) + c.offered }

  function OfferedIn(steps: seq<Step>): seq<Situation> {
    if steps == [] then []
    else
      var last := steps[|steps| - 1];
      OfferedIn(steps[..|steps| - 1]) + if last.Offered? then [last.s] else []
  }

  lemma StartKeepsLedger(c: Carrier, s: Situation, around: Surroundings)
    ensures Ledger(Start(c, s, around)) == Ledger(c)
  {
    hide Merge, Bases;
    BasesOfOneMore(c.accounts, Account(0, [], c.offered));
  }

  lemma BasesOfOneMore(accounts: seq<Account>, account: Account)
    ensures Bases(accounts + [account]) == Bases(accounts) + account.basis
  {
    assert (accounts + [account])[..|accounts|] == accounts;
  }

  lemma {:induction false} BasesOnly(a: seq<Account>, b: seq<Account>)
    requires |a| == |b| && forall i :: 0 <= i < |a| ==> a[i].basis == b[i].basis
    ensures Bases(a) == Bases(b)
  {
    if a != [] { BasesOnly(a[..|a| - 1], b[..|b| - 1]); }
  }

  lemma ApplyKeepsLedger(c: Carrier, boundary: Boundary, around: Surroundings)
    requires |c.accounts| == |c.cycles|
    ensures Ledger(Apply(c, boundary, around)) == Ledger(c)
  {
    hide Start, Bases, CycleResult;
    if c.slot.Some? && c.slot.value < |c.cycles| {
      var id := c.slot.value;
      var cycle := c.cycles[id];
      var retired := Retire(c, id);
      var phased := PlanningPhase(retired, id, boundary.hasEngine);
      BasesOnly(c.accounts, phased.accounts);
      assert Ledger(retired) == Ledger(phased) == Ledger(c);
      ScheduleKeepsLedger(retired, cycle, around);
      ScheduleKeepsLedger(Shut(retired), cycle, around);
      ScheduleKeepsLedger(phased, cycle, around);
      ScheduleKeepsLedger(Shut(phased), cycle, around);
    }
  }

  lemma ScheduleKeepsLedger(c: Carrier, completed: Cycle, around: Surroundings)
    ensures Ledger(Schedule(c, completed, around)) == Ledger(c)
  {
    hide Start, Bases;
    var emptied := c.(mailbox := None);
    if c.mailbox.Some? { StartKeepsLedger(emptied, c.mailbox.value, around); }
    if c.situation.Some? { StartKeepsLedger(emptied, c.situation.value, around); }
  }

  /** On every run the bases of the cycles, in order, followed by what was offered since, are the situations
      offered, each exactly once. */
  lemma {:induction false} EveryOfferIsAccountedFor(steps: seq<Step>)
    ensures Ledger(Run(steps)) == OfferedIn(steps)
  {
    hide Start, Apply, Safe, Bases;
    if steps == [] {
      assert Bases([]) == [] by { NoBases(); }
    } else {
      var c, step := Run(steps[..|steps| - 1]), steps[|steps| - 1];
      EveryOfferIsAccountedFor(steps[..|steps| - 1]);
      match step
      case Offered(s, bypassed, around) =>
        StartKeepsLedger(c.(situation := Some(s), offered := c.offered + [s]), s, around);
      case WorkerEnds(id, outcome) =>
      case Boundaries(boundary, around) =>
        SafeSlot(c);
        ApplyKeepsLedger(c, boundary, around);
      case Drained(around) => if c.mailbox.Some? { StartKeepsLedger(c, c.mailbox.value, around); }
      case Retried(around) =>
        if c.situation.Some? { StartKeepsLedger(c, c.situation.value, around.(waiting := false)); }
      case Closed =>
    }
  }

  lemma NoBases()
    ensures Bases([]) == []
  {}

  // ---------- what was offered between two starts ----------

  /** How many steps it took until cycle `i` had started. */
  ghost function StartOf(steps: seq<Step>, i: nat): (n: nat)
    requires i < |Run(steps).cycles|
    ensures n <= |steps| && i < |Run(steps[..n]).cycles|
    ensures forall k :: 0 <= k < n ==> |Run(steps[..k]).cycles| <= i
  {
    StartedBefore(steps, i);
    hide Run;
    if steps != [] && i < |Run(steps[..|steps| - 1]).cycles| then StartOf(steps[..|steps| - 1], i) else |steps|
  }

  lemma StartedBefore(steps: seq<Step>, i: nat)
    ensures steps[..|steps|] == steps
    ensures steps != [] ==>
      var front := steps[..|steps| - 1];
      && (forall k :: 0 <= k < |steps| ==> front[..k] == steps[..k])
      && (|Run(front).cycles| <= i ==> forall k :: 0 <= k < |steps| ==> |Run(steps[..k]).cycles| <= i)
    ensures i < |Run(steps).cycles| ==> steps != []
  {
    hide Next, Safe;
    forall k | 0 <= k < |steps| ensures |Run(steps[..k]).cycles| <= |Run(steps[..|steps| - 1]).cycles| {
      CyclesStay(steps, k, |steps| - 1);
    }
  }

  /** Where the offers for cycle `i` begin: at the start of the cycle before it. */
  ghost function OffersFrom(steps: seq<Step>, i: nat): (n: nat)
    requires i <= |Run(steps).cycles|
    ensures n <= |steps| && (i < |Run(steps).cycles| ==> n <= StartOf(steps, i))
  {
    if i == 0 then 0 else StartOf(steps, i - 1)
  }

  /** The situations offered after the cycle before `i` had started and until `i` had. */
  ghost function OfferedFor(steps: seq<Step>, i: nat): seq<Situation>
    requires i < |Run(steps).cycles|
  {
    OfferedIn(steps[OffersFrom(steps, i)..StartOf(steps, i)])
  }

  /** The situations offered since the last cycle started. */
  ghost function OfferedSince(steps: seq<Step>): seq<Situation> {
    OfferedIn(steps[OffersFrom(steps, |Run(steps).cycles|)..])
  }

  /** A step starts at most one cycle, for all that was offered so far, and leaves the older bases alone. */
  ghost predicate Follows(c: Carrier, d: Carrier) {
    && |c.accounts| <= |d.accounts| <= |c.accounts| + 1
    && (forall i :: 0 <= i < |c.accounts| ==> d.accounts[i].basis == c.accounts[i].basis)
    && (|d.accounts| > |c.accounts| ==> d.offered == [])
  }

  lemma StartFollows(c: Carrier, s: Situation, around: Surroundings)
    ensures Follows(c, Start(c, s, around))
  {
    hide Merge;
  }

  lemma ScheduleFollows(c: Carrier, completed: Cycle, around: Surroundings)
    ensures Follows(c, Schedule(c, completed, around))
  {
    hide Start;
    var emptied := c.(mailbox := None);
    if c.mailbox.Some? { StartFollows(emptied, c.mailbox.value, around); }
    if c.situation.Some? { StartFollows(emptied, c.situation.value, around); }
  }

  lemma ApplyFollows(c: Carrier, boundary: Boundary, around: Surroundings)
    requires |c.accounts| == |c.cycles|
    ensures Follows(c, Apply(c, boundary, around))
  {
    hide Schedule, CycleResult;
    if c.slot.Some? && c.slot.value < |c.cycles| {
      var retired := Retire(c, c.slot.value);
      var phased := PlanningPhase(retired, c.slot.value, boundary.hasEngine);
      forall b | b in {retired, phased, Shut(retired), Shut(phased)} {
        ScheduleFollows(b, c.cycles[c.slot.value], around);
      }
    }
  }

  lemma StepFollows(c: Carrier, step: Step)
    requires Safe(c)
    ensures Follows(c, Next(c, step))
  {
    hide Start, Apply, Safe, Follows;
    SafeSlot(c);
    NothingFollows(c, Next(c, step));
    match step
    case Offered(s, bypassed, around) =>
      var seen := c.(situation := Some(s), offered := c.offered + [s]);
      StartFollows(seen, s, around);
      FollowsBefore(c, seen, Next(c, step));
    case WorkerEnds(id, outcome) =>
    case Boundaries(boundary, around) => ApplyFollows(c, boundary, around);
    case Drained(around) => if c.mailbox.Some? { StartFollows(c, c.mailbox.value, around); }
    case Retried(around) =>
      if c.situation.Some? { StartFollows(c, c.situation.value, around.(waiting := false)); }
    case Closed =>
  }

  lemma FollowsBefore(c: Carrier, seen: Carrier, d: Carrier)
    requires c.accounts == seen.accounts && Follows(seen, d)
    ensures Follows(c, d)
  {}

  lemma NothingFollows(c: Carrier, d: Carrier)
    ensures c.accounts == d.accounts ==> Follows(c, d)
  {}

  lemma {:induction false} CyclesStay(steps: seq<Step>, k: nat, n: nat)
    requires k <= n <= |steps|
    ensures |Run(steps[..k]).cycles| <= |Run(steps[..n]).cycles|
  {
    hide Next, Safe;
    if k < n {
      CyclesStay(steps, k, n - 1);
      assert steps[..n][..n - 1] == steps[..n - 1];
      StepFollows(Run(steps[..n - 1]), steps[n - 1]);
      SafeSlot(Run(steps[..n - 1]));
      SafeSlot(Run(steps[..n]));
    }
  }

  lemma {:induction false} OfferedInSplits(steps: seq<Step>, k: nat)
    requires k <= |steps|
    ensures OfferedIn(steps) == OfferedIn(steps[..k]) + OfferedIn(steps[k..])
  {
    hide OfferedIn;
    if k == |steps| {
      assert steps[..k] == steps && steps[k..] == [];
      NothingOffered();
    } else {
      var n := |steps| - 1;
      OfferedInSplits(steps[..n], k);
      assert steps[..n][..k] == steps[..k] && steps[..n][k..] == steps[k..][..n - k];
      LastOffer(steps);
      LastOffer(steps[k..]);
    }
  }

  lemma NothingOffered()
    ensures OfferedIn([]) == []
  {}

  lemma LastOffer(steps: seq<Step>)
    requires steps != []
    ensures var last := steps[|steps| - 1];
      OfferedIn(steps) == OfferedIn(steps[..|steps| - 1]) + if last.Offered? then [last.s] else []
  {}

  /** All that was offered until cycle `i` had started went into the first `i + 1` bases. */
  lemma {:induction false} BasesUpTo(steps: seq<Step>, i: nat)
    requires i < |Run(steps).cycles|
    ensures |Run(steps).accounts| == |Run(steps).cycles|
    ensures Bases(Run(steps).accounts[..i + 1]) == OfferedIn(steps[..StartOf(steps, i)])
  {
    hide Next, Safe, Bases, OfferedIn;
    SafeSlot(Run(steps));
    if steps != [] {
      var n := |steps| - 1;
      var c, d := Run(steps[..n]), Run(steps);
      StepFollows(c, steps[n]);
      SafeSlot(c);
      if i < |c.cycles| {
        BasesUpTo(steps[..n], i);
        assert steps[..n][..StartOf(steps, i)] == steps[..StartOf(steps, i)];
        BasesOnly(c.accounts[..i + 1], d.accounts[..i + 1]);
      } else {
        EveryOfferIsAccountedFor(steps);
        assert d.accounts[..i + 1] == d.accounts && steps[..|steps|] == steps;
      }
    }
  }

  /** The basis of a cycle is what was offered between two starts; what is offered and in no basis came
      after the last. */
  lemma BasisIsOfferedFor(steps: seq<Step>, i: nat)
    requires i < |Run(steps).cycles|
    ensures |Run(steps).accounts| == |Run(steps).cycles| && Run(steps).accounts[i].basis == OfferedFor(steps, i)
  {
    var to, from := StartOf(steps, i), OffersFrom(steps, i);
    hide Run, StartOf, OffersFrom, Bases, OfferedIn;
    BasesUpTo(steps, i);
    NothingBeforeTheFirst(steps, i);
    OffersSplit(steps, from, to);
    var accounts := Run(steps).accounts;
    BasesSplit(accounts, i);
    Cancel(Bases(accounts[..i]), accounts[i].basis, OfferedFor(steps, i));
  }

  lemma OffersSplit(steps: seq<Step>, from: nat, to: nat)
    requires from <= to <= |steps|
    ensures OfferedIn(steps[..to]) == OfferedIn(steps[..from]) + OfferedIn(steps[from..to])
  {
    hide OfferedIn;
    assert steps[..to][..from] == steps[..from] && steps[..to][from..] == steps[from..to];
    OfferedInSplits(steps[..to], from);
  }

  lemma BasesSplit(accounts: seq<Account>, i: nat)
    requires i < |accounts|
    ensures Bases(accounts[..i + 1]) == Bases(accounts[..i]) + accounts[i].basis
  {
    hide Bases;
    assert accounts[..i + 1] == accounts[..i] + [accounts[i]];
    BasesOfOneMore(accounts[..i], accounts[i]);
  }

  lemma Cancel<T>(a: seq<T>, b: seq<T>, c: seq<T>)
    requires a + b == a + c
    ensures b == c
  {
    assert b == (a + b)[|a|..] && c == (a + c)[|a|..];
  }

  lemma NothingBeforeTheFirst(steps: seq<Step>, i: nat)
    requires i <= |Run(steps).cycles| == |Run(steps).accounts|
    ensures Bases(Run(steps).accounts[..i]) == OfferedIn(steps[..OffersFrom(steps, i)])
  {
    hide Run, StartOf;
    if i > 0 { BasesUpTo(steps, i - 1); }
  }

  lemma OfferedIsOfferedSince(steps: seq<Step>)
    ensures Run(steps).offered == OfferedSince(steps)
  {
    hide Run, Bases, OfferedIn, OffersFrom, Safe;
    var c := Run(steps);
    SafeSlot(c);
    EveryOfferIsAccountedFor(steps);
    NothingBeforeTheFirst(steps, |c.cycles|);
    assert c.accounts[..|c.cycles|] == c.accounts;
    OfferedInSplits(steps, OffersFrom(steps, |c.cycles|));
    Cancel(Bases(c.accounts), c.offered, OfferedSince(steps));
  }

  // ---------- the main result ----------

  /** While every offer reaches the mailbox, each cycle holds the newest of the situations offered between
      the start before it and its own, if there were any, together with the events of all of them. */
  lemma NextCycleHasEverything(steps: seq<Step>, i: nat)
    requires Orderly(steps) && i < |Run(steps).cycles| && OfferedFor(steps, i) != []
    ensures Gathers(Run(steps).cycles[i].situation, OfferedFor(steps, i))
  {
    hide Gathers, Run, OfferedFor;
    RunConserves(steps);
    BasisIsOfferedFor(steps, i);
    assert CycleGathers(Run(steps).cycles[i], Run(steps).accounts[i]);
  }
}

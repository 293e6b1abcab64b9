/** Offers that return early reach the held situation but not the mailbox. Exactly
    which steps then lose events, and what every run without such a step keeps.
  */
module CarrierBypasses {
  import opened Prelude
  import opened PendingEvents
  import opened CarrierProtocol
  import opened CarrierEvents

  /** Rising revisions and an engine to run on; early returns are allowed. */
  predicate IsRising(c: Carrier, step: Step) {
    match step
    case Offered(s, bypassed, around) => (bypassed || around.hasEngine) && IsNewer(s, c.situation)
    case WorkerEnds(_, _) => true
    case Boundaries(_, around) => around.hasEngine
    case Drained(around) => around.hasEngine
    case Retried(around) => around.hasEngine
    case Closed => true
  }

  /** A boundary that retires the cycle in the slot and goes on to schedule the next one. */
  predicate HandsOn(c: Carrier, boundary: Boundary) {
    && c.slot.Some? && c.slot.value < |c.cycles| && c.cycles[c.slot.value].done
    && var cycle := c.cycles[c.slot.value];
       && (IsStale(c, cycle) || !boundary.raises)
       && (IsStale(c, cycle) || cycle.epoch.None? || cycle.epoch != boundary.bootstrapEpoch)
       && !boundary.closedMeanwhile
  }

  function MailIds(c: Carrier): set<int> { if c.mailbox.Some? then Ids(c.mailbox.value.events) else {} }

  /** What a caller can look at before a step: an offer overwrites the held situation, and a boundary that
      hands on forgets a mailbox older than it. */
  predicate KeepsEvents(c: Carrier, step: Step) {
    c.closing
    || match step
       case Offered(s, _, _) =>
         c.offered == [] || c.situation.None? || Ids(c.situation.value.events) <= MailIds(c) + Ids(s.events)
       case Boundaries(boundary, _) =>
         || !HandsOn(c, boundary) || c.mailbox.None? || c.situation.None?
         || c.situation.value.revision <= c.mailbox.value.revision
         || MailIds(c) <= Ids(c.situation.value.events)
       case _ => true
  }

  // ---------- what is owed and what is carried ----------

  /** The ids of everything offered since the last cycle started. */
  function Owed(c: Carrier): set<int> { Ids(AllEvents(c.offered)) }

  /** Offered as it is, or merged: then one of each id in (time, id) order. */
  ghost predicate IsTidy(s: Situation, offered: seq<Situation>) {
    s in offered || (InOrder(s.events) && DistinctIds(s.events))
  }

  ghost predicate Fits(s: Situation, offered: seq<Situation>)
    requires offered != []
  {
    IsStateOf(s, offered[|offered| - 1]) && IsTidy(s, offered) && Ids(s.events) <= Ids(AllEvents(offered))
  }

  /** A mailbox is no newer than the held situation, and holds all of it when it is as new. */
  ghost predicate MailFits(c: Carrier, held: Situation) {
    c.mailbox.Some? ==>
      var mail := c.mailbox.value;
      && mail.revision <= held.revision && IsTidy(mail, c.offered) && Ids(mail.events) <= Owed(c)
      && (mail.revision == held.revision ==> IsStateOf(mail, held) && Ids(held.events) <= Ids(mail.events))
  }

  ghost predicate Waits(c: Carrier) {
    if c.offered == [] then
      && c.mailbox.None?
      && (c.cycles == [] ==> c.situation.None?)
      && (c.cycles != [] ==>
            c.situation.Some? && c.situation.value.revision == c.cycles[|c.cycles| - 1].situation.revision)
    else
      && c.situation.Some? && Fits(c.situation.value, c.offered) && MailFits(c, c.situation.value)
      && (c.cycles != [] ==> c.situation.value.revision > c.cycles[|c.cycles| - 1].situation.revision)
  }

  ghost predicate CycleFits(cycle: Cycle, account: Account) { account.basis != [] ==> Fits(cycle.situation, account.basis) }

  ghost predicate CycleIsWhole(cycle: Cycle, account: Account) {
    Ids(AllEvents(account.basis)) <= Ids(cycle.situation.events)
  }

  /** The shape every rising run keeps, losses or not. */
  ghost predicate IsShaped(c: Carrier) { CyclesFit(c) && (c.closing || Waits(c)) }

  ghost predicate CyclesFit(c: Carrier) {
    && |c.accounts| == |c.cycles|
    && forall i :: 0 <= i < |c.cycles| ==> CycleFits(c.cycles[i], c.accounts[i])
  }

  ghost predicate CyclesAreWhole(c: Carrier) {
    && |c.accounts| == |c.cycles|
    && forall i :: 0 <= i < |c.cycles| && c.accounts[i].basis != [] ==> CycleIsWhole(c.cycles[i], c.accounts[i])
  }

  /** Every event owed is in the held situation or the mailbox. */
  ghost predicate NothingIsLost(c: Carrier) {
    c.offered == [] || (c.situation.Some? && Owed(c) <= Ids(c.situation.value.events) + MailIds(c))
  }

  ghost predicate IsWhole(c: Carrier) { CyclesAreWhole(c) && (c.closing || NothingIsLost(c)) }

  // ---------- merging ----------

  lemma MergeIds(latest: Situation, mailbox: Option<Situation>)
    ensures var mail := if mailbox.Some? then Ids(mailbox.value.events) else {};
      Ids(Merge(latest, mailbox).events) == Ids(latest.events) + mail
    ensures Merge(latest, mailbox) == latest
      || (InOrder(Merge(latest, mailbox).events) && DistinctIds(Merge(latest, mailbox).events))
    ensures IsStateOf(Merge(latest, mailbox), latest)
  {
    MergeKeepsState(latest, mailbox);
    if mailbox.None? || mailbox.value.events == [] {
      MergeWithNothing(latest, mailbox);
    } else {
      MergeKeepsEveryEvent(latest, mailbox.value);
      IdsOfConcat(mailbox.value.events, latest.events);
    }
  }

  // ---------- starting a cycle ----------

  /** `after` is shaped; and, the cycles before being whole, it is whole exactly when `complete`. */
  ghost predicate EndsWhole(after: Carrier, whole: bool, complete: bool) {
    IsShaped(after) && (whole ==> (IsWhole(after) <==> complete))
  }

  /** A start with `latest` held and something offered: it keeps the shape, and keeps everything owed exactly
      when `latest` and the mailbox together hold it. */
  lemma StartIsWholeIff(c: Carrier, s: Situation, around: Surroundings)
    requires SlotIsOk(c) && !c.closing && around.hasEngine && c.offered != []
    requires CyclesFit(c)
    requires var held := Adopt(c, s).situation.value;
      && Fits(held, c.offered) && MailFits(c, held)
      && (c.cycles != [] ==> held.revision > c.cycles[|c.cycles| - 1].situation.revision)
    ensures EndsWhole(Start(c, s, around), CyclesAreWhole(c),
      Owed(c) <= Ids(Adopt(c, s).situation.value.events) + MailIds(c))
  {
    var held := Adopt(c, s);
    var latest := held.situation.value;
    AdoptHolds(c, s);
    SameCycles(c, held);
    SameMail(c, held, latest);
    StartIsOneOf(c, s, around);
    hide *;
    HeldIsWholeIff(held, latest, Start(c, s, around), around.epoch);
  }

  lemma AdoptHolds(c: Carrier, s: Situation)
    ensures var held := Adopt(c, s);
      && held.situation.Some? && held.closing == c.closing && held.offered == c.offered && held.mailbox == c.mailbox
      && held.cycles == c.cycles && held.accounts == c.accounts
  {}

  lemma HeldIsWholeIff(held: Carrier, latest: Situation, after: Carrier, epoch: Option<int>)
    requires !held.closing && held.offered != [] && held.situation == Some(latest) && CyclesFit(held)
    requires Fits(latest, held.offered) && MailFits(held, latest)
    requires held.cycles != [] ==> latest.revision > held.cycles[|held.cycles| - 1].situation.revision
    requires var merged := Merge(latest, held.mailbox);
      after == held || after == held.(mailbox := Some(merged)) || after == Launch(held, merged, epoch)
    ensures EndsWhole(after, CyclesAreWhole(held), Owed(held) <= Ids(latest.events) + MailIds(held))
  {
    var merged := Merge(latest, held.mailbox);
    MergeIds(latest, held.mailbox);
    hide Merge, Fits, MailFits, CyclesFit, CyclesAreWhole, EndsWhole, Owed, Ids, AllEvents, Launch;
    if after == held {
      HoldingIsWholeIff(held, latest);
    } else if after == held.(mailbox := Some(merged)) {
      MailingIsWholeIff(held, latest);
    } else {
      MergeFits(held, latest);
      LaunchIsWholeIff(held, merged, epoch);
    }
  }

  /** A start holds, mails or launches. */
  lemma StartIsOneOf(c: Carrier, s: Situation, around: Surroundings)
    requires !c.closing
    ensures var held, after := Adopt(c, s), Start(c, s, around);
      var merged := Merge(held.situation.value, c.mailbox);
      after == held || after == held.(mailbox := Some(merged)) || after == Launch(held, merged, around.epoch)
  {
    hide Merge;
  }

  lemma SameCycles(a: Carrier, b: Carrier)
    requires a.cycles == b.cycles && a.accounts == b.accounts
    ensures (CyclesAreWhole(a) <==> CyclesAreWhole(b)) && (CyclesFit(a) <==> CyclesFit(b))
  {}

  lemma SameMail(a: Carrier, b: Carrier, latest: Situation)
    requires a.mailbox == b.mailbox && a.offered == b.offered
    ensures Owed(a) == Owed(b) && MailIds(a) == MailIds(b) && (MailFits(a, latest) <==> MailFits(b, latest))
  {}

  lemma MergeFits(c: Carrier, latest: Situation)
    requires c.offered != [] && Fits(latest, c.offered) && MailFits(c, latest)
    ensures Fits(Merge(latest, c.mailbox), c.offered)
  {
    MergeIds(latest, c.mailbox);
    hide Merge, Ids, AllEvents, InOrder, DistinctIds;
  }

  /** Holding `latest` beside the mailbox as it is. */
  lemma HoldingIsWholeIff(c: Carrier, latest: Situation)
    requires !c.closing && c.offered != [] && c.situation == Some(latest) && Fits(latest, c.offered) && MailFits(c, latest)
    requires CyclesFit(c)
    requires c.cycles != [] ==> latest.revision > c.cycles[|c.cycles| - 1].situation.revision
    ensures EndsWhole(c, CyclesAreWhole(c), Owed(c) <= Ids(latest.events) + MailIds(c))
  {
    hide Fits, MailFits, CycleFits, CycleIsWhole, Ids, AllEvents;
  }

  /** Merging `latest` into the mailbox. */
  lemma MailingIsWholeIff(c: Carrier, latest: Situation)
    requires !c.closing && c.offered != [] && c.situation == Some(latest) && Fits(latest, c.offered) && MailFits(c, latest)
    requires CyclesFit(c)
    requires c.cycles != [] ==> latest.revision > c.cycles[|c.cycles| - 1].situation.revision
    ensures EndsWhole(c.(mailbox := Some(Merge(latest, c.mailbox))), CyclesAreWhole(c),
      Owed(c) <= Ids(latest.events) + MailIds(c))
  {
    var after := c.(mailbox := Some(Merge(latest, c.mailbox)));
    MergeIds(latest, c.mailbox);
    MergeFits(c, latest);
    hide Merge, Ids, AllEvents, IsTidy, CycleFits, CycleIsWhole;
    assert MailFits(after, latest);
    HoldingIsWholeIff(after, latest);
    SameCycles(c, after);
  }

  lemma LaunchIsWholeIff(c: Carrier, s: Situation, epoch: Option<int>)
    requires !c.closing && c.offered != [] && Fits(s, c.offered)
    requires c.situation.Some? && c.situation.value.revision == s.revision
    requires CyclesFit(c)
    ensures EndsWhole(Launch(c, s, epoch), CyclesAreWhole(c), Owed(c) <= Ids(s.events))
  {
    hide Ids, AllEvents, IsTidy;
    var after := Launch(c, s, epoch);
    var n := |c.cycles|;
    assert after.cycles[n].situation == s && after.accounts[n].basis == c.offered;
    if CyclesAreWhole(c) {
      forall i | 0 <= i < n && after.accounts[i].basis != [] ensures CycleIsWhole(after.cycles[i], after.accounts[i]) {
        assert CycleIsWhole(c.cycles[i], c.accounts[i]);
      }
    }
  }

  // ---------- offers ----------

  lemma OwedAfterOffer(c: Carrier, s: Situation)
    ensures Ids(AllEvents(c.offered + [s])) == Owed(c) + Ids(s.events)
  {
    assert (c.offered + [s])[..|c.offered|] == c.offered;
    IdsOfConcat(AllEvents(c.offered), s.events);
  }

  lemma OfferFits(c: Carrier, s: Situation)
    requires Waits(c) && IsNewer(s, c.situation)
    ensures var seen := c.(situation := Some(s), offered := c.offered + [s]);
      && Fits(s, seen.offered) && MailFits(seen, s)
      && (c.cycles != [] ==> s.revision > c.cycles[|c.cycles| - 1].situation.revision)
  {
    hide Ids, AllEvents, InOrder, DistinctIds;
    OwedAfterOffer(c, s);
    var offered := c.offered + [s];
    assert offered[|offered| - 1] == s && s in offered;
    assert forall x :: x in c.offered ==> x in offered;
  }

  lemma OfferIsWholeIff(c: Carrier, s: Situation, bypassed: bool, around: Surroundings)
    requires SlotIsOk(c) && IsShaped(c) && IsRising(c, Offered(s, bypassed, around))
    ensures IsShaped(Offer(c, s, bypassed, around))
    ensures IsWhole(c) ==> (IsWhole(Offer(c, s, bypassed, around)) <==> KeepsEvents(c, Offered(s, bypassed, around)))
  {
    hide Ids, AllEvents, IsTidy, Merge;
    var seen := c.(situation := Some(s), offered := c.offered + [s]);
    if c.closing {
      StartWhenClosing(seen, s, around);
    } else {
      OfferFits(c, s);
      OwedAfterOffer(c, s);
      NothingOwed(c);
      if bypassed {
        hide Start;
      } else {
        StartIsWholeIff(seen, s, around);
        hide Start;
      }
    }
  }

  lemma NothingOwed(c: Carrier)
    ensures c.offered == [] ==> Owed(c) == {}
  {}

  // ---------- boundaries ----------

  lemma ScheduleIsWholeIff(c: Carrier, completed: Cycle, around: Surroundings)
    requires SlotIsOk(c) && IsShaped(c) && around.hasEngine
    requires c.cycles != [] && completed.situation.revision == c.cycles[|c.cycles| - 1].situation.revision
    ensures IsShaped(Schedule(c, completed, around))
    ensures IsWhole(c) ==>
      (IsWhole(Schedule(c, completed, around)) <==>
        (c.closing || c.mailbox.None? || c.situation.None? || c.situation.value.revision <= c.mailbox.value.revision
         || MailIds(c) <= Ids(c.situation.value.events)))
  {
    hide Ids, AllEvents, IsTidy, Merge;
    var emptied := c.(mailbox := None);
    if c.closing {
      if c.mailbox.Some? { StartWhenClosing(emptied, c.mailbox.value, around); }
      if c.situation.Some? { StartWhenClosing(emptied, c.situation.value, around); }
    } else if c.offered != [] {
      var from := if c.mailbox.Some? then c.mailbox.value else c.situation.value;
      StartIsWholeIff(emptied, from, around);
      hide Start;
    }
  }

  lemma SameStoryIsWhole(a: Carrier, b: Carrier)
    requires SameStory(a, b) && IsShaped(a)
    ensures IsShaped(b) && (IsWhole(a) <==> IsWhole(b)) && MailIds(a) == MailIds(b)
  {
    hide Fits, Ids, AllEvents, IsTidy;
    forall i | 0 <= i < |b.cycles| ensures CycleFits(b.cycles[i], b.accounts[i]) {
      assert CycleFits(a.cycles[i], a.accounts[i]);
    }
    if CyclesAreWhole(a) { SameCyclesAreWhole(a, b); }
    if CyclesAreWhole(b) { SameCyclesAreWhole(b, a); }
  }

  lemma SameCyclesAreWhole(a: Carrier, b: Carrier)
    requires SameStory(a, b) && CyclesAreWhole(a)
    ensures CyclesAreWhole(b)
  {
    hide Ids, AllEvents;
    forall i | 0 <= i < |b.cycles| && b.accounts[i].basis != [] ensures CycleIsWhole(b.cycles[i], b.accounts[i]) {
      assert CycleIsWhole(a.cycles[i], a.accounts[i]);
    }
  }

  lemma ShutIsShaped(c: Carrier)
    requires IsShaped(c)
    ensures IsShaped(Shut(c)) && (CyclesAreWhole(c) ==> IsWhole(Shut(c))) && Shut(c).closing && Shut(c).cycles == c.cycles
  {
    hide CycleFits, CycleIsWhole;
  }

  lemma ApplyIsWholeIff(c: Carrier, boundary: Boundary, around: Surroundings)
    requires Safe(c) && IsShaped(c) && around.hasEngine
    ensures IsShaped(Apply(c, boundary, around))
    ensures IsWhole(c) ==> (IsWhole(Apply(c, boundary, around)) <==> KeepsEvents(c, Boundaries(boundary, around)))
  {
    hide Schedule, IsShaped, CyclesAreWhole, NothingIsLost, Safe, CycleResult, Shut, Ids, Planned;
    if c.slot.Some? {
      ApplyUnfolds(c, boundary, around);
      hide Apply;
      var cycle := c.cycles[c.slot.value];
      if cycle.done {
        var planned := Planned(c, c.slot.value, boundary.hasEngine);
        PlannedIsSafe(c, boundary.hasEngine);
        SafeSlots(planned);
        SafeSlots(Shut(planned));
        SameStoryIsWhole(c, planned);
        ShutIsShaped(planned);
        ScheduleIsWholeIff(planned, cycle, around);
        ScheduleIsWholeIff(Shut(planned), cycle, around);
      }
    }
  }

  lemma SafeSlots(c: Carrier)
    requires Safe(c)
    ensures SlotIsOk(c)
  {}

  // ---------- every step ----------

  lemma DrainIsWhole(c: Carrier, around: Surroundings)
    requires SlotIsOk(c) && IsShaped(c) && around.hasEngine && c.mailbox.Some?
    ensures IsShaped(Start(c, c.mailbox.value, around))
    ensures IsWhole(c) ==> IsWhole(Start(c, c.mailbox.value, around))
  {
    hide Ids, AllEvents, IsTidy, Merge;
    if c.closing {
      StartWhenClosing(c, c.mailbox.value, around);
    } else {
      StartIsWholeIff(c, c.mailbox.value, around);
      hide Start;
    }
  }

  lemma RetryIsWhole(c: Carrier, around: Surroundings)
    requires SlotIsOk(c) && IsShaped(c) && around.hasEngine && !around.waiting && c.situation.Some?
    ensures IsShaped(Start(c, c.situation.value, around))
    ensures IsWhole(c) ==> IsWhole(Start(c, c.situation.value, around))
  {
    hide Ids, AllEvents, IsTidy, Merge, Fits;
    var held := c.situation.value;
    if c.closing {
      StartWhenClosing(c, held, around);
    } else if c.offered != [] {
      StartIsWholeIff(c, held, around);
      hide Start;
    } else {
      MergeKeepsState(held, None);
      var after := Start(c, held, around);
      forall i | 0 <= i < |after.cycles| ensures CycleFits(after.cycles[i], after.accounts[i]) {
        if i < |c.cycles| { assert CycleFits(c.cycles[i], c.accounts[i]); }
      }
      forall i | 0 <= i < |after.cycles| && after.accounts[i].basis != [] && IsWhole(c)
        ensures CycleIsWhole(after.cycles[i], after.accounts[i])
      {
        assert CycleIsWhole(c.cycles[i], c.accounts[i]);
      }
    }
  }

  /** The exact condition: on a rising run, a step from a state that owes nothing it does not carry leaves
      such a state if and only if `KeepsEvents` holds before it. */
  lemma StepIsWholeIff(c: Carrier, step: Step)
    requires Safe(c) && IsShaped(c) && IsRising(c, step)
    ensures IsShaped(Next(c, step))
    ensures IsWhole(c) ==> (IsWhole(Next(c, step)) <==> KeepsEvents(c, step))
  {
    hide Start, Apply, Offer, Shut, IsShaped, CyclesAreWhole, NothingIsLost, Ids, CyclesAreOk, MailboxIsNewer;
    match step
    case Offered(s, bypassed, around) => OfferIsWholeIff(c, s, bypassed, around);
    case WorkerEnds(id, outcome) =>
      SafeSlot(c);
      SameStoryIsWhole(c, Finish(c, id, outcome));
    case Boundaries(boundary, around) => ApplyIsWholeIff(c, boundary, around);
    case Drained(around) => if c.mailbox.Some? { DrainIsWhole(c, around); }
    case Retried(around) => if c.situation.Some? { RetryIsWhole(c, around.(waiting := false)); }
    case Closed => ShutIsShaped(c);
  }

  // ---------- whole runs ----------

  ghost predicate RisesAndKeeps(steps: seq<Step>) {
    forall k :: 0 <= k < |steps| ==> IsRising(Run(steps[..k]), steps[k]) && KeepsEvents(Run(steps[..k]), steps[k])
  }

  lemma {:induction false} RunIsWhole(steps: seq<Step>)
    requires RisesAndKeeps(steps)
    ensures IsShaped(Run(steps)) && IsWhole(Run(steps))
  {
    hide Next, IsShaped, IsWhole, IsRising, KeepsEvents, Safe;
    if steps == [] {
      IdleIsWhole();
    } else {
      var n := |steps| - 1;
      forall k | 0 <= k < n
        ensures IsRising(Run(steps[..n][..k]), steps[..n][k]) && KeepsEvents(Run(steps[..n][..k]), steps[..n][k])
      {
        assert steps[..n][..k] == steps[..k];
      }
      RunIsWhole(steps[..n]);
      StepIsWholeIff(Run(steps[..n]), steps[n]);
    }
  }

  lemma IdleIsWhole()
    ensures IsShaped(IDLE) && IsWhole(IDLE)
  {}

  /** On every rising run whose steps keep events, early returns and pauses included: each cycle holds the
      newest of the situations offered between the start before it and its own, if there were any, with every
      event id of all of them, and one event of each id in (time, id) order unless it is one of the offers as
      it came. */
  lemma NextCycleKeepsEveryEvent(steps: seq<Step>, i: nat)
    requires RisesAndKeeps(steps) && i < |Run(steps).cycles| && OfferedFor(steps, i) != []
    ensures var s, offers := Run(steps).cycles[i].situation, OfferedFor(steps, i);
      && IsStateOf(s, offers[|offers| - 1])
      && Ids(s.events) == Ids(AllEvents(offers))
      && (s in offers || (InOrder(s.events) && DistinctIds(s.events)))
  {
    hide Run, Ids, AllEvents, OfferedFor;
    RunIsWhole(steps);
    BasisIsOfferedFor(steps, i);
    assert CycleFits(Run(steps).cycles[i], Run(steps).accounts[i]);
    assert CycleIsWhole(Run(steps).cycles[i], Run(steps).accounts[i]);
  }

  /** And while it waits, everything offered since the last start is in the held situation or the mailbox. */
  lemma WhatWaitsIsCarried(steps: seq<Step>)
    requires RisesAndKeeps(steps)
    ensures var c := Run(steps);
      !c.closing && OfferedSince(steps) != [] ==>
        c.situation.Some? && Ids(c.situation.value.events) + MailIds(c) == Ids(AllEvents(OfferedSince(steps)))
  {
    hide Run, Ids, AllEvents, CycleFits, CycleIsWhole, OfferedSince;
    RunIsWhole(steps);
    OfferedIsOfferedSince(steps);
  }

  // ---------- the two ways of losing, one at a time ----------

  /** The mailbox of a finished cycle survives being handed on, paused or not, if and only if no newer
      situation was left beside it by an early return, or that one repeats its events. */
  lemma MailboxSurvivesIff(c: Carrier, completed: Cycle, around: Surroundings)
    requires !c.closing && c.slot.None? && c.mailbox.Some? && c.situation.Some? && around.hasEngine
    ensures var after := Schedule(c, completed, around);
      var kept := if around.waiting then MailIds(after) else Ids(after.cycles[|after.cycles| - 1].situation.events);
      && (!around.waiting ==> |after.cycles| == |c.cycles| + 1)
      && (MailIds(c) <= kept <==>
            c.situation.value.revision <= c.mailbox.value.revision || MailIds(c) <= Ids(c.situation.value.events))
  {
    MergeWithNothing(c.mailbox.value, None);
    MergeWithNothing(c.situation.value, None);
  }

  const ALERT := Event(7, 10, 0)

  const AROUND := Surroundings(false, true, None)

  function Plain(revision: int): Situation { Situation(revision, 0, []) }

  function Alerting(revision: int): Situation { Situation(revision, 0, [ALERT]) }

  /** Offers 1, 2 (with an event) and 3, the last one bypassing the mailbox while the first cycle runs. */
  function ForgottenMailbox(): seq<Step> {
    [Offered(Plain(1), false, AROUND), Offered(Alerting(2), false, AROUND), Offered(Plain(3), true, AROUND),
     WorkerEnds(0, Returned(None)), Boundaries(Boundary(None, true, false, false), AROUND)]
  }

  /** An early return with an event, then an ordinary offer. */
  function OverwrittenSituation(): seq<Step> {
    [Offered(Alerting(1), true, AROUND), Offered(Plain(2), false, AROUND)]
  }

  ghost predicate IsNowhere(c: Carrier, e: Event) {
    && (forall i :: 0 <= i < |c.cycles| ==> e !in c.cycles[i].situation.events)
    && (c.mailbox.Some? ==> e !in c.mailbox.value.events)
    && (c.situation.Some? ==> e !in c.situation.value.events)
  }

  lemma PlainMerges()
    ensures Merge(Plain(1), None) == Plain(1) && Merge(Plain(2), None) == Plain(2) && Merge(Plain(3), None) == Plain(3)
    ensures Merge(Alerting(2), None) == Alerting(2)
  {}

  /** Both runs begin with these two offers. */
  function TwoOffers(): seq<Step> { [Offered(Plain(1), false, AROUND), Offered(Alerting(2), false, AROUND)] }

  lemma AfterTwoOffers()
    ensures Run(TwoOffers()) == Carrier(Some(Alerting(2)), Some(Alerting(2)),
      [Cycle(Plain(1), None, false, false, false, None)], Some(0), false, {0}, [Account(0, [], [Plain(1)])], [Alerting(2)])
  {
    hide Safe, Merge;
    PlainMerges();
    var steps := TwoOffers();
    assert steps[..1][..0] == [] && steps[..1] == steps[..|steps| - 1];
    RunUnfolds(steps[..1]);
    var c := Run(steps[..1]);
    assert |c.accounts| == 1 && c.accounts[0].basis == [Plain(1)];
    assert c.cycles == [Cycle(Plain(1), None, false, false, false, None)] && c.accounts == [Account(0, [], [Plain(1)])];
    RunUnfolds(steps);
    assert Run(steps).offered == [Alerting(2)];
  }

  /** The first cycle is done; the mailbox holds the event and the held situation is newer. */
  lemma BeforeTheHandover()
    ensures var c := Run(ForgottenMailbox()[..4]);
      && c.slot == Some(0) && !c.closing && |c.accounts| == 1
      && c.cycles == [Cycle(Plain(1), None, true, true, false, Some(Returned(None)))]
      && c.situation == Some(Plain(3)) && c.mailbox == Some(Alerting(2))
  {
    hide Safe, Merge, CycleResult, Start;
    AfterTwoOffers();
    var steps := ForgottenMailbox();
    assert steps[..2] == TwoOffers() && steps[..3][..2] == steps[..2] && steps[..4][..3] == steps[..3];
    RunUnfolds(steps[..3]);
    RunUnfolds(steps[..4]);
  }

  lemma ForgottenMailboxLosesAnEvent()
    ensures IsNowhere(Run(ForgottenMailbox()), ALERT)
  {
    hide Safe, Merge, CycleResult;
    PlainMerges();
    BeforeTheHandover();
    var steps := ForgottenMailbox();
    assert steps[..4] == steps[..|steps| - 1];
    RunUnfolds(steps);
  }

  lemma OverwrittenSituationLosesAnEvent()
    ensures IsNowhere(Run(OverwrittenSituation()), ALERT)
  {
    hide Safe, Merge;
    PlainMerges();
    var steps := OverwrittenSituation();
    assert steps[..1][..0] == [] && steps[..1] == steps[..|steps| - 1];
    RunUnfolds(steps[..1]);
    RunUnfolds(steps);
  }

  /** The first run with the early return taken out, and nothing else. */
  function WithoutEarlyReturn(): seq<Step> { ForgottenMailbox()[2 := Offered(Plain(3), false, AROUND)] }

  lemma BothOffersMerged()
    ensures var w := Merge(Plain(3), Some(Alerting(2)));
      w.revision == 3 && Ids(w.events) == {7} && Merge(w, None) == w
  {
    MergeIds(Plain(3), Some(Alerting(2)));
    MergeWithNothing(Merge(Plain(3), Some(Alerting(2))), None);
    assert Ids([ALERT]) == {7} && Ids([]) == {};
  }

  /** There the second cycle is the third offer with the event. */
  lemma WithoutEarlyReturnItArrives()
    ensures var c := Run(WithoutEarlyReturn());
      && |c.cycles| == 2 && OfferedFor(WithoutEarlyReturn(), 1) == [Alerting(2), Plain(3)]
      && c.cycles[1].situation.revision == 3 && 7 in Ids(c.cycles[1].situation.events)
  {
    hide Safe, CycleResult, Merge, Ids, OfferedFor;
    PlainMerges();
    BothOffersMerged();
    AfterTwoOffers();
    var steps := WithoutEarlyReturn();
    assert steps[..2] == TwoOffers() && steps[..3][..2] == steps[..2];
    assert steps[..4][..3] == steps[..3] && steps[..4] == steps[..|steps| - 1];
    RunUnfolds(steps[..3]);
    RunUnfolds(steps[..4]);
    RunUnfolds(steps);
    BasisIsOfferedFor(steps, 1);
  }

  /** And that run is orderly. */
  lemma WithoutEarlyReturnIsOrderly()
    ensures Orderly(WithoutEarlyReturn())
  {
    hide Safe, Merge, CycleResult, Apply;
    PlainMerges();
    var steps := WithoutEarlyReturn();
    assert steps[..0] == [] && steps[..1][..0] == [] && steps[..2][..1] == steps[..1];
    RunUnfolds(steps[..1]);
    RunUnfolds(steps[..2]);
    forall k | 0 <= k < |steps| ensures IsOrderly(Run(steps[..k]), steps[k]) {
      assert k == 0 || k == 1 || k == 2 || k == 3 || k == 4;
    }
  }

  lemma RunUnfolds(steps: seq<Step>)
    requires steps != []
    ensures Run(steps) == Next(Run(steps[..|steps| - 1]), steps[|steps| - 1]) && Run([]) == IDLE
  {
    hide Next, Safe;
  }
}

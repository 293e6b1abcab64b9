/** The life of one planning cycle over a whole run: when it starts and with which
    epoch, what its worker ended with, whether its plan is applied, and the one
    result the coordinator is told.
  */
module CycleLives {
  import opened Prelude
  import opened PendingEvents
  import opened CarrierProtocol
  import opened CarrierEvents
  import opened CarrierBypasses

  // ---------- what an epoch is closed with ----------

  /** The worker returned a result that names this epoch. */
  predicate Names(epoch: int, outcome: Outcome, r: CommitResult) {
    outcome == Returned(Some(r)) && r.epoch == epoch
  }

  predicate RaisedSemantic(outcome: Outcome) { outcome.Raised? && outcome.failure.isSemantic }

  predicate RaisedProvider(outcome: Outcome) { outcome.Raised? && outcome.failure.isProvider && !outcome.failure.isSemantic }

  /** What the coordinator has to be told of a cycle whose worker ended like this. */
  ghost predicate IsVerdict(epoch: int, outcome: Outcome, hasEngine: bool, r: CommitResult) {
    && r.epoch == epoch
    && if hasEngine && exists named :: Names(epoch, outcome, named) then Names(epoch, outcome, r)
       else
         && r.status == (if RaisedSemantic(outcome) then Rejected else Failed)
         && (r.category == Some(Semantic) <==> RaisedSemantic(outcome))
         && (r.category == Some(Provider) <==> RaisedProvider(outcome))
         && (r.category == Some(Internal) <==> !RaisedSemantic(outcome) && !RaisedProvider(outcome))
         && r.category.Some?
  }

  lemma ResultIsVerdict(cycle: Cycle, hasEngine: bool, r: CommitResult)
    requires cycle.epoch.Some? && cycle.outcome.Some?
    ensures r == CycleResult(cycle, hasEngine) <==> IsVerdict(cycle.epoch.value, cycle.outcome.value, hasEngine, r)
  {
    var epoch, outcome := cycle.epoch.value, cycle.outcome.value;
    if outcome.Returned? && outcome.reported.Some? && outcome.reported.value.epoch == epoch {
      assert Names(epoch, outcome, outcome.reported.value);
    }
  }

  // ---------- one step in the life of one cycle ----------

  /** The boundary at which cycle `i` leaves the slot. */
  predicate IsRetiring(c: Carrier, step: Step, i: nat) {
    step.Boundaries? && c.slot == Some(i) && i < |c.cycles| && c.cycles[i].done
  }

  predicate IsEnding(c: Carrier, step: Step, i: nat) { step.WorkerEnds? && step.id == i && i in c.working }

  /** A cycle without an epoch is out of date when a newer situation is held. */
  predicate IsOutOfDate(c: Carrier, cycle: Cycle) {
    cycle.epoch.None? && c.situation.Some? && c.situation.value.revision > cycle.situation.revision
  }

  /** What the step does to a cycle that exists. */
  ghost predicate Lives(c: Carrier, step: Step, d: Carrier, i: nat) {
    && i < |c.cycles| <= |d.cycles| && |c.cycles| == |c.accounts| && |d.cycles| == |d.accounts|
    && var was, now := c.cycles[i], d.cycles[i];
       && now.situation == was.situation && now.epoch == was.epoch
       && now.outcome == (if IsEnding(c, step, i) then Some(step.outcome) else was.outcome)
       && ((c.slot == Some(i) && d.slot != Some(i)) <==> IsRetiring(c, step, i))
       && (i in d.working <==> i in c.working && !IsEnding(c, step, i))
       && (i in c.working ==> was.outcome.None?)
       && (IsRetiring(c, step, i) ==> was.outcome.Some?)
       && d.accounts[i].phases == c.accounts[i].phases
            + (if IsRetiring(c, step, i) && !IsOutOfDate(c, was) then 1 else 0)
       && d.accounts[i].results == c.accounts[i].results
            + (if IsRetiring(c, step, i) && was.epoch.Some? then [CycleResult(was, step.boundary.hasEngine)] else [])
  }

  /** What `c` and `d` agree on when nothing happens to cycle `i`. */
  ghost predicate SameLife(c: Carrier, d: Carrier, i: nat) {
    && |c.cycles| == |c.accounts| && |d.cycles| == |d.accounts| && i < |c.cycles| <= |d.cycles|
    && d.cycles[i] == c.cycles[i] && d.accounts[i].phases == c.accounts[i].phases
    && d.accounts[i].results == c.accounts[i].results
    && (d.slot == Some(i) <==> c.slot == Some(i)) && (i in d.working <==> i in c.working)
  }

  lemma StartKeepsLives(c: Carrier, s: Situation, around: Surroundings, i: nat)
    requires |c.cycles| == |c.accounts| && i < |c.cycles|
    ensures SameLife(c, Start(c, s, around), i)
  {
    hide Merge;
  }

  lemma ScheduleKeepsLives(c: Carrier, completed: Cycle, around: Surroundings, i: nat)
    requires |c.cycles| == |c.accounts| && i < |c.cycles|
    ensures SameLife(c, Schedule(c, completed, around), i)
  {
    hide Start;
    var emptied := c.(mailbox := None);
    if c.mailbox.Some? { StartKeepsLives(emptied, c.mailbox.value, around, i); }
    if c.situation.Some? { StartKeepsLives(emptied, c.situation.value, around, i); }
  }

  lemma FlightIsSound(c: Carrier, i: nat)
    requires Safe(c) && i < |c.cycles|
    ensures |c.accounts| == |c.cycles| && (c.slot.Some? ==> c.slot.value + 1 == |c.cycles|)
    ensures c.cycles[i].done <==> c.cycles[i].outcome.Some?
    ensures i in c.working <==> c.slot == Some(i) && !c.cycles[i].done
    ensures forall j :: j in c.working ==> j < |c.cycles|
  {
    assert CycleIsOk(c.cycles[i], c.accounts[i], c.slot == Some(i));
  }

  lemma PlannedLives(c: Carrier, boundary: Boundary, around: Surroundings, i: nat)
    requires |c.accounts| == |c.cycles| && i < |c.cycles| && c.slot.Some? && c.slot.value < |c.cycles|
    requires c.cycles[c.slot.value].done && c.cycles[c.slot.value].outcome.Some?
    requires i in c.working ==> c.cycles[i].outcome.None?
    ensures Lives(c, Boundaries(boundary, around), Planned(c, c.slot.value, boundary.hasEngine), i)
  {
    hide CycleResult;
    RetiredResultIsSame(c.cycles[c.slot.value], boundary.hasEngine);
  }

  lemma LivesThenSame(c: Carrier, step: Step, planned: Carrier, d: Carrier, i: nat)
    requires Lives(c, step, planned, i) && SameLife(planned, d, i)
    ensures Lives(c, step, d, i)
  {
    hide CycleResult;
  }

  lemma BoundaryLives(c: Carrier, boundary: Boundary, around: Surroundings, i: nat)
    requires Safe(c) && i < |c.cycles|
    ensures |c.accounts| == |c.cycles| && Lives(c, Boundaries(boundary, around), Apply(c, boundary, around), i)
  {
    hide Safe, Lives, Schedule, Planned, CycleResult;
    FlightIsSound(c, i);
    if c.slot.None? {
      NothingLives(c, Boundaries(boundary, around), c, i);
    } else {
      ApplyUnfolds(c, boundary, around);
      FlightIsSound(c, c.slot.value);
      hide Apply;
      var cycle := c.cycles[c.slot.value];
      if cycle.done {
        var planned := Planned(c, c.slot.value, boundary.hasEngine);
        PlannedLives(c, boundary, around, i);
        AnythingAfterPlanning(c, Boundaries(boundary, around), planned, cycle, around, i);
      } else {
        NothingLives(c, Boundaries(boundary, around), c, i);
      }
    }
  }

  lemma AnythingAfterPlanning(c: Carrier, step: Step, planned: Carrier, cycle: Cycle, around: Surroundings, i: nat)
    requires Lives(c, step, planned, i)
    ensures Lives(c, step, Shut(planned), i)
    ensures Lives(c, step, Schedule(planned, cycle, around), i)
    ensures Lives(c, step, Schedule(Shut(planned), cycle, around), i)
  {
    LivesTogether(c, step, planned, i);
    hide Lives, Schedule;
    ScheduleKeepsLives(planned, cycle, around, i);
    ScheduleKeepsLives(Shut(planned), cycle, around, i);
    LivesThenSame(c, step, planned, Shut(planned), i);
    LivesThenSame(c, step, planned, Schedule(planned, cycle, around), i);
    LivesThenSame(c, step, Shut(planned), Schedule(Shut(planned), cycle, around), i);
  }

  lemma LivesTogether(c: Carrier, step: Step, d: Carrier, i: nat)
    requires Lives(c, step, d, i)
    ensures |d.cycles| == |d.accounts| && i < |d.cycles|
  {}

  lemma NothingLives(c: Carrier, step: Step, d: Carrier, i: nat)
    requires SameLife(c, d, i) && !IsRetiring(c, step, i) && !IsEnding(c, step, i)
    requires i in c.working ==> c.cycles[i].outcome.None?
    ensures Lives(c, step, d, i)
  {
    hide CycleResult;
  }

  lemma FinishLives(c: Carrier, j: nat, outcome: Outcome, i: nat)
    requires |c.accounts| == |c.cycles| && i < |c.cycles| && (i in c.working ==> c.cycles[i].outcome.None?)
    requires forall k :: k in c.working ==> k < |c.cycles|
    ensures Lives(c, WorkerEnds(j, outcome), Finish(c, j, outcome), i)
  {
    hide CycleResult;
  }

  lemma StepLives(c: Carrier, step: Step, i: nat)
    requires Safe(c) && i < |c.cycles|
    ensures Lives(c, step, Next(c, step), i)
  {
    hide Safe, Lives, Start, Apply, Finish;
    FlightIsSound(c, i);
    match step
    case Boundaries(boundary, around) => BoundaryLives(c, boundary, around, i);
    case WorkerEnds(j, outcome) => FinishLives(c, j, outcome, i);
    case Offered(s, bypassed, around) =>
      StartKeepsLives(c.(situation := Some(s), offered := c.offered + [s]), s, around, i);
      NothingLives(c, step, Next(c, step), i);
    case Drained(around) =>
      if c.mailbox.Some? { StartKeepsLives(c, c.mailbox.value, around, i); }
      NothingLives(c, step, Next(c, step), i);
    case Retried(around) =>
      if c.situation.Some? { StartKeepsLives(c, c.situation.value, around.(waiting := false), i); }
      NothingLives(c, step, Next(c, step), i);
    case Closed => NothingLives(c, step, Next(c, step), i);
  }

  // ---------- how a cycle begins ----------

  /** What a step reads around a start, when it can start a cycle. */
  function Around(step: Step): Option<Surroundings> {
    match step
    case Offered(_, _, around) => Some(around)
    case Boundaries(_, around) => Some(around)
    case Drained(around) => Some(around)
    case Retried(around) => Some(around)
    case _ => None
  }

  /** Cycle `n` has just begun: it has the slot and a worker, the epoch reserved for it, the revision of the held
      situation, and nothing recorded yet. */
  ghost predicate HasBegun(d: Carrier, n: nat, epoch: Option<int>) {
    && |d.cycles| == |d.accounts| == n + 1 && !d.closing
    && d.slot == Some(n) && n in d.working && d.mailbox.None?
    && d.cycles[n].epoch == epoch && d.cycles[n].outcome.None?
    && d.accounts[n].phases == 0 && d.accounts[n].results == []
    && d.situation.Some? && d.cycles[n].situation.revision == d.situation.value.revision
  }

  lemma StartBeginsIff(c: Carrier, s: Situation, around: Surroundings)
    requires |c.accounts| == |c.cycles|
    ensures var d := Start(c, s, around);
      if !c.closing && c.slot.None? && !around.waiting && around.hasEngine then HasBegun(d, |c.cycles|, around.epoch)
      else |d.cycles| == |c.cycles|
  {
    hide Merge;
    if !c.closing { MergeKeepsRevision(Adopt(c, s).situation.value, c.mailbox); }
  }

  /** A boundary that retires the cycle in the slot and goes on to the next one: the planning phase did not
      raise, the cycle was not the bootstrap cycle, or the cycle was out of date; and nobody began closing. */
  predicate HandsOver(c: Carrier, boundary: Boundary) {
    && c.slot.Some? && c.slot.value < |c.cycles|
    && var cycle := c.cycles[c.slot.value];
       && cycle.done && !boundary.closedMeanwhile
       && (IsOutOfDate(c, cycle) || (!boundary.raises && (cycle.epoch.None? || cycle.epoch != boundary.bootstrapEpoch)))
  }

  /** The step asks for a start while no cycle is in flight, or just after one has retired. */
  predicate Asks(c: Carrier, step: Step) {
    match step
    case Offered(_, bypassed, _) => !bypassed && c.slot.None?
    case Drained(_) => c.slot.None? && c.mailbox.Some?
    case Retried(_) => c.slot.None? && c.situation.Some?
    case Boundaries(boundary, _) =>
      && HandsOver(c, boundary)
      && (c.mailbox.Some?
          || (c.situation.Some? && c.situation.value.revision > c.cycles[c.slot.value].situation.revision))
    case _ => false
  }

  /** Exactly when a step begins a cycle: it asks for one, the carrier is open, the engine is there, and it is not
      paused, except that the bootstrap retry ignores a pause. */
  lemma BeginsIff(c: Carrier, step: Step)
    requires Safe(c)
    ensures var d := Next(c, step);
      if !c.closing && Asks(c, step) && Around(step).value.hasEngine && (step.Retried? || !Around(step).value.waiting)
      then HasBegun(d, |c.cycles|, Around(step).value.epoch)
      else |d.cycles| == |c.cycles|
  {
    hide Safe, Start, Apply, HasBegun, HandsOver;
    SlotIsInRange(c);
    match step
    case Boundaries(boundary, around) => BoundaryBeginsIff(c, boundary, around);
    case Offered(s, bypassed, around) =>
      StartBeginsIff(c.(situation := Some(s), offered := c.offered + [s]), s, around);
    case Drained(around) => if c.mailbox.Some? { StartBeginsIff(c, c.mailbox.value, around); }
    case Retried(around) =>
      if c.situation.Some? { StartBeginsIff(c, c.situation.value, around.(waiting := false)); }
    case _ =>
  }

  lemma ScheduleBeginsIff(c: Carrier, completed: Cycle, around: Surroundings)
    requires |c.accounts| == |c.cycles| && c.slot.None?
    ensures var d := Schedule(c, completed, around);
      var more := c.mailbox.Some? || (c.situation.Some? && c.situation.value.revision > completed.situation.revision);
      if !c.closing && more && !around.waiting && around.hasEngine then HasBegun(d, |c.cycles|, around.epoch)
      else |d.cycles| == |c.cycles|
  {
    hide Start, HasBegun;
    var emptied := c.(mailbox := None);
    if c.mailbox.Some? { StartBeginsIff(emptied, c.mailbox.value, around); }
    if c.situation.Some? { StartBeginsIff(emptied, c.situation.value, around); }
  }

  lemma BoundaryBeginsIff(c: Carrier, boundary: Boundary, around: Surroundings)
    requires Safe(c)
    ensures var d, step := Apply(c, boundary, around), Boundaries(boundary, around);
      if !c.closing && Asks(c, step) && around.hasEngine && !around.waiting
      then HasBegun(d, |c.cycles|, around.epoch) else |d.cycles| == |c.cycles|
  {
    hide Safe, Schedule, Planned, HasBegun;
    SlotIsInRange(c);
    if c.slot.Some? {
      ApplyUnfolds(c, boundary, around);
      hide Apply;
      var cycle := c.cycles[c.slot.value];
      if cycle.done {
        var planned := Planned(c, c.slot.value, boundary.hasEngine);
        PlannedIsEmpty(c, boundary.hasEngine);
        ScheduleBeginsIff(planned, cycle, around);
        ScheduleBeginsIff(Shut(planned), cycle, around);
      }
    }
  }

  lemma PlannedIsEmpty(c: Carrier, hasEngine: bool)
    requires |c.accounts| == |c.cycles| && c.slot.Some? && c.slot.value < |c.cycles| && c.cycles[c.slot.value].done
    ensures var planned := Planned(c, c.slot.value, hasEngine);
      && planned.slot.None? && |planned.accounts| == |planned.cycles| == |c.cycles|
      && planned.mailbox == c.mailbox && planned.situation == c.situation && planned.closing == c.closing
  {
    hide CycleResult;
  }

  /** Once closing, always: no cycle begins any more and no mailbox is held. */
  lemma {:induction false} NothingBeginsAfterClosing(steps: seq<Step>, more: seq<Step>)
    requires Run(steps).closing && Run(steps).mailbox.None?
    ensures var c := Run(steps + more);
      c.closing && c.mailbox.None? && |c.cycles| == |Run(steps).cycles|
    decreases |more|
  {
    hide Next, Safe;
    if more == [] {
      assert steps + more == steps;
    } else {
      var n := |more| - 1;
      var all := steps + more;
      assert all[..|all| - 1] == steps + more[..n] && all[|all| - 1] == more[n];
      NothingBeginsAfterClosing(steps, more[..n]);
      BeginsIff(Run(steps + more[..n]), more[n]);
      StaysClosed(Run(steps + more[..n]), more[n]);
    }
  }

  lemma StaysClosed(c: Carrier, step: Step)
    requires Safe(c)
    ensures step.Closed? ==> Next(c, step).closing && Next(c, step).mailbox.None?
    ensures c.closing && c.mailbox.None? ==> Next(c, step).closing && Next(c, step).mailbox.None?
  {
    hide Merge, CycleResult, MailboxIsNewer, SlotIsOk, CycleIsOk;
  }

  /** The situation held after a start was considered: the one offered unless an older revision than the one held. */
  lemma HeldAfterStart(c: Carrier, s: Situation, around: Surroundings)
    ensures var d := Start(c, s, around);
      d.situation == if !c.closing && (c.situation.None? || s.revision >= c.situation.value.revision) then Some(s)
                     else c.situation
  {
    hide Merge;
  }

  /** The mailbox after a start was considered: kept while closing; beside a cycle in flight the held situation joins it
      when it is newer than both; during a pause it always joins; without an engine nothing happens; and a start
      empties it. Joining unites the events. */
  lemma MailAfterStart(c: Carrier, s: Situation, around: Surroundings)
    requires c.slot.Some? ==> c.slot.value < |c.cycles|
    ensures var d := Start(c, s, around);
      if c.closing then d.mailbox == c.mailbox
      else
        var held := d.situation.value;
        if c.slot.Some? then
          if held.revision > c.cycles[c.slot.value].situation.revision && IsNewer(held, c.mailbox)
          then Joins(d.mailbox, held, c.mailbox) else d.mailbox == c.mailbox
        else if around.waiting then Joins(d.mailbox, held, c.mailbox)
        else if !around.hasEngine then d.mailbox == c.mailbox
        else d.mailbox.None? && Joins(Some(d.cycles[|d.cycles| - 1].situation), held, c.mailbox)
  {
    hide Merge;
    HeldAfterStart(c, s, around);
    if !c.closing { MergeIds(Adopt(c, s).situation.value, c.mailbox); }
  }

  ghost predicate Joins(after: Option<Situation>, held: Situation, mailbox: Option<Situation>) {
    && after.Some? && after.value.revision == held.revision && after.value.body == held.body
    && Ids(after.value.events) == Ids(held.events) + if mailbox.Some? then Ids(mailbox.value.events) else {}
  }

  // ---------- over a run ----------

  ghost predicate EndsAt(steps: seq<Step>, k: nat, i: nat, outcome: Outcome) {
    k < |steps| && IsEnding(Run(steps[..k]), steps[k], i) && steps[k].outcome == outcome
  }

  ghost predicate RetiresAt(steps: seq<Step>, k: nat, i: nat) {
    k < |steps| && IsRetiring(Run(steps[..k]), steps[k], i)
  }

  /** What was read when cycle `i` began. */
  ghost function EpochOf(steps: seq<Step>, i: nat): Option<int>
    requires i < |Run(steps).cycles|
  {
    var n := StartOf(steps, i);
    if n == 0 || Around(steps[n - 1]).None? then None else Around(steps[n - 1]).value.epoch
  }

  /** Cycle `i` was closed with `r`: at some boundary it retired, and `r` is the verdict on how its worker ended. */
  ghost predicate ClosesAt(steps: seq<Step>, k: nat, i: nat, epoch: Option<int>, r: CommitResult) {
    && RetiresAt(steps, k, i) && epoch.Some?
    && exists outcome :: WorkerEnded(steps[..k], i, outcome) && IsVerdict(epoch.value, outcome, steps[k].boundary.hasEngine, r)
  }

  ghost predicate WorkerEnded(steps: seq<Step>, i: nat, outcome: Outcome) {
    exists k: nat :: EndsAt(steps, k, i, outcome)
  }

  lemma PrefixOfPrefix(steps: seq<Step>, k: nat)
    requires steps != [] && k < |steps|
    ensures steps[..|steps| - 1][..k] == steps[..k]
    ensures k < |steps| - 1 ==> steps[..|steps| - 1][k] == steps[k]
  {}

  lemma EndsAtLast(steps: seq<Step>, i: nat, outcome: Outcome)
    requires steps != []
    ensures var front := steps[..|steps| - 1];
      WorkerEnded(steps, i, outcome) <==>
        WorkerEnded(front, i, outcome) || (IsEnding(Run(front), steps[|steps| - 1], i) && steps[|steps| - 1].outcome == outcome)
  {
    hide Run;
    var n := |steps| - 1;
    var front := steps[..n];
    PrefixOfPrefix(steps, n);
    if IsEnding(Run(front), steps[n], i) && steps[n].outcome == outcome { assert EndsAt(steps, n, i, outcome); }
    if k: nat :| EndsAt(front, k, i, outcome) {
      PrefixOfPrefix(steps, k);
      assert EndsAt(steps, k, i, outcome);
    }
    if k: nat :| EndsAt(steps, k, i, outcome) {
      PrefixOfPrefix(steps, k);
      assert k < n ==> EndsAt(front, k, i, outcome);
    }
  }

  lemma WorkersBelong(c: Carrier, i: nat)
    requires Safe(c) && i in c.working
    ensures i < |c.cycles|
  {}

  /** The outcome on record is the one the worker ended with. */
  lemma {:induction false} OutcomeIff(steps: seq<Step>, i: nat, outcome: Outcome)
    ensures i < |Run(steps).cycles| && Run(steps).cycles[i].outcome == Some(outcome) <==> WorkerEnded(steps, i, outcome)
  {
    hide Next, Safe;
    if steps == [] {
    } else {
      var n := |steps| - 1;
      var c := Run(steps[..n]);
      OutcomeIff(steps[..n], i, outcome);
      EndsAtLast(steps, i, outcome);
      if i in c.working { WorkersBelong(c, i); }
      if i < |c.cycles| {
        StepLives(c, steps[n], i);
      } else {
        BeginsIff(c, steps[n]);
      }
    }
  }

  lemma EpochStays(steps: seq<Step>, i: nat)
    requires steps != [] && i < |Run(steps[..|steps| - 1]).cycles|
    ensures i < |Run(steps).cycles| && Run(steps).cycles[i].epoch == Run(steps[..|steps| - 1]).cycles[i].epoch
    ensures StartOf(steps, i) == StartOf(steps[..|steps| - 1], i) && EpochOf(steps, i) == EpochOf(steps[..|steps| - 1], i)
  {
    hide Next, Safe;
    StepLives(Run(steps[..|steps| - 1]), steps[|steps| - 1], i);
  }

  /** The epoch of a cycle is the one reserved when it began. */
  lemma {:induction false} EpochIsReserved(steps: seq<Step>, i: nat)
    requires i < |Run(steps).cycles|
    ensures Run(steps).cycles[i].epoch == EpochOf(steps, i)
  {
    hide Next, Safe;
    var n := |steps| - 1;
    if steps != [] && i < |Run(steps[..n]).cycles| {
      EpochIsReserved(steps[..n], i);
      EpochStays(steps, i);
    } else {
      var c := Run(steps[..n]);
      BeginsIff(c, steps[n]);
      assert StartOf(steps, i) == |steps|;
    }
  }

  /** On every run: a result was handed to the coordinator for a cycle if and only if the cycle retired at some
      boundary and the result is the verdict on the epoch it was given and on how its worker had ended. */
  lemma {:induction false} ClosedIff(steps: seq<Step>, i: nat, r: CommitResult)
    requires i < |Run(steps).cycles| == |Run(steps).accounts|
    ensures r in Run(steps).accounts[i].results <==> exists k: nat :: ClosesAt(steps, k, i, EpochOf(steps, i), r)
  {
    hide Next, Safe, EpochOf, ClosesAt;
    var n := |steps| - 1;
    if steps != [] && i < |Run(steps[..n]).cycles| {
      var c := Run(steps[..n]);
      FlightIsSound(c, i);
      ClosedIff(steps[..n], i, r);
      EpochStays(steps, i);
      EpochIsReserved(steps[..n], i);
      ClosesAtLast(steps, i, EpochOf(steps, i), r);
      StepLives(c, steps[n], i);
      RetirementCloses(steps, i, r);
    } else {
      BeginsIff(Run(steps[..n]), steps[n]);
      NothingRetires(steps, i, EpochOf(steps, i), r);
    }
  }

  lemma ClosesAtLast(steps: seq<Step>, i: nat, epoch: Option<int>, r: CommitResult)
    requires steps != []
    ensures var front := steps[..|steps| - 1];
      (exists k: nat :: ClosesAt(steps, k, i, epoch, r)) <==>
        (exists k: nat :: ClosesAt(front, k, i, epoch, r)) || ClosesAt(steps, |steps| - 1, i, epoch, r)
  {
    hide Run, IsRetiring, WorkerEnded, IsVerdict;
    var n := |steps| - 1;
    if k: nat :| ClosesAt(steps[..n], k, i, epoch, r) {
      PrefixOfPrefix(steps, k);
      assert ClosesAt(steps, k, i, epoch, r);
    }
    if k: nat :| ClosesAt(steps, k, i, epoch, r) {
      PrefixOfPrefix(steps, k);
      assert k < n ==> ClosesAt(steps[..n], k, i, epoch, r);
    }
  }

  lemma RetirementCloses(steps: seq<Step>, i: nat, r: CommitResult)
    requires steps != [] && i < |Run(steps[..|steps| - 1]).cycles|
    ensures var n := |steps| - 1;
      var was := Run(steps[..n]).cycles[i];
      ClosesAt(steps, n, i, was.epoch, r) <==>
        && IsRetiring(Run(steps[..n]), steps[n], i) && was.epoch.Some?
        && r == CycleResult(was, steps[n].boundary.hasEngine)
  {
    hide Run, CycleResult, WorkerEnded, IsVerdict;
    var n := |steps| - 1;
    var c := Run(steps[..n]);
    FlightIsSound(c, i);
    var was := c.cycles[i];
    if IsRetiring(c, steps[n], i) && was.epoch.Some? {
      ResultIsVerdict(was, steps[n].boundary.hasEngine, r);
      forall outcome ensures WorkerEnded(steps[..n], i, outcome) <==> was.outcome == Some(outcome) {
        OutcomeIff(steps[..n], i, outcome);
      }
    }
  }

  lemma NothingRetires(steps: seq<Step>, i: nat, epoch: Option<int>, r: CommitResult)
    requires steps != [] && |Run(steps[..|steps| - 1]).cycles| <= i
    ensures forall k: nat :: !ClosesAt(steps, k, i, epoch, r) && !RetiresAt(steps, k, i)
  {
    hide Run, WorkerEnded, IsVerdict;
    forall k: nat | k < |steps| ensures |Run(steps[..k]).cycles| <= i { CyclesStay(steps, k, |steps| - 1); }
  }

  /** On every run an epoch was committed by a result if and only if the worker of its cycle had returned that very
      result before the cycle retired with the engine there. */
  lemma CommittedIff(steps: seq<Step>, i: nat, r: CommitResult)
    requires i < |Run(steps).cycles| == |Run(steps).accounts| && r.status == Committed
    ensures r in Run(steps).accounts[i].results <==>
      && EpochOf(steps, i) == Some(r.epoch)
      && exists k: nat :: RetiresAt(steps, k, i) && steps[k].boundary.hasEngine
                          && WorkerEnded(steps[..k], i, Returned(Some(r)))
  {
    hide Run, EpochOf, WorkerEnded, IsVerdict;
    ClosedIff(steps, i, r);
    VerdictNamesEpoch(r);
    if EpochOf(steps, i) == Some(r.epoch) {
      forall k: nat | RetiresAt(steps, k, i)
        ensures ClosesAt(steps, k, i, EpochOf(steps, i), r) <==>
          steps[k].boundary.hasEngine && WorkerEnded(steps[..k], i, Returned(Some(r)))
      {
        CommitsByName(steps, k, i, r);
      }
    }
  }

  lemma VerdictNamesEpoch(r: CommitResult)
    ensures forall epoch, outcome, hasEngine :: IsVerdict(epoch, outcome, hasEngine, r) ==> epoch == r.epoch
  {}

  lemma CommitsByName(steps: seq<Step>, k: nat, i: nat, r: CommitResult)
    requires RetiresAt(steps, k, i) && r.status == Committed
    ensures ClosesAt(steps, k, i, Some(r.epoch), r) <==>
      steps[k].boundary.hasEngine && WorkerEnded(steps[..k], i, Returned(Some(r)))
  {
    hide Run, WorkerEnded;
    var hasEngine := steps[k].boundary.hasEngine;
    if hasEngine && WorkerEnded(steps[..k], i, Returned(Some(r))) {
      assert Names(r.epoch, Returned(Some(r)), r);
      assert IsVerdict(r.epoch, Returned(Some(r)), hasEngine, r);
    }
    if outcome :| WorkerEnded(steps[..k], i, outcome) && IsVerdict(r.epoch, outcome, hasEngine, r) {
      assert outcome == Returned(Some(r));
    }
  }

  /** The boundary at which the plan of cycle `i` is applied: it retires there and is not out of date. */
  ghost predicate PlansAt(steps: seq<Step>, k: nat, i: nat) {
    RetiresAt(steps, k, i) && !IsOutOfDate(Run(steps[..k]), Run(steps[..k]).cycles[i])
  }

  /** On every run the planning phase of a cycle has run if and only if it retired while not out of date. */
  lemma {:induction false} PlannedIff(steps: seq<Step>, i: nat)
    requires i < |Run(steps).cycles| == |Run(steps).accounts|
    ensures Run(steps).accounts[i].phases > 0 <==> exists k: nat :: PlansAt(steps, k, i)
  {
    hide Next, Safe, PlansAt;
    var n := |steps| - 1;
    if steps != [] && i < |Run(steps[..n]).cycles| {
      var c := Run(steps[..n]);
      FlightIsSound(c, i);
      PlannedIff(steps[..n], i);
      PlansAtLast(steps, i);
      StepLives(c, steps[n], i);
    } else {
      BeginsIff(Run(steps[..n]), steps[n]);
      NothingPlans(steps, i);
    }
  }

  lemma PlansAtLast(steps: seq<Step>, i: nat)
    requires steps != [] && i < |Run(steps[..|steps| - 1]).cycles|
    ensures var n := |steps| - 1;
      var c := Run(steps[..n]);
      && ((exists k: nat :: PlansAt(steps, k, i)) <==>
           (exists k: nat :: PlansAt(steps[..n], k, i)) || PlansAt(steps, n, i))
      && (PlansAt(steps, n, i) <==> IsRetiring(c, steps[n], i) && !IsOutOfDate(c, c.cycles[i]))
  {
    hide Run, IsRetiring, IsOutOfDate;
    var n := |steps| - 1;
    forall k: nat | k < n ensures PlansAt(steps[..n], k, i) <==> PlansAt(steps, k, i) { PrefixOfPrefix(steps, k); }
    assert forall k: nat :: PlansAt(steps, k, i) ==> k < |steps|;
    assert forall k: nat :: PlansAt(steps[..n], k, i) ==> k < n;
  }

  lemma NothingPlans(steps: seq<Step>, i: nat)
    requires steps != [] && |Run(steps[..|steps| - 1]).cycles| <= i
    ensures forall k: nat :: !PlansAt(steps, k, i)
  {
    hide Run;
    NothingRetires(steps, i, None, CommitResult(0, Failed, None));
  }
}

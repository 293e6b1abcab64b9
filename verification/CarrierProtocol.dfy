/** The background carrier: one slot, one mailbox, a physics thread that offers
    situations and applies finished cycles, and a worker that finishes them.

    Each lock-protected stretch is one step on a `Carrier`; `AgentLoop` is the
    imperative form, each method proved to be its step. Whatever the planner, the
    engine and the clock decide is an argument.
  */
module CarrierProtocol {
  import opened Prelude
  import opened PendingEvents

  // ---------- what a cycle ends with ----------

  datatype CommitStatus = Committed | Invalidated | Rejected | Failed

  datatype Category = Semantic | Provider | Internal

  datatype CommitResult = CommitResult(epoch: int, status: CommitStatus, category: Option<Category>)

  /** An exception: from the model port or not, and whether its name or message says "semantic". */
  datatype Failure = Failure(isProvider: bool, isSemantic: bool)

  /** How a worker ends: it raised, or the graph returned, perhaps with an epoch result. */
  datatype Outcome = Raised(failure: Failure) | Returned(reported: Option<CommitResult>)

  datatype Cycle = Cycle(
    situation: Situation,
    epoch: Option<int>,
    planningDone: bool,
    done: bool,
    planningApplied: bool,
    outcome: Option<Outcome>)

  /** The result `_finish_epoch` hands to the coordinator. */
  function ClosingResult(epoch: int, reported: Option<CommitResult>, error: Option<Failure>): CommitResult {
    if reported.Some? && reported.value.epoch == epoch then reported.value
    else if error.Some? && error.value.isSemantic then CommitResult(epoch, Rejected, Some(Semantic))
    else CommitResult(epoch, Failed, Some(if error.Some? && error.value.isProvider then Provider else Internal))
  }

  /** What the planning phase closes the epoch of a cycle with. */
  function CycleResult(cycle: Cycle, hasEngine: bool): CommitResult
    requires cycle.epoch.Some?
  {
    match cycle.outcome
    case Some(Raised(failure)) => ClosingResult(cycle.epoch.value, None, Some(failure))
    case Some(Returned(reported)) => ClosingResult(cycle.epoch.value, if hasEngine then reported else None, None)
    case None => ClosingResult(cycle.epoch.value, None, None)
  }

  // ---------- the state and its steps ----------

  /** What happened to a cycle so far: planning phases run, results handed to the coordinator, and the
      situations offered since the cycle before it. */
  datatype Account = Account(phases: nat, results: seq<CommitResult>, basis: seq<Situation>)

  datatype Carrier = Carrier(
    situation: Option<Situation>,
    mailbox: Option<Situation>,
    cycles: seq<Cycle>,           // every cycle object ever created
    slot: Option<nat>,            // the one in `_background_cycle`
    closing: bool,
    working: set<nat>,            // cycles whose worker thread is alive
    accounts: seq<Account>,
    offered: seq<Situation>)      // offered since the last cycle started

  const IDLE := Carrier(None, None, [], None, false, {}, [], [])

  /** What `_start_background_cycle` reads around itself. */
  datatype Surroundings = Surroundings(waiting: bool, hasEngine: bool, epoch: Option<int>)

  predicate IsNewer(a: Situation, b: Option<Situation>) { b.None? || a.revision > b.value.revision }

  function Adopt(c: Carrier, s: Situation): Carrier {
    if c.situation.None? || s.revision >= c.situation.value.revision then c.(situation := Some(s)) else c
  }

  function Launch(c: Carrier, s: Situation, epoch: Option<int>): Carrier {
    c.(mailbox := None,
       cycles := c.cycles + [Cycle(s, epoch, false, false, false, None)],
       slot := Some(|c.cycles|),
       working := c.working + {|c.cycles|},
       accounts := c.accounts + [Account(0, [], c.offered)],
       offered := [])
  }

  /** `_start_background_cycle`. */
  function Start(c: Carrier, s: Situation, around: Surroundings): Carrier {
    if c.closing then c
    else
      var held := Adopt(c, s);
      var latest := held.situation.value;
      if held.slot.Some? then
        if held.slot.value < |held.cycles| && latest.revision > held.cycles[held.slot.value].situation.revision
          && IsNewer(latest, held.mailbox)
        then held.(mailbox := Some(Merge(latest, held.mailbox)))
        else held
      else if around.waiting then held.(mailbox := Some(Merge(latest, held.mailbox)))
      else if !around.hasEngine then held
      else Launch(held, Merge(latest, held.mailbox), around.epoch)
  }

  /** `_schedule_latest_background_cycle`. */
  function Schedule(c: Carrier, completed: Cycle, around: Surroundings): Carrier {
    var emptied := c.(mailbox := None);
    if c.mailbox.Some? then Start(emptied, c.mailbox.value, around)
    else if c.situation.Some? && c.situation.value.revision > completed.situation.revision then
      Start(emptied, c.situation.value, around)
    else emptied
  }

  /** `on_situation`; the early returns keep the situation but bypass the mailbox. */
  function Offer(c: Carrier, s: Situation, bypassed: bool, around: Surroundings): Carrier {
    var seen := c.(situation := Some(s), offered := c.offered + [s]);
    if bypassed then seen else Start(seen, s, around)
  }

  /** The worker's last act, under the lock. */
  function Finish(c: Carrier, id: nat, outcome: Outcome): Carrier {
    if id in c.working && id < |c.cycles| then
      c.(cycles := c.cycles[id := c.cycles[id].(planningDone := true, done := true, outcome := Some(outcome))],
         working := c.working - {id})
    else c
  }

  /** What the physics boundary meets: the bootstrap epoch on record, whether the engine is there, whether
      applying the plan raises, and whether another thread begins closing before the next cycle starts. */
  datatype Boundary = Boundary(bootstrapEpoch: Option<int>, hasEngine: bool, raises: bool, closedMeanwhile: bool)

  function Shut(c: Carrier): Carrier { c.(closing := true, mailbox := None) }

  /** `_apply_background_planning_phase`: the epoch, if any, is closed before anything can raise. */
  function PlanningPhase(c: Carrier, id: nat, hasEngine: bool): Carrier
    requires id < |c.cycles| && id < |c.accounts|
  {
    var account, cycle := c.accounts[id], c.cycles[id];
    c.(accounts := c.accounts[id := account.(
        phases := account.phases + 1,
        results := account.results + if cycle.epoch.Some? then [CycleResult(cycle, hasEngine)] else [])])
  }

  predicate IsStale(c: Carrier, cycle: Cycle) {
    cycle.epoch.None? && c.situation.Some? && c.situation.value.revision > cycle.situation.revision
  }

  /** The locked part of `apply_background_cycle`: mark the planning phase, empty the slot. */
  function Retire(c: Carrier, id: nat): Carrier
    requires id < |c.cycles|
  {
    var cycle := c.cycles[id];
    var ready := (cycle.planningDone || cycle.done) && !cycle.planningApplied;
    c.(cycles := if ready then c.cycles[id := cycle.(planningApplied := true)] else c.cycles,
       slot := if cycle.done then None else c.slot)
  }

  /** `apply_background_cycle`. */
  function Apply(c: Carrier, boundary: Boundary, around: Surroundings): Carrier
    requires |c.accounts| == |c.cycles|
  {
    if c.slot.None? || c.slot.value >= |c.cycles| then c
    else
      var id := c.slot.value;
      var cycle := c.cycles[id];
      var ready := (cycle.planningDone || cycle.done) && !cycle.planningApplied;
      var retired := Retire(c, id);
      var planned := if ready && !IsStale(c, cycle) then PlanningPhase(retired, id, boundary.hasEngine) else retired;
      if ready && !IsStale(c, cycle) && boundary.raises then planned
      else if !cycle.done then planned
      else Settle(planned, cycle, IsStale(c, cycle), boundary, around)
  }

  /** The rest of it, for a cycle that is done. */
  function Settle(c: Carrier, cycle: Cycle, stale: bool, boundary: Boundary, around: Surroundings): Carrier {
    var settled := if boundary.closedMeanwhile then Shut(c) else c;
    if !stale && cycle.epoch.Some? && cycle.epoch == boundary.bootstrapEpoch then settled
    else Schedule(settled, cycle, around)
  }

  datatype Step =
    | Offered(s: Situation, bypassed: bool, around: Surroundings)
    | WorkerEnds(id: nat, outcome: Outcome)
    | Boundaries(boundary: Boundary, around: Surroundings)
    | Drained(around: Surroundings) // the drain loop restarts a held mailbox
    | Retried(around: Surroundings) // the bootstrap retry ignores a pause
    | Closed

  function Next(c: Carrier, step: Step): Carrier
    requires Safe(c)
  {
    match step
    case Offered(s, bypassed, around) => Offer(c, s, bypassed, around)
    case WorkerEnds(id, outcome) => Finish(c, id, outcome)
    case Boundaries(boundary, around) => Apply(c, boundary, around)
    case Drained(around) => if c.slot.None? && c.mailbox.Some? then Start(c, c.mailbox.value, around) else c
    case Retried(around) =>
      if c.situation.Some? then Start(c, c.situation.value, around.(waiting := false)) else c
    case Closed => Shut(c)
  }

  // ---------- safety of every run ----------

  /** One cycle's life: nothing before it retires; on retiring, its planning phase at most once, and an
      epoch closed by exactly one result. */
  ghost predicate CycleIsOk(cycle: Cycle, account: Account, inFlight: bool) {
    && cycle.planningDone == cycle.done == cycle.outcome.Some?
    && (inFlight ==> !cycle.planningApplied && account.phases == 0 && account.results == [])
    && (!inFlight ==> cycle.done && cycle.planningApplied && account.phases <= 1)
    && (!inFlight && cycle.epoch.Some? ==>
          account.phases == 1 && |account.results| == 1 && exists b :: account.results == [CycleResult(cycle, b)])
    && (cycle.epoch.None? ==> account.results == [])
  }

  ghost predicate CyclesAreOk(c: Carrier) {
    && |c.accounts| == |c.cycles|
    && forall i :: 0 <= i < |c.cycles| ==> CycleIsOk(c.cycles[i], c.accounts[i], c.slot == Some(i))
  }

  /** At most the newest cycle is in flight, and only its worker can be alive. */
  ghost predicate SlotIsOk(c: Carrier) {
    && (c.slot.Some? ==> c.slot.value + 1 == |c.cycles|)
    && c.working == (if c.slot.Some? && !c.cycles[c.slot.value].done then {c.slot.value} else {})
  }

  ghost predicate MailboxIsNewer(c: Carrier) {
    c.slot.Some? && c.slot.value < |c.cycles| && c.mailbox.Some? ==>
      c.mailbox.value.revision > c.cycles[c.slot.value].situation.revision
  }

  ghost predicate Safe(c: Carrier) { CyclesAreOk(c) && SlotIsOk(c) && MailboxIsNewer(c) }

  lemma StartIsSafe(c: Carrier, s: Situation, around: Surroundings)
    requires Safe(c)
    ensures Safe(Start(c, s, around))
  {
    hide CycleIsOk, Merge;
    var held := Adopt(c, s);
    var latest := held.situation.value;
    MergeKeepsRevision(latest, held.mailbox);
    if !c.closing && c.slot.None? && !around.waiting && around.hasEngine {
      var merged := Merge(latest, held.mailbox);
      NewCycleIsOk(merged, around.epoch, held.offered);
      var after := Launch(held, merged, around.epoch);
      forall i | 0 <= i < |after.cycles| ensures CycleIsOk(after.cycles[i], after.accounts[i], after.slot == Some(i)) {
        if i < |c.cycles| {
          assert CycleIsOk(c.cycles[i], c.accounts[i], c.slot == Some(i));
        }
      }
    }
  }

  lemma NewCycleIsOk(s: Situation, epoch: Option<int>, basis: seq<Situation>)
    ensures CycleIsOk(Cycle(s, epoch, false, false, false, None), Account(0, [], basis), true)
  {}

  lemma MergeKeepsRevision(latest: Situation, earlier: Option<Situation>)
    ensures Merge(latest, earlier).revision == latest.revision && Merge(latest, earlier).body == latest.body
  {}

  lemma ScheduleIsSafe(c: Carrier, completed: Cycle, around: Surroundings)
    requires Safe(c)
    ensures Safe(Schedule(c, completed, around))
  {
    hide Start;
    var emptied := c.(mailbox := None);
    assert Safe(emptied);
    if c.mailbox.Some? {
      StartIsSafe(emptied, c.mailbox.value, around);
    } else if c.situation.Some? {
      StartIsSafe(emptied, c.situation.value, around);
    }
  }

  lemma FinishIsSafe(c: Carrier, id: nat, outcome: Outcome)
    requires Safe(c)
    ensures Safe(Finish(c, id, outcome))
  {
    hide CycleResult;
    var after := Finish(c, id, outcome);
    forall i | 0 <= i < |after.cycles| ensures CycleIsOk(after.cycles[i], after.accounts[i], after.slot == Some(i)) {
      assert CycleIsOk(c.cycles[i], c.accounts[i], c.slot == Some(i));
    }
  }

  /** Emptying the slot of a finished cycle, with its planning phase when it is not stale. */
  lemma RetireIsSafe(c: Carrier, id: nat, hasEngine: bool)
    requires Safe(c) && c.slot == Some(id) && c.cycles[id].done
    ensures IsStale(c, c.cycles[id]) ==> Safe(Retire(c, id))
    ensures !IsStale(c, c.cycles[id]) ==> Safe(PlanningPhase(Retire(c, id), id, hasEngine))
  {
    hide CycleResult;
    assert CycleIsOk(c.cycles[id], c.accounts[id], true);
    var cycle := c.cycles[id].(planningApplied := true);
    RetiredResultIsSame(c.cycles[id], hasEngine);
    var stale := IsStale(c, c.cycles[id]);
    var after := if stale then Retire(c, id) else PlanningPhase(Retire(c, id), id, hasEngine);
    assert after.cycles == c.cycles[id := cycle] && after.slot == None;
    assert CycleIsOk(cycle, after.accounts[id], false);
    forall i | 0 <= i < |after.cycles| ensures CycleIsOk(after.cycles[i], after.accounts[i], after.slot == Some(i)) {
      if i != id { assert CycleIsOk(c.cycles[i], c.accounts[i], c.slot == Some(i)); }
    }
  }

  lemma RetiredResultIsSame(cycle: Cycle, hasEngine: bool)
    ensures cycle.epoch.Some? ==> CycleResult(cycle, hasEngine) == CycleResult(cycle.(planningApplied := true), hasEngine)
  {}

  lemma ShutIsSafe(c: Carrier)
    requires Safe(c)
    ensures Safe(Shut(c))
  {
    hide CycleIsOk;
    forall i | 0 <= i < |c.cycles| ensures CycleIsOk(c.cycles[i], c.accounts[i], Shut(c).slot == Some(i)) {
      assert CycleIsOk(c.cycles[i], c.accounts[i], c.slot == Some(i));
    }
  }

  lemma ApplyIsSafe(c: Carrier, boundary: Boundary, around: Surroundings)
    requires Safe(c)
    ensures Safe(Apply(c, boundary, around))
  {
    hide Schedule, PlanningPhase, Shut;
    if c.slot.Some? {
      var id := c.slot.value;
      var cycle := c.cycles[id];
      assert CycleIsOk(cycle, c.accounts[id], true);
      if cycle.done {
        RetireIsSafe(c, id, boundary.hasEngine);
        var planned := if IsStale(c, cycle) then Retire(c, id) else PlanningPhase(Retire(c, id), id, boundary.hasEngine);
        ShutIsSafe(planned);
        ScheduleIsSafe(planned, cycle, around);
        ScheduleIsSafe(Shut(planned), cycle, around);
      } else {
        assert Retire(c, id) == c;
      }
    }
  }

  lemma StepIsSafe(c: Carrier, step: Step)
    requires Safe(c)
    ensures Safe(Next(c, step))
  {
    hide Start, Apply, Finish, CycleIsOk;
    match step
    case Offered(s, bypassed, around) =>
      var seen := c.(situation := Some(s), offered := c.offered + [s]);
      assert Safe(seen);
      StartIsSafe(seen, s, around);
    case WorkerEnds(id, outcome) => FinishIsSafe(c, id, outcome);
    case Boundaries(boundary, around) => ApplyIsSafe(c, boundary, around);
    case Drained(around) => if c.mailbox.Some? { StartIsSafe(c, c.mailbox.value, around); }
    case Retried(around) =>
      if c.situation.Some? { StartIsSafe(c, c.situation.value, around.(waiting := false)); }
    case Closed => ShutIsSafe(c);
  }

  /** The state after any interleaving of steps; it is always safe. */
  ghost function Run(steps: seq<Step>): (c: Carrier)
    ensures Safe(c)
  {
    if steps == [] then IDLE
    else
      var before, last := Run(steps[..|steps| - 1]), steps[|steps| - 1];
      hide Next, Safe;
      StepIsSafe(before, last);
      Next(before, last)
  }

  /** In every reachable state at most one cycle, the newest, has not retired, and no other worker is
      alive; a mailbox held beside it is strictly newer. */
  lemma OneCycleInFlight(steps: seq<Step>)
    ensures var c := Run(steps);
      && (forall i :: 0 <= i < |c.cycles| && !c.cycles[i].planningApplied ==> c.slot == Some(i) && i + 1 == |c.cycles|)
      && (forall i :: i in c.working ==> c.slot == Some(i))
      && (c.slot.Some? && c.slot.value < |c.cycles| && c.mailbox.Some? ==>
            c.mailbox.value.revision > c.cycles[c.slot.value].situation.revision)
  {
    var c := Run(steps);
    forall i | 0 <= i < |c.cycles| && !c.cycles[i].planningApplied ensures c.slot == Some(i) && i + 1 == |c.cycles| {
      assert CycleIsOk(c.cycles[i], c.accounts[i], c.slot == Some(i));
    }
  }

  /** In every reachable state each cycle's planning phase has run at most once; a cycle with an epoch has
      closed it no time while in the slot and exactly once after; and "committed" is only ever said of a
      cycle whose planner returned, without raising, a committed result for that very epoch. */
  lemma EpochsAreClosedOnce(steps: seq<Step>, i: nat)
    requires i < |Run(steps).cycles|
    ensures var c := Run(steps);
      var cycle, account := c.cycles[i], c.accounts[i];
      && account.phases <= 1
      && |account.results| == (if cycle.epoch.Some? && c.slot != Some(i) then 1 else 0)
      && forall r :: r in account.results ==>
          && r.epoch == cycle.epoch.value
          && (r.status == Committed ==> cycle.outcome == Some(Returned(Some(r))))
  {
    hide SlotIsOk, MailboxIsNewer, CycleIsOk;
    var c := Run(steps);
    assert CycleIsOk(c.cycles[i], c.accounts[i], c.slot == Some(i));
    ClosedOnce(c.cycles[i], c.accounts[i], c.slot == Some(i));
  }

  lemma ClosedOnce(cycle: Cycle, account: Account, inFlight: bool)
    requires CycleIsOk(cycle, account, inFlight)
    ensures account.phases <= 1
    ensures |account.results| == if cycle.epoch.Some? && !inFlight then 1 else 0
    ensures forall r :: r in account.results ==>
      && r.epoch == cycle.epoch.value
      && (r.status == Committed ==> cycle.outcome == Some(Returned(Some(r))))
  {}

  // ---------- when a drain makes progress ----------

  /** What one turn of the drain loop meets. */
  datatype Turn = Turn(boundary: Boundary, around: Surroundings)

  /** One turn of `drain_background_cycle` while a mailbox is held beside an empty slot: the loop then goes
      round again without looking at its deadline. */
  ghost function DrainTurn(c: Carrier, turn: Turn): Carrier
    requires Safe(c)
  {
    hide Next, Safe;
    StepIsSafe(c, Boundaries(turn.boundary, turn.around));
    Next(Next(c, Boundaries(turn.boundary, turn.around)), Drained(turn.around))
  }

  ghost function DrainLoop(c: Carrier, turns: seq<Turn>): (d: Carrier)
    requires Safe(c)
    ensures Safe(d)
  {
    if turns == [] then c
    else
      var before, last := DrainLoop(c, turns[..|turns| - 1]), turns[|turns| - 1];
      hide Next, Safe;
      StepIsSafe(before, Boundaries(last.boundary, last.around));
      StepIsSafe(Next(before, Boundaries(last.boundary, last.around)), Drained(last.around));
      DrainTurn(before, last)
  }

  predicate IsHeldUp(c: Carrier) { c.slot.None? && c.mailbox.Some? }

  predicate IsRunning(c: Carrier) {
    c.slot.Some? && c.slot.value < |c.cycles| && !c.cycles[c.slot.value].done && c.mailbox.None?
  }

  predicate CanStart(around: Surroundings) { !around.waiting && around.hasEngine }

  /** A held mailbox is started by the drain if and only if neither a pause nor a missing engine is in the
      way; otherwise slot and mailbox stay as they are. */
  lemma DrainMovesOnIff(c: Carrier, around: Surroundings)
    requires Safe(c) && !c.closing && IsHeldUp(c)
    ensures var after := Next(c, Drained(around));
      && !after.closing
      && if CanStart(around) then IsRunning(after) && after.slot == Some(|c.cycles|) else IsHeldUp(after)
  {
    hide Merge, CyclesAreOk;
  }

  lemma TurnMovesOnIff(c: Carrier, turn: Turn)
    requires Safe(c) && !c.closing && (IsHeldUp(c) || IsRunning(c))
    ensures var d := DrainTurn(c, turn);
      && !d.closing && (IsHeldUp(d) || IsRunning(d))
      && (IsHeldUp(d) <==> IsHeldUp(c) && !CanStart(turn.around))
  {
    hide Safe, Start, Apply;
    NothingToApply(c, turn.boundary, turn.around);
    if IsHeldUp(c) { DrainMovesOnIff(c, turn.around); }
  }

  lemma NothingToApply(c: Carrier, boundary: Boundary, around: Surroundings)
    requires Safe(c) && (c.slot.None? || IsRunning(c))
    ensures |c.accounts| == |c.cycles| && Apply(c, boundary, around) == c
  {
    hide CycleResult;
    if c.slot.Some? {
      assert CycleIsOk(c.cycles[c.slot.value], c.accounts[c.slot.value], true);
      assert Retire(c, c.slot.value) == c;
    }
  }

  /** So the drain loop goes round for ever, past any deadline, if and only if no turn can start a cycle. */
  lemma {:induction false} DrainIsStuckIff(c: Carrier, turns: seq<Turn>)
    requires Safe(c) && !c.closing && IsHeldUp(c)
    ensures var d := DrainLoop(c, turns);
      && !d.closing && (IsHeldUp(d) || IsRunning(d))
      && (IsHeldUp(d) <==> forall k :: 0 <= k < |turns| ==> !CanStart(turns[k].around))
  {
    hide DrainTurn, Safe, IsHeldUp, IsRunning, CanStart;
    if turns != [] {
      DrainIsStuckIff(c, turns[..|turns| - 1]);
      TurnMovesOnIff(DrainLoop(c, turns[..|turns| - 1]), turns[|turns| - 1]);
    }
  }

  // ---------- the imperative form ----------

  lemma SlotIsInRange(c: Carrier)
    requires Safe(c)
    ensures |c.accounts| == |c.cycles| && (c.slot.Some? ==> c.slot.value < |c.cycles|)
  {}

  /** `_AgentLoop`, as far as the carrier goes. The cycle objects are kept in `cycles`; the slot and the
      worker refer to them by position, as the source does by reference. */
  class AgentLoop {
    var situation: Option<Situation>
    var mailbox: Option<Situation>
    var cycles: seq<Cycle>
    var slot: Option<nat>
    var closing: bool
    ghost var working: set<nat>
    ghost var accounts: seq<Account>
    ghost var offered: seq<Situation>

    ghost function Model(): Carrier
      reads this
    {
      Carrier(situation, mailbox, cycles, slot, closing, working, accounts, offered)
    }

    constructor ()
      ensures Model() == IDLE && Safe(Model())
    {
      situation, mailbox, cycles, slot, closing := None, None, [], None, false;
      working, accounts, offered := {}, [], [];
    }

    /** `on_situation`. */
    method OnSituation(s: Situation, bypassed: bool, around: Surroundings)
      requires Safe(Model())
      modifies this
      ensures Model() == Offer(old(Model()), s, bypassed, around) && Safe(Model())
    {
      hide Safe, Start;
      StepIsSafe(Model(), Offered(s, bypassed, around));
      SlotIsInRange(Model());
      situation := Some(s);
      offered := offered + [s];
      if bypassed {
        return;
      }
      StartBackgroundCycle(s, around);
    }

    /** `_start_background_cycle`. */
    method StartBackgroundCycle(s: Situation, around: Surroundings)
      requires slot.Some? ==> slot.value < |cycles|
      modifies this
      ensures Model() == Start(old(Model()), s, around)
      ensures Safe(old(Model())) ==> Safe(Model())
    {
      hide Merge, Safe;
      if Safe(Model()) { StartIsSafe(Model(), s, around); }
      if closing {
        return;
      }
      if situation.None? || s.revision >= situation.value.revision {
        situation := Some(s);
      }
      var latest := situation.value;
      if slot.Some? {
        var active := cycles[slot.value].situation;
        if latest.revision > active.revision
          && (mailbox.None? || latest.revision > mailbox.value.revision)
        {
          mailbox := Some(Merge(latest, mailbox));
        }
        return;
      }
      if around.waiting {
        mailbox := Some(Merge(latest, mailbox));
        return;
      }
      if !around.hasEngine {
        return;
      }
      var cycleSituation := Merge(latest, mailbox);
      mailbox := None;
      slot := Some(|cycles|);
      working := working + {|cycles|};
      cycles := cycles + [Cycle(cycleSituation, around.epoch, false, false, false, None)];
      accounts := accounts + [Account(0, [], offered)];
      offered := [];
    }

    /** The end of `_run_background_cycle`, on the worker of the cycle in the slot. */
    method FinishCycle(id: nat, outcome: Outcome)
      requires Safe(Model()) && id in working && id < |cycles|
      modifies this
      ensures Model() == Finish(old(Model()), id, outcome) && Safe(Model())
    {
      hide Safe;
      FinishIsSafe(Model(), id, outcome);
      cycles := cycles[id := cycles[id].(planningDone := true, done := true, outcome := Some(outcome))];
      working := working - {id};
    }

    /** `_finish_epoch`. */
    method FinishEpoch(id: nat, reported: Option<CommitResult>, error: Option<Failure>)
      requires id < |cycles| == |accounts|
      modifies this`accounts
      ensures cycles[id].epoch.None? ==> accounts == old(accounts)
      ensures cycles[id].epoch.Some? ==> accounts == old(accounts)[id := old(accounts)[id].(
        results := old(accounts)[id].results + [ClosingResult(cycles[id].epoch.value, reported, error)])]
      ensures cycles[id].epoch.Some? && reported.Some? && reported.value.epoch == cycles[id].epoch.value ==>
        accounts[id].results == old(accounts)[id].results + [reported.value]
    {
      var epoch := cycles[id].epoch;
      if epoch.None? {
        return;
      }
      var result: CommitResult;
      if reported.Some? && reported.value.epoch == epoch.value {
        result := reported.value;
      } else if error.Some? && error.value.isSemantic {
        result := CommitResult(epoch.value, Rejected, Some(Semantic));
      } else {
        var category := if error.Some? && error.value.isProvider then Provider else Internal;
        result := CommitResult(epoch.value, Failed, Some(category));
      }
      accounts := accounts[id := accounts[id].(results := accounts[id].results + [result])];
    }

    /** `_apply_background_planning_phase`, up to where the plan is applied. */
    method ApplyPlanningPhase(id: nat, hasEngine: bool)
      requires id < |cycles| == |accounts|
      modifies this`accounts
      ensures Model() == PlanningPhase(old(Model()), id, hasEngine)
    {
      var cycle := cycles[id];
      accounts := accounts[id := accounts[id].(phases := accounts[id].phases + 1)];
      match cycle.outcome {
        case Some(Raised(failure)) => FinishEpoch(id, None, Some(failure));
        case Some(Returned(reported)) =>
          if !hasEngine {
            FinishEpoch(id, None, None);
          } else {
            FinishEpoch(id, reported, None);
          }
        case None => FinishEpoch(id, None, None);
      }
      assert accounts[id].results
          == old(accounts)[id].results + if cycle.epoch.Some? then [CycleResult(cycle, hasEngine)] else [];
    }

    /** `_schedule_latest_background_cycle`. */
    method ScheduleLatest(completed: Cycle, around: Surroundings)
      requires slot.None?
      modifies this
      ensures Model() == Schedule(old(Model()), completed, around)
    {
      hide Start;
      var next := mailbox;
      mailbox := None;
      if next.None? && situation.Some? && situation.value.revision > completed.situation.revision {
        next := situation;
      }
      if next.Some? {
        StartBackgroundCycle(next.value, around);
      }
    }

    /** `apply_background_cycle`; `closedMeanwhile` is another thread taking the lock in between. */
    method ApplyBackgroundCycle(boundary: Boundary, around: Surroundings)
      requires Safe(Model())
      modifies this
      ensures Model() == Apply(old(Model()), boundary, around) && Safe(Model())
    {
      hide Settle, PlanningPhase, Safe;
      ApplyIsSafe(Model(), boundary, around);
      SlotIsInRange(Model());
      if slot.None? {
        return;
      }
      var id := slot.value;
      var cycle := cycles[id];
      var ready := (cycle.planningDone || cycle.done) && !cycle.planningApplied;
      if ready {
        cycles := cycles[id := cycle.(planningApplied := true)];
      }
      if cycle.done {
        slot := None;
      }
      var latest := situation;
      var stale := cycle.epoch.None? && latest.Some? && latest.value.revision > cycle.situation.revision;
      assert stale == IsStale(old(Model()), cycle) && Model() == Retire(old(Model()), id);
      hide IsStale, Retire;
      if ready && !stale {
        ApplyPlanningPhase(id, boundary.hasEngine);
        if boundary.raises {
          return;
        }
      }
      if !cycle.done {
        return;
      }
      SettleBoundary(cycle, stale, boundary, around);
    }

    method SettleBoundary(cycle: Cycle, stale: bool, boundary: Boundary, around: Surroundings)
      requires slot.None?
      modifies this
      ensures Model() == Settle(old(Model()), cycle, stale, boundary, around)
    {
      hide Schedule, Shut, Safe;
      if boundary.closedMeanwhile {
        BeginClosing();
      }
      if stale {
        ScheduleLatest(cycle, around);
        return;
      }
      if cycle.epoch.Some? && cycle.epoch == boundary.bootstrapEpoch {
        return;
      }
      ScheduleLatest(cycle, around);
    }

    /** The first lines of `_close_once`. */
    method BeginClosing()
      modifies this
      ensures Model() == Shut(old(Model())) && slot == old(slot)
      ensures Safe(old(Model())) ==> Safe(Model())
    {
      hide Safe;
      if Safe(Model()) { ShutIsSafe(Model()); }
      closing := true;
      mailbox := None;
    }
  }
}

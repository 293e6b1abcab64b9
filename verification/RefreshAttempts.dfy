/** Attempts to refresh the execution snapshot: what each one records, over every
    run of refresh rounds and of installations outside a round.
  */
module RefreshAttempts {
  import opened Prelude

  /** An attempt id; the source prints it as scenario, a fixed word, and the number. */
  datatype AttemptId = AttemptId(scenario: string, number: nat)

  datatype Kind = Due | Attempted | Committed | Rejected | WaitingForSource | Recovered

  predicate IsTerminal(kind: Kind) { kind != Due && kind != Attempted }

  datatype Status = Idle | IsDue | Generating | Recovering | Waiting | Refused | Done

  datatype Entry = Entry(id: AttemptId, kind: Kind)

  datatype Refresh = Refresh(
    count: nat,
    current: Option<AttemptId>,
    attempted: set<AttemptId>,
    terminal: set<AttemptId>,
    status: Status,
    events: seq<Entry>)

  const UNTRIED := Refresh(0, None, {}, {}, Idle, [])

  // ---------- the steps ----------

  function Resolved(r: Refresh, scenario: string, attempt: Option<AttemptId>): AttemptId {
    if attempt.Some? then attempt.value
    else if r.current.Some? then r.current.value
    else AttemptId(scenario, r.count + 1)
  }

  /** `_emit_execution_refresh_event`: without an id the current attempt is meant, or a new one is made. */
  function Emit(r: Refresh, kind: Kind, scenario: string, status: Status, attempt: Option<AttemptId>): Refresh {
    var id := Resolved(r, scenario, attempt);
    var named := if attempt.None? && r.current.None? then r.(count := r.count + 1, current := Some(id)) else r;
    if (kind == Attempted && id in named.attempted) || (IsTerminal(kind) && id in named.terminal) then named
    else named.(
      attempted := if kind == Attempted then named.attempted + {id} else named.attempted,
      terminal := if IsTerminal(kind) then named.terminal + {id} else named.terminal,
      status := status,
      events := if Entry(id, kind) in named.events then named.events else named.events + [Entry(id, kind)])
  }

  /** `_begin_execution_refresh_attempt`. */
  function Begin(r: Refresh, scenario: string, recovery: bool): Refresh {
    var id := AttemptId(scenario, r.count + 1);
    var named := r.(count := r.count + 1, current := Some(id));
    var due := Emit(named, Due, scenario, IsDue, Some(id));
    Emit(due, Attempted, scenario, if recovery then Recovering else Generating, Some(id))
  }

  /** How an installation goes: the ways out of a source gap, a snapshot not built, or one installed. */
  datatype Path = GapWithoutCurrent | GapExpired | GapFailed | GapRetained | NotBuilt | Installed

  datatype Health = Sound | Expired | Failed

  /** What an installation looks at: whether there is a current snapshot and whether the public source still
      covers it; the plan and the recovery flag; the prediction, the report and the prior of the target; whether
      mission and map are there; and whether building and committing succeed. */
  datatype View = View(
    hasCurrent: bool,
    sourceIsCurrent: bool,
    health: Health,
    hasPlan: bool,
    recovery: bool,
    isPredicted: bool,
    hasReport: bool,
    reportIsFresh: bool,
    hasPrior: bool,
    targetIsCurrent: bool,
    isReady: bool,
    builds: bool)

  /** `retain_current_after_source_gap`. */
  function GapPath(v: View): Path {
    if !v.hasCurrent then GapWithoutCurrent
    else match v.health
      case Expired => GapExpired
      case Failed => GapFailed
      case Sound => GapRetained
  }

  /** The checks of `_ensure_uuv_only_execution_snapshot`, in their order. */
  function PathOf(v: View): Path {
    if v.hasCurrent && !v.sourceIsCurrent then GapPath(v)
    else if v.hasPlan && v.hasCurrent && !v.recovery then (if v.builds then Installed else NotBuilt)
    else if !v.isPredicted then NotBuilt
    else if !v.hasReport && !v.hasPrior then (if v.hasCurrent && v.targetIsCurrent then GapPath(v) else NotBuilt)
    else if !v.isReady then NotBuilt
    else if !(v.hasReport && v.reportIsFresh) && !v.hasPrior then GapPath(v)
    else if v.builds then Installed
    else NotBuilt
  }

  predicate Returns(path: Path) { path == GapRetained || path == Installed }

  /** Whether the gap reports that it waits: always when the source expired or validation failed, and for a
      retained snapshot only inside a refresh round. */
  predicate Waits(path: Path, inRound: bool) { path == GapExpired || path == GapFailed || (path == GapRetained && inRound) }

  /** `_ensure_uuv_only_execution_snapshot`, as far as refresh events go. */
  function Ensure(r: Refresh, scenario: string, path: Path, attempt: Option<AttemptId>): Refresh {
    if Waits(path, attempt.Some?) then Emit(r, WaitingForSource, scenario, Waiting, attempt) else r
  }

  datatype Round = Round(scenario: string, recovery: bool, path: Path, raises: bool)

  /** `_refresh_deterministic_mission`, once a refresh is due. */
  function Attempt(r: Refresh, round: Round): Refresh {
    var id := AttemptId(round.scenario, r.count + 1);
    var tried := Ensure(Begin(r, round.scenario, round.recovery), round.scenario, round.path, Some(id));
    if round.raises then tried else Conclude(tried, round, id)
  }

  /** The end of a round: the event the installation calls for, and no current attempt. */
  function Conclude(tried: Refresh, round: Round, id: AttemptId): Refresh {
    var closed :=
      if Returns(round.path) then
        Emit(tried, if round.recovery then Recovered else Committed, round.scenario,
             if round.recovery then Recovering else Done, Some(id))
      else if tried.status != Waiting && tried.status != Refused then
        Emit(tried, Rejected, round.scenario, Refused, Some(id))
      else tried;
    closed.(current := None)
  }

  /** Refresh rounds, and installations made elsewhere without an attempt id. */
  datatype Step = Rounded(round: Round) | Elsewhere(scenario: string, path: Path)

  function Next(r: Refresh, step: Step): Refresh {
    match step
    case Rounded(round) => Attempt(r, round)
    case Elsewhere(scenario, path) => Ensure(r, scenario, path, None)
  }

  function Run(steps: seq<Step>): Refresh {
    if steps == [] then UNTRIED else Next(Run(steps[..|steps| - 1]), steps[|steps| - 1])
  }

  // ---------- the record ----------

  /** `b` may come after `a`: one attempted and one terminal event per id, the attempted one first. */
  predicate MayFollow(a: Entry, b: Entry) {
    a.id == b.id ==>
      && (b.kind == Attempted ==> a.kind == Due)
      && (IsTerminal(b.kind) ==> !IsTerminal(a.kind))
  }

  ghost predicate InOrder(events: seq<Entry>) {
    forall i, j :: 0 <= i < j < |events| ==> MayFollow(events[i], events[j])
  }

  /** The two sets hold what the events say. */
  ghost predicate IsIndexed(events: seq<Entry>, attempted: set<AttemptId>, terminal: set<AttemptId>, id: AttemptId) {
    && (id in attempted <==> Entry(id, Attempted) in events)
    && (id in terminal <==> HasEnded(events, id))
  }

  ghost predicate HasEnded(events: seq<Entry>, id: AttemptId) {
    exists k :: 0 <= k < |events| && events[k].id == id && IsTerminal(events[k].kind)
  }

  predicate IsIssued(r: Refresh, id: AttemptId) { 1 <= id.number <= r.count }

  ghost predicate WellRecorded(r: Refresh) {
    && InOrder(r.events)
    && (forall id :: IsIndexed(r.events, r.attempted, r.terminal, id))
    && (forall k :: 0 <= k < |r.events| ==> IsIssued(r, r.events[k].id))
    && (r.current.Some? ==> IsIssued(r, r.current.value))
  }

  lemma OneMoreIsIndexed(r: Refresh, e: Entry, id: AttemptId)
    requires IsIndexed(r.events, r.attempted, r.terminal, id)
    ensures IsIndexed(
      r.events + [e],
      if e.kind == Attempted then r.attempted + {e.id} else r.attempted,
      if IsTerminal(e.kind) then r.terminal + {e.id} else r.terminal,
      id)
  {
    hide IsTerminal;
    var events := r.events + [e];
    assert events[|r.events|] == e;
    assert HasEnded(events, id) <==> HasEnded(r.events, id) || (e.id == id && IsTerminal(e.kind)) by {
      if HasEnded(r.events, id) {
        var k :| 0 <= k < |r.events| && r.events[k].id == id && IsTerminal(r.events[k].kind);
        assert events[k].id == id;
      }
    }
  }

  /** What the two sets say about an id that may be told of `kind`. */
  lemma IndexedSets(r: Refresh, id: AttemptId, kind: Kind)
    requires IsIndexed(r.events, r.attempted, r.terminal, id)
    ensures kind == Attempted && id !in r.attempted ==> Entry(id, kind) !in r.events
    ensures IsTerminal(kind) && id !in r.terminal ==> Entry(id, kind) !in r.events
    ensures id !in r.attempted ==> forall k :: 0 <= k < |r.events| && r.events[k].id == id ==> r.events[k].kind != Attempted
    ensures id !in r.terminal ==> forall k :: 0 <= k < |r.events| && r.events[k].id == id ==> !IsTerminal(r.events[k].kind)
  {}

  /** Emitting keeps the record, for issued ids, and "attempted" only for one not yet terminal. */
  lemma EmitIsRecorded(r: Refresh, kind: Kind, scenario: string, status: Status, attempt: Option<AttemptId>)
    requires WellRecorded(r)
    requires attempt.Some? ==> IsIssued(r, attempt.value)
    requires kind == Attempted ==> attempt.Some? && attempt.value !in r.terminal
    ensures WellRecorded(Emit(r, kind, scenario, status, attempt))
  {
    hide IsIndexed;
    var after := Emit(r, kind, scenario, status, attempt);
    var id := Resolved(r, scenario, attempt);
    IndexedSets(r, id, kind);
    forall other ensures IsIndexed(after.events, after.attempted, after.terminal, other) {
      OneMoreIsIndexed(r, Entry(id, kind), other);
    }
  }

  lemma BeginIsRecorded(r: Refresh, scenario: string, recovery: bool)
    requires WellRecorded(r)
    ensures WellRecorded(Begin(r, scenario, recovery))
  {
    hide Emit, IsIndexed;
    var id := AttemptId(scenario, r.count + 1);
    var named := r.(count := r.count + 1, current := Some(id));
    NewIdIsFresh(r, id);
    EmitIsRecorded(named, Due, scenario, IsDue, Some(id));
    EmitKeepsSets(named, scenario, IsDue, Some(id));
    EmitIsRecorded(Emit(named, Due, scenario, IsDue, Some(id)), Attempted, scenario,
      if recovery then Recovering else Generating, Some(id));
  }

  lemma EmitKeepsSets(r: Refresh, scenario: string, status: Status, attempt: Option<AttemptId>)
    requires attempt.Some?
    ensures var after := Emit(r, Due, scenario, status, attempt);
      after.attempted == r.attempted && after.terminal == r.terminal && after.count == r.count && after.current == r.current
  {}

  /** An id with a number not yet given out is new to the record. */
  lemma NewIdIsFresh(r: Refresh, id: AttemptId)
    requires WellRecorded(r) && id.number > r.count
    ensures id !in r.attempted && id !in r.terminal
    ensures forall k :: 0 <= k < |r.events| ==> r.events[k].id != id
  {
    assert IsIndexed(r.events, r.attempted, r.terminal, id);
  }

  lemma EmitKeepsCount(r: Refresh, kind: Kind, scenario: string, status: Status, attempt: Option<AttemptId>)
    requires attempt.Some?
    ensures Emit(r, kind, scenario, status, attempt).count == r.count
    ensures Emit(r, kind, scenario, status, attempt).current == r.current
  {}

  lemma StepIsRecorded(r: Refresh, step: Step)
    requires WellRecorded(r)
    ensures WellRecorded(Next(r, step))
  {
    hide Emit, IsIndexed, InOrder;
    match step
    case Elsewhere(scenario, path) => EmitIsRecorded(r, WaitingForSource, scenario, Waiting, None);
    case Rounded(round) =>
      var id := AttemptId(round.scenario, r.count + 1);
      var begun := Begin(r, round.scenario, round.recovery);
      BeginIsRecorded(r, round.scenario, round.recovery);
      BeginIssues(r, round.scenario, round.recovery);
      EmitIsRecorded(begun, WaitingForSource, round.scenario, Waiting, Some(id));
      EmitKeepsCount(begun, WaitingForSource, round.scenario, Waiting, Some(id));
      var tried := Ensure(begun, round.scenario, round.path, Some(id));
      EmitIsRecorded(tried, Recovered, round.scenario, Recovering, Some(id));
      EmitIsRecorded(tried, Committed, round.scenario, Done, Some(id));
      EmitIsRecorded(tried, Rejected, round.scenario, Refused, Some(id));
  }

  lemma BeginIssues(r: Refresh, scenario: string, recovery: bool)
    ensures Begin(r, scenario, recovery).count == r.count + 1
    ensures Begin(r, scenario, recovery).current == Some(AttemptId(scenario, r.count + 1))
  {}

  /** On every run, each id records at most one attempted and at most one terminal event, and the
      attempted one is never after the terminal one. */
  lemma {:induction false} RunIsRecorded(steps: seq<Step>)
    ensures WellRecorded(Run(steps))
  {
    hide Next;
    if steps != [] {
      RunIsRecorded(steps[..|steps| - 1]);
      StepIsRecorded(Run(steps[..|steps| - 1]), steps[|steps| - 1]);
    }
  }

  /** The terminal event of a round that returns. */
  function Ending(round: Round): (kind: Kind)
    ensures IsTerminal(kind)
  {
    if Waits(round.path, true) then WaitingForSource
    else if !Returns(round.path) then Rejected
    else if round.recovery then Recovered
    else Committed
  }

  lemma BeginRecords(r: Refresh, scenario: string, recovery: bool)
    requires forall k :: 0 <= k < |r.events| ==> r.events[k].id.number <= r.count
    requires AttemptId(scenario, r.count + 1) !in r.attempted
    ensures var id, begun := AttemptId(scenario, r.count + 1), Begin(r, scenario, recovery);
      && begun.events == r.events + [Entry(id, Due), Entry(id, Attempted)]
      && begun.terminal == r.terminal && (begun.status == Generating || begun.status == Recovering)
  {
    var id := AttemptId(scenario, r.count + 1);
    assert Entry(id, Due) !in r.events && Entry(id, Attempted) !in r.events;
  }

  /** Ending an attempt that has begun. */
  lemma EndRecords(begun: Refresh, round: Round, id: AttemptId)
    requires id !in begun.terminal && (begun.status == Generating || begun.status == Recovering)
    requires Entry(id, Ending(round)) !in begun.events
    ensures var tried := Ensure(begun, round.scenario, round.path, Some(id));
      && tried.events == begun.events + (if Waits(round.path, true) then [Entry(id, Ending(round))] else [])
      && Conclude(tried, round, id).events == begun.events + [Entry(id, Ending(round))]
  {}

  lemma FreshRoundRecords(r: Refresh, round: Round, id: AttemptId)
    requires id == AttemptId(round.scenario, r.count + 1) && id !in r.attempted && id !in r.terminal
    requires forall k :: 0 <= k < |r.events| ==> r.events[k].id != id && r.events[k].id.number <= r.count
    ensures var after, tail := Attempt(r, round), [Entry(id, Due), Entry(id, Attempted)];
      && (!round.raises ==> after.current.None? && after.events == r.events + tail + [Entry(id, Ending(round))])
      && (round.raises && Waits(round.path, true) ==> after.events == r.events + tail + [Entry(id, Ending(round))])
      && (round.raises && !Waits(round.path, true) ==> after.events == r.events + tail)
  {
    hide Emit, Begin, Ensure, Conclude, Ending, Waits;
    BeginRecords(r, round.scenario, round.recovery);
    var begun := Begin(r, round.scenario, round.recovery);
    NotYetEnded(r.events, begun.events, id, Ending(round));
    EndRecords(begun, round, id);
    var tried := Ensure(begun, round.scenario, round.path, Some(id));
    ConcludeClears(tried, round, id);
    assert Attempt(r, round) == if round.raises then tried else Conclude(tried, round, id);
  }

  /** After any run a round uses an id never seen before, and records exactly: due, attempted, and when it
      returns one terminal event. A gap that retains the snapshot ends as waiting: the commit event the
      round still emits is suppressed. When the round raises, only a gap already reported closes it. */
  lemma RoundRecords(steps: seq<Step>, round: Round)
    ensures var r := Run(steps);
      var id, after, tail := AttemptId(round.scenario, r.count + 1), Attempt(r, round),
        [Entry(AttemptId(round.scenario, r.count + 1), Due), Entry(AttemptId(round.scenario, r.count + 1), Attempted)];
      && (forall k :: 0 <= k < |r.events| ==> r.events[k].id != id)
      && (!round.raises ==> after.current.None? && after.events == r.events + tail + [Entry(id, Ending(round))])
      && (round.raises && Waits(round.path, true) ==> after.events == r.events + tail + [Entry(id, Ending(round))])
      && (round.raises && !Waits(round.path, true) ==> after.events == r.events + tail)
  {
    hide Attempt, Ending, Waits, Run;
    RunIsRecorded(steps);
    var id := AttemptId(round.scenario, Run(steps).count + 1);
    NewIdIsFresh(Run(steps), id);
    FreshRoundRecords(Run(steps), round, id);
  }

  lemma NotYetEnded(before: seq<Entry>, events: seq<Entry>, id: AttemptId, kind: Kind)
    requires events == before + [Entry(id, Due), Entry(id, Attempted)] && IsTerminal(kind)
    requires forall k :: 0 <= k < |before| ==> before[k].id != id
    ensures Entry(id, kind) !in events
  {}

  lemma ConcludeClears(tried: Refresh, round: Round, id: AttemptId)
    ensures Conclude(tried, round, id).current.None?
  {}

  // ---------- the imperative form ----------

  /** The refresh fields of `_AgentLoop` and its event store. */
  class ExecutionRefresh {
    var count: nat
    var current: Option<AttemptId>
    var attempted: set<AttemptId>
    var terminal: set<AttemptId>
    var status: Status
    var events: seq<Entry>

    ghost function Model(): Refresh
      reads this
    {
      Refresh(count, current, attempted, terminal, status, events)
    }

    constructor ()
      ensures Model() == UNTRIED && WellRecorded(Model())
    {
      count, current, attempted, terminal, status, events := 0, None, {}, {}, Idle, [];
    }

    /** `_emit_execution_refresh_event`. */
    method EmitEvent(kind: Kind, scenario: string, newStatus: Status, attempt: Option<AttemptId>)
      modifies this
      ensures Model() == Emit(old(Model()), kind, scenario, newStatus, attempt)
    {
      var resolved := if attempt.Some? then attempt else current;
      if resolved.None? {
        count := count + 1;
        resolved := Some(AttemptId(scenario, count));
        current := resolved;
      }
      var id := resolved.value;
      if kind == Attempted {
        if id in attempted {
          return;
        }
        attempted := attempted + {id};
      }
      if IsTerminal(kind) {
        if id in terminal {
          return;
        }
        terminal := terminal + {id};
      }
      status := newStatus;
      if Entry(id, kind) !in events {
        events := events + [Entry(id, kind)];
      }
    }

    /** `_begin_execution_refresh_attempt`. */
    method BeginAttempt(scenario: string, recovery: bool) returns (id: AttemptId)
      modifies this
      ensures id == AttemptId(scenario, old(count) + 1)
      ensures Model() == Begin(old(Model()), scenario, recovery)
    {
      hide Emit;
      count := count + 1;
      id := AttemptId(scenario, count);
      current := Some(id);
      EmitEvent(Due, scenario, IsDue, Some(id));
      EmitEvent(Attempted, scenario, if recovery then Recovering else Generating, Some(id));
    }

    /** `retain_current_after_source_gap`. */
    method RetainAfterGap(scenario: string, view: View, attempt: Option<AttemptId>) returns (installed: bool)
      requires WellRecorded(Model()) && (attempt.Some? ==> IsIssued(Model(), attempt.value))
      modifies this
      ensures installed == Returns(GapPath(view))
      ensures Model() == Ensure(old(Model()), scenario, GapPath(view), attempt) && WellRecorded(Model())
      ensures attempt.Some? ==> count == old(count) && current == old(current)
    {
      hide Emit, WellRecorded;
      EmitIsRecorded(Model(), WaitingForSource, scenario, Waiting, attempt);
      if attempt.Some? { EmitKeepsCount(Model(), WaitingForSource, scenario, Waiting, attempt); }
      if !view.hasCurrent {
        return false;
      }
      if view.health == Expired {
        EmitEvent(WaitingForSource, scenario, Waiting, attempt);
        return false;
      }
      if view.health == Failed {
        EmitEvent(WaitingForSource, scenario, Waiting, attempt);
        return false;
      }
      if attempt.Some? {
        EmitEvent(WaitingForSource, scenario, Waiting, attempt);
      }
      return true;
    }

    /** `_ensure_uuv_only_execution_snapshot`, as far as refresh events go. */
    method EnsureSnapshot(scenario: string, view: View, attempt: Option<AttemptId>) returns (installed: bool)
      requires WellRecorded(Model()) && (attempt.Some? ==> IsIssued(Model(), attempt.value))
      modifies this
      ensures installed == Returns(PathOf(view))
      ensures Model() == Ensure(old(Model()), scenario, PathOf(view), attempt) && WellRecorded(Model())
      ensures attempt.Some? ==> count == old(count) && current == old(current)
    {
      hide Emit, WellRecorded, GapPath;
      if view.hasPlan && view.hasCurrent && !view.recovery {
        if !view.sourceIsCurrent {
          installed := RetainAfterGap(scenario, view, attempt);
          return;
        }
        return view.builds;
      }
      if view.hasCurrent && !view.sourceIsCurrent {
        installed := RetainAfterGap(scenario, view, attempt);
        return;
      }
      if !view.isPredicted {
        return false;
      }
      if !view.hasReport && !view.hasPrior {
        if view.hasCurrent && view.targetIsCurrent {
          installed := RetainAfterGap(scenario, view, attempt);
          return;
        }
        return false;
      }
      if !view.isReady {
        return false;
      }
      if !(view.hasReport && view.reportIsFresh) && !view.hasPrior {
        installed := RetainAfterGap(scenario, view, attempt);
        return;
      }
      return view.builds;
    }

    /** `_refresh_deterministic_mission`, once a refresh is due. */
    method RefreshMission(scenario: string, view: View, raises: bool)
      requires WellRecorded(Model())
      modifies this
      ensures Model() == Attempt(old(Model()), Round(scenario, view.recovery, PathOf(view), raises))
      ensures WellRecorded(Model())
    {
      hide Emit, Begin, Ensure, PathOf, WellRecorded;
      StepIsRecorded(Model(), Rounded(Round(scenario, view.recovery, PathOf(view), raises)));
      BeginIsRecorded(Model(), scenario, view.recovery);
      BeginIssues(Model(), scenario, view.recovery);
      var id := BeginAttempt(scenario, view.recovery);
      var installed := EnsureSnapshot(scenario, view, Some(id));
      if raises {
        return;
      }
      if installed {
        EmitEvent(if view.recovery then Recovered else Committed, scenario,
          if view.recovery then Recovering else Done, Some(id));
      } else if status != Waiting && status != Refused {
        EmitEvent(Rejected, scenario, Refused, Some(id));
      }
      current := None;
    }
  }
}

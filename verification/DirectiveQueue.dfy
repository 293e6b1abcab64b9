/** The bounded operator-directive table: previews and applies run on worker
    threads, the API calls are serialised. Every lock-protected section is one step.
  */
module DirectiveQueue {
  import opened Prelude

  datatype Status = Queued | Processing | Preview | NeedsClarification | Applying | Applied | Rejected | Failed

  predicate IsTerminal(s: Status) { s in {Preview, Applied, Rejected, Failed} }

  datatype Job = Job(id: string, expectedPlanVersion: int, status: Status, hasDirective: bool)

  /** Which executor tasks exist, and every apply dispatched so far with the plan version it read. */
  datatype Queue = Queue(
    jobs: seq<Job>,
    closed: bool,
    toPreview: set<string>,
    previewing: set<string>,
    toApply: set<string>,
    used: set<string>,
    dispatched: seq<string>)

  const EMPTY := Queue([], false, {}, {}, {}, {}, [])

  datatype Step =
    | Submit(id: string, expectedPlanVersion: int)
    | StartPreview(id: string)
    | FinishPreview(id: string, result: Status)
    | Apply(id: string, currentPlanVersion: int)
    | FinishApply(id: string, result: Status)
    | Close(withdrawn: set<string>) // tasks no worker has taken from the executor yet

  // ---------- the table as a list in insertion order ----------

  function Find(jobs: seq<Job>, id: string): (r: Option<nat>)
    ensures r.Some? ==> r.value < |jobs| && jobs[r.value].id == id
    ensures r.None? ==> forall i :: 0 <= i < |jobs| ==> jobs[i].id != id
  {
    if jobs == [] then None
    else if jobs[|jobs| - 1].id == id then Some(|jobs| - 1)
    else Find(jobs[..|jobs| - 1], id)
  }

  /** Position of the oldest terminal job. */
  function FirstTerminal(jobs: seq<Job>, k: nat): (r: Option<nat>)
    requires k <= |jobs|
    ensures r.Some? ==> k <= r.value < |jobs| && IsTerminal(jobs[r.value].status)
    ensures r.Some? ==> forall i :: k <= i < r.value ==> !IsTerminal(jobs[i].status)
    ensures r.None? ==> forall i :: k <= i < |jobs| ==> !IsTerminal(jobs[i].status)
    decreases |jobs| - k
  {
    if k == |jobs| then None
    else if IsTerminal(jobs[k].status) then Some(k)
    else FirstTerminal(jobs, k + 1)
  }

  function Remove(jobs: seq<Job>, i: nat): seq<Job>
    requires i < |jobs|
  {
    jobs[..i] + jobs[i + 1..]
  }

  /** The table after making room, or nothing when it is full of jobs that cannot be evicted. */
  function Reserved(jobs: seq<Job>, maxJobs: nat): Option<seq<Job>>
    decreases |jobs|
  {
    if |jobs| < maxJobs then Some(jobs)
    else
      var evicted := FirstTerminal(jobs, 0);
      if evicted.None? then None else Reserved(Remove(jobs, evicted.value), maxJobs)
  }

  function WithStatus(jobs: seq<Job>, id: string, status: Status, directive: bool): seq<Job> {
    var at := Find(jobs, id);
    if at.None? then jobs
    else jobs[at.value := jobs[at.value].(status := status, hasDirective := jobs[at.value].hasDirective || directive)]
  }

  predicate CanDispatch(q: Queue, id: string, currentPlanVersion: int) {
    && !q.closed
    && var at := Find(q.jobs, id);
       && at.Some?
       && q.jobs[at.value].hasDirective
       && q.jobs[at.value].status == Preview
       && q.jobs[at.value].expectedPlanVersion == currentPlanVersion
  }

  /** A failed preview or apply is reported as Failed, without a directive. */
  function Next(maxJobs: nat, q: Queue, step: Step): Queue {
    match step
    case Submit(id, version) =>
      if q.closed || id in q.used then q
      else
        var room := Reserved(q.jobs, maxJobs);
        if room.None? then q
        else q.(jobs := room.value + [Job(id, version, Queued, false)],
                toPreview := q.toPreview + {id}, used := q.used + {id})
    case StartPreview(id) =>
      if id !in q.toPreview then q
      else if Find(q.jobs, id).None? then q.(toPreview := q.toPreview - {id})
      else q.(toPreview := q.toPreview - {id}, previewing := q.previewing + {id},
              jobs := WithStatus(q.jobs, id, Processing, false))
    case FinishPreview(id, result) =>
      if id !in q.previewing then q
      else q.(previewing := q.previewing - {id}, jobs := WithStatus(q.jobs, id, result, result != Failed))
    case Apply(id, current) =>
      if !CanDispatch(q, id, current) then q
      else q.(jobs := WithStatus(q.jobs, id, Applying, false), toApply := q.toApply + {id},
              dispatched := q.dispatched + [id])
    case FinishApply(id, result) =>
      if id !in q.toApply then q
      else q.(toApply := q.toApply - {id}, jobs := WithStatus(q.jobs, id, result, result != Failed))
    case Close(withdrawn) =>
      q.(closed := true, toPreview := q.toPreview - withdrawn, toApply := q.toApply - withdrawn)
  }

  /** What the runtime returns: a preview has a preview status, an apply never hands back a preview. */
  predicate IsRealistic(step: Step) {
    && (step.FinishPreview? ==> step.result in {Preview, Rejected, NeedsClarification, Failed})
    && (step.FinishApply? ==> step.result in {Applied, Rejected, NeedsClarification, Failed})
  }

  function Run(maxJobs: nat, steps: seq<Step>): Queue {
    if steps == [] then EMPTY else Next(maxJobs, Run(maxJobs, steps[..|steps| - 1]), steps[|steps| - 1])
  }

  // ---------- the invariant ----------

  ghost predicate HasStatus(jobs: seq<Job>, id: string, status: Status) {
    exists i :: 0 <= i < |jobs| && jobs[i].id == id && jobs[i].status == status
  }

  ghost predicate DistinctIds(jobs: seq<Job>) { forall i, j :: 0 <= i < j < |jobs| ==> jobs[i].id != jobs[j].id }

  ghost predicate QueueOk(maxJobs: nat, q: Queue) {
    && |q.jobs| <= maxJobs
    && DistinctIds(q.jobs)
    && (forall i :: 0 <= i < |q.jobs| ==> q.jobs[i].id in q.used)
    && (forall id :: id in q.toPreview ==> HasStatus(q.jobs, id, Queued))
    && (forall id :: id in q.previewing ==> HasStatus(q.jobs, id, Processing))
    && (forall id :: id in q.toApply ==> HasStatus(q.jobs, id, Applying))
    && Distinct(q.dispatched)
    && (forall id :: id in q.dispatched ==> id in q.used)
    && (forall i :: 0 <= i < |q.jobs| && q.jobs[i].status in {Queued, Processing, Preview} ==> q.jobs[i].id !in q.dispatched)
  }

  lemma FindIsUnique(jobs: seq<Job>, i: nat)
    requires i < |jobs| && DistinctIds(jobs)
    ensures Find(jobs, jobs[i].id) == Some(i)
  {}

  /** `rest` is `jobs` without some of its terminal jobs. */
  ghost predicate KeepsLiveJobs(jobs: seq<Job>, rest: seq<Job>) {
    && DistinctIds(rest)
    && (forall i :: 0 <= i < |rest| ==> rest[i] in jobs)
    && forall id, status :: HasStatus(jobs, id, status) && !IsTerminal(status) ==> HasStatus(rest, id, status)
  }

  lemma RemoveKeepsLiveJobs(jobs: seq<Job>, e: nat)
    requires e < |jobs| && IsTerminal(jobs[e].status) && DistinctIds(jobs)
    ensures KeepsLiveJobs(jobs, Remove(jobs, e)) && |Remove(jobs, e)| == |jobs| - 1
  {
    var rest := Remove(jobs, e);
    assert forall i :: 0 <= i < |rest| ==> rest[i] == jobs[if i < e then i else i + 1];
    hide Remove;
    forall id, status | HasStatus(jobs, id, status) && !IsTerminal(status) ensures HasStatus(rest, id, status) {
      LiveJobStays(jobs, e, rest, id, status);
    }
  }

  lemma LiveJobStays(jobs: seq<Job>, e: nat, rest: seq<Job>, id: string, status: Status)
    requires e < |jobs| && |rest| == |jobs| - 1 && IsTerminal(jobs[e].status)
    requires forall i :: 0 <= i < |rest| ==> rest[i] == jobs[if i < e then i else i + 1]
    requires HasStatus(jobs, id, status) && !IsTerminal(status)
    ensures HasStatus(rest, id, status)
  {
    var i :| 0 <= i < |jobs| && jobs[i].id == id && jobs[i].status == status;
    var k := if i < e then i else i - 1;
    assert i != e;
    assert rest[k] == jobs[i];
  }

  /** Making room: at most one eviction, never of a queued, processing or applying job; refused
      exactly when the table is full of jobs that are not terminal. */
  lemma ReservedKeepsLiveJobs(jobs: seq<Job>, maxJobs: nat)
    requires 1 <= maxJobs && |jobs| <= maxJobs && DistinctIds(jobs)
    ensures var room := Reserved(jobs, maxJobs);
      && (room.None? <==> |jobs| == maxJobs && forall i :: 0 <= i < |jobs| ==> !IsTerminal(jobs[i].status))
      && (room.Some? ==> |room.value| < maxJobs && |room.value| + 1 >= |jobs| && KeepsLiveJobs(jobs, room.value))
  {
    hide IsTerminal, HasStatus, DistinctIds, Remove, KeepsLiveJobs;
    if |jobs| == maxJobs {
      var evicted := FirstTerminal(jobs, 0);
      if evicted.Some? { RemoveKeepsLiveJobs(jobs, evicted.value); }
    } else {
      NothingRemoved(jobs);
    }
  }

  lemma NothingRemoved(jobs: seq<Job>)
    requires DistinctIds(jobs)
    ensures KeepsLiveJobs(jobs, jobs)
  {}

  lemma WithStatusChangesOne(jobs: seq<Job>, id: string, status: Status, directive: bool)
    requires DistinctIds(jobs)
    ensures var after := WithStatus(jobs, id, status, directive);
      && |after| == |jobs| && DistinctIds(after)
      && (forall i :: 0 <= i < |jobs| ==> after[i].id == jobs[i].id)
      && (forall i :: 0 <= i < |jobs| && jobs[i].id != id ==> after[i] == jobs[i])
      && (forall i :: 0 <= i < |jobs| && jobs[i].id == id ==> after[i].status == status)
      && (forall other, st :: other != id && HasStatus(jobs, other, st) ==> HasStatus(after, other, st))
      && (Find(jobs, id).Some? ==> HasStatus(after, id, status))
  {
    var after := WithStatus(jobs, id, status, directive);
    forall other, st | other != id && HasStatus(jobs, other, st) ensures HasStatus(after, other, st) {
      var i :| 0 <= i < |jobs| && jobs[i].id == other && jobs[i].status == st;
      assert after[i] == jobs[i];
    }
    if Find(jobs, id).Some? { assert after[Find(jobs, id).value].id == id; }
  }

  lemma StatusIsUnique(jobs: seq<Job>, id: string, a: Status, b: Status)
    requires DistinctIds(jobs) && HasStatus(jobs, id, a) && HasStatus(jobs, id, b)
    ensures a == b && Find(jobs, id).Some?
  {}

  lemma SubmitKeepsOk(maxJobs: nat, q: Queue, id: string, version: int)
    requires maxJobs >= 1 && QueueOk(maxJobs, q)
    ensures QueueOk(maxJobs, Next(maxJobs, q, Submit(id, version)))
  {
    ReservedKeepsLiveJobs(q.jobs, maxJobs);
    var reserved := Reserved(q.jobs, maxJobs);
    if !q.closed && id !in q.used && reserved.Some? {
      var room := reserved.value;
      assert forall i :: 0 <= i < |room| ==> room[i] in q.jobs;
      AddJob(room, Job(id, version, Queued, false));
      assert !IsTerminal(Queued) && !IsTerminal(Processing) && !IsTerminal(Applying);
      hide Reserved, HasStatus, IsTerminal, DistinctIds;
    }
  }

  lemma AddJob(room: seq<Job>, job: Job)
    requires DistinctIds(room) && forall i :: 0 <= i < |room| ==> room[i].id != job.id
    ensures DistinctIds(room + [job]) && HasStatus(room + [job], job.id, job.status)
    ensures forall id, st :: HasStatus(room, id, st) ==> HasStatus(room + [job], id, st)
  {
    var more := room + [job];
    assert more[|room|] == job;
    forall id, st | HasStatus(room, id, st) ensures HasStatus(more, id, st) {
      var i :| 0 <= i < |room| && room[i].id == id && room[i].status == st;
      assert more[i] == room[i];
    }
  }

  lemma WorkerStepKeepsOk(maxJobs: nat, q: Queue, step: Step)
    requires QueueOk(maxJobs, q) && IsRealistic(step) && !step.Submit?
    ensures QueueOk(maxJobs, Next(maxJobs, q, step))
  {
    hide *;
    match step
    case StartPreview(id) => StartPreviewKeepsOk(maxJobs, q, id);
    case FinishPreview(id, result) => FinishPreviewKeepsOk(maxJobs, q, id, result);
    case Apply(id, current) => ApplyKeepsOk(maxJobs, q, id, current);
    case FinishApply(id, result) => FinishApplyKeepsOk(maxJobs, q, id, result);
    case Close(withdrawn) => CloseKeepsOk(maxJobs, q, withdrawn);
  }

  /** What a status change leaves of the invariant, whatever the task sets become. */
  lemma OneJobChanges(maxJobs: nat, q: Queue, id: string, from: Status, status: Status, directive: bool)
    requires QueueOk(maxJobs, q) && HasStatus(q.jobs, id, from)
    ensures var jobs := WithStatus(q.jobs, id, status, directive);
      && |jobs| == |q.jobs| && DistinctIds(jobs) && HasStatus(jobs, id, status)
      && (forall i :: 0 <= i < |jobs| ==> jobs[i].id == q.jobs[i].id)
      && (forall i :: 0 <= i < |jobs| && jobs[i].id != id ==> jobs[i] == q.jobs[i])
      && (forall i :: 0 <= i < |jobs| && jobs[i].id == id ==> jobs[i].status == status)
      && (forall other, st :: other != id && HasStatus(q.jobs, other, st) ==> HasStatus(jobs, other, st))
    ensures forall st :: HasStatus(q.jobs, id, st) <==> st == from
    ensures id in q.used && Find(q.jobs, id).Some?
    ensures from in {Queued, Processing, Preview} ==> id !in q.dispatched
  {
    hide WithStatus;
    NotYetDispatched(maxJobs, q, id);
    forall st | HasStatus(q.jobs, id, st) ensures st == from && Find(q.jobs, id).Some? {
      StatusIsUnique(q.jobs, id, st, from);
    }
    hide HasStatus, QueueOk;
    assert DistinctIds(q.jobs);
    WithStatusChangesOne(q.jobs, id, status, directive);
  }

  lemma StartPreviewKeepsOk(maxJobs: nat, q: Queue, id: string)
    requires QueueOk(maxJobs, q)
    ensures QueueOk(maxJobs, Next(maxJobs, q, StartPreview(id)))
  {
    hide HasStatus, DistinctIds, WithStatus;
    if id in q.toPreview { OneJobChanges(maxJobs, q, id, Queued, Processing, false); }
  }

  lemma FinishPreviewKeepsOk(maxJobs: nat, q: Queue, id: string, result: Status)
    requires QueueOk(maxJobs, q) && IsRealistic(FinishPreview(id, result))
    ensures QueueOk(maxJobs, Next(maxJobs, q, FinishPreview(id, result)))
  {
    hide HasStatus, DistinctIds, WithStatus;
    if id in q.previewing { OneJobChanges(maxJobs, q, id, Processing, result, result != Failed); }
  }

  lemma ApplyKeepsOk(maxJobs: nat, q: Queue, id: string, current: int)
    requires QueueOk(maxJobs, q)
    ensures QueueOk(maxJobs, Next(maxJobs, q, Apply(id, current)))
  {
    hide HasStatus, DistinctIds, WithStatus;
    if CanDispatch(q, id, current) {
      HasStatusAt(q.jobs, Find(q.jobs, id).value);
      OneJobChanges(maxJobs, q, id, Preview, Applying, false);
    }
  }

  lemma FinishApplyKeepsOk(maxJobs: nat, q: Queue, id: string, result: Status)
    requires QueueOk(maxJobs, q) && IsRealistic(FinishApply(id, result))
    ensures QueueOk(maxJobs, Next(maxJobs, q, FinishApply(id, result)))
  {
    hide HasStatus, DistinctIds, WithStatus;
    if id in q.toApply { OneJobChanges(maxJobs, q, id, Applying, result, result != Failed); }
  }

  lemma CloseKeepsOk(maxJobs: nat, q: Queue, withdrawn: set<string>)
    requires QueueOk(maxJobs, q)
    ensures QueueOk(maxJobs, Next(maxJobs, q, Close(withdrawn)))
  {
    hide HasStatus, DistinctIds;
  }

  lemma NotYetDispatched(maxJobs: nat, q: Queue, id: string)
    requires QueueOk(maxJobs, q)
    ensures (exists st :: st in {Queued, Processing, Preview} && HasStatus(q.jobs, id, st)) ==> id !in q.dispatched
    ensures (exists st :: HasStatus(q.jobs, id, st)) ==> id in q.used
  {}

  lemma HasStatusAt(jobs: seq<Job>, i: nat)
    requires i < |jobs|
    ensures HasStatus(jobs, jobs[i].id, jobs[i].status)
  {}

  /** After any interleaving: the table is within its bound, tasks always find their job in the right
      status, and no job has been dispatched for apply twice. */
  lemma {:induction false} RunIsOk(maxJobs: nat, steps: seq<Step>)
    requires maxJobs >= 1 && forall s :: s in steps ==> IsRealistic(s)
    ensures QueueOk(maxJobs, Run(maxJobs, steps))
  {
    if steps != [] {
      var n := |steps| - 1;
      RunIsOk(maxJobs, steps[..n]);
      assert steps[n] in steps;
      match steps[n]
      case Submit(id, version) => SubmitKeepsOk(maxJobs, Run(maxJobs, steps[..n]), id, version);
      case _ => WorkerStepKeepsOk(maxJobs, Run(maxJobs, steps[..n]), steps[n]);
    }
  }

  /** A worker that finishes an apply always finds its job, still applying. */
  lemma ApplyFindsItsJob(maxJobs: nat, steps: seq<Step>, id: string)
    requires maxJobs >= 1 && forall s :: s in steps ==> IsRealistic(s)
    requires id in Run(maxJobs, steps).toApply
    ensures var jobs := Run(maxJobs, steps).jobs;
      Find(jobs, id).Some? && jobs[Find(jobs, id).value].status == Applying
  {
    RunIsOk(maxJobs, steps);
    var jobs := Run(maxJobs, steps).jobs;
    assert HasStatus(jobs, id, Applying);
    var i :| 0 <= i < |jobs| && jobs[i].id == id && jobs[i].status == Applying;
    FindIsUnique(jobs, i);
  }

  /** The table holds a job in preview, with a directive, at a plan version. */
  ghost predicate IsPreviewed(q: Queue, id: string, version: int) {
    exists i :: 0 <= i < |q.jobs| && q.jobs[i] == Job(id, version, Preview, true)
  }

  /** Step `k` applies the job while the queue is open and holds it in preview at the plan version read. */
  ghost predicate AppliesAt(maxJobs: nat, steps: seq<Step>, k: nat, id: string) {
    && k < |steps| && steps[k].Apply? && steps[k].id == id
    && !Run(maxJobs, steps[..k]).closed
    && IsPreviewed(Run(maxJobs, steps[..k]), id, steps[k].currentPlanVersion)
  }

  lemma CanDispatchIff(q: Queue, id: string, version: int)
    requires DistinctIds(q.jobs)
    ensures CanDispatch(q, id, version) <==> !q.closed && IsPreviewed(q, id, version)
  {
    if i :| 0 <= i < |q.jobs| && q.jobs[i] == Job(id, version, Preview, true) { FindIsUnique(q.jobs, i); }
    if CanDispatch(q, id, version) { assert q.jobs[Find(q.jobs, id).value] == Job(id, version, Preview, true); }
  }

  lemma OneStepDispatches(maxJobs: nat, q: Queue, step: Step, id: string)
    requires QueueOk(maxJobs, q)
    ensures var applies := step.Apply? && step.id == id && !q.closed && IsPreviewed(q, id, step.currentPlanVersion);
      && (id in Next(maxJobs, q, step).dispatched <==> id in q.dispatched || applies)
      && (applies ==> id !in q.dispatched)
  {
    hide HasStatus, WithStatus, Reserved;
    if step.Apply? && step.id == id {
      CanDispatchIff(q, id, step.currentPlanVersion);
    }
  }

  lemma AppliesAtPrefix(maxJobs: nat, steps: seq<Step>, n: nat, k: nat, id: string)
    requires k < n <= |steps|
    ensures AppliesAt(maxJobs, steps[..n], k, id) <==> AppliesAt(maxJobs, steps, k, id)
  {
    hide Run, IsPreviewed;
    assert steps[..n][..k] == steps[..k] && steps[..n][k] == steps[k];
  }

  lemma AppliesAtBounds(maxJobs: nat, steps: seq<Step>, id: string)
    ensures forall k: nat :: AppliesAt(maxJobs, steps, k, id) ==> k < |steps|
  {}

  /** On every run a job has been dispatched if and only if some step of the run applied it from preview at
      the plan version then read, and there is never a second such step. */
  lemma {:induction false} DispatchedIffApplied(maxJobs: nat, steps: seq<Step>, id: string)
    requires maxJobs >= 1 && forall s :: s in steps ==> IsRealistic(s)
    ensures id in Run(maxJobs, steps).dispatched <==> exists k: nat :: AppliesAt(maxJobs, steps, k, id)
    ensures forall j: nat, k: nat :: AppliesAt(maxJobs, steps, j, id) && AppliesAt(maxJobs, steps, k, id) ==> j == k
  {
    hide Next, QueueOk, IsPreviewed, IsRealistic;
    if steps == [] {
    } else {
      var n := |steps| - 1;
      forall s | s in steps[..n] ensures IsRealistic(s) { assert s in steps; }
      DispatchedIffApplied(maxJobs, steps[..n], id);
      RunIsOk(maxJobs, steps[..n]);
      OneStepDispatches(maxJobs, Run(maxJobs, steps[..n]), steps[n], id);
      hide Run;
      forall k: nat | k < n ensures AppliesAt(maxJobs, steps[..n], k, id) <==> AppliesAt(maxJobs, steps, k, id) {
        AppliesAtPrefix(maxJobs, steps, n, k, id);
      }
      AppliesAtBounds(maxJobs, steps, id);
      AppliesAtBounds(maxJobs, steps[..n], id);
      LastStepApplies(maxJobs, steps, id);
      hide AppliesAt;
    }
  }

  lemma LastStepApplies(maxJobs: nat, steps: seq<Step>, id: string)
    requires steps != []
    ensures var n := |steps| - 1;
      var q := Run(maxJobs, steps[..n]);
      && Run(maxJobs, steps) == Next(maxJobs, q, steps[n])
      && (AppliesAt(maxJobs, steps, n, id) <==>
            steps[n].Apply? && steps[n].id == id && !q.closed && IsPreviewed(q, id, steps[n].currentPlanVersion))
  {
    hide Next, IsPreviewed;
  }

  /** A submit is refused exactly when the queue is closed, the id is taken, or the table is full of
      jobs that are not terminal. */
  lemma SubmitIsRefusedIff(maxJobs: nat, q: Queue, id: string, version: int)
    requires maxJobs >= 1 && QueueOk(maxJobs, q)
    ensures Next(maxJobs, q, Submit(id, version)) == q <==>
      || q.closed || id in q.used
      || (|q.jobs| == maxJobs && forall i :: 0 <= i < |q.jobs| ==> !IsTerminal(q.jobs[i].status))
  {
    ReservedKeepsLiveJobs(q.jobs, maxJobs);
    if !q.closed && id !in q.used && Reserved(q.jobs, maxJobs).Some? {
      assert id in Next(maxJobs, q, Submit(id, version)).used;
    }
  }

  /** A job whose preview needs clarification is never evicted and never changes again: its slot is
      lost for the rest of the run. */
  lemma {:induction false} ClarificationKeepsItsSlot(maxJobs: nat, steps: seq<Step>, more: seq<Step>, id: string)
    requires maxJobs >= 1 && forall s :: s in steps + more ==> IsRealistic(s)
    requires HasStatus(Run(maxJobs, steps).jobs, id, NeedsClarification)
    ensures HasStatus(Run(maxJobs, steps + more).jobs, id, NeedsClarification)
    decreases |more|
  {
    if more == [] {
      assert steps + more == steps;
    } else {
      var n := |more| - 1;
      var all := steps + more[..n];
      assert (steps + more)[..|steps| + n] == all;
      forall s | s in all ensures s in steps + more {
        assert s in (steps + more)[..|steps| + n];
      }
      ClarificationKeepsItsSlot(maxJobs, steps, more[..n], id);
      RunIsOk(maxJobs, all);
      var q := Run(maxJobs, all);
      StepKeepsClarification(maxJobs, q, more[n], id);
    }
  }

  lemma ChangedJobIsNotWaiting(maxJobs: nat, q: Queue, step: Step)
    requires QueueOk(maxJobs, q) && !step.Submit? && !step.Close? && Next(maxJobs, q, step).jobs != q.jobs
    ensures !HasStatus(q.jobs, step.id, NeedsClarification)
  {
    var status := match step
      case StartPreview(_) => Queued
      case FinishPreview(_, _) => Processing
      case FinishApply(_, _) => Applying
      case _ => Preview;
    if step.Apply? { HasStatusAt(q.jobs, Find(q.jobs, step.id).value); }
    assert HasStatus(q.jobs, step.id, status);
    hide HasStatus;
    forall other | HasStatus(q.jobs, step.id, other) ensures other == status {
      StatusIsUnique(q.jobs, step.id, other, status);
    }
  }

  lemma StepKeepsClarification(maxJobs: nat, q: Queue, step: Step, id: string)
    requires maxJobs >= 1 && QueueOk(maxJobs, q)
    requires HasStatus(q.jobs, id, NeedsClarification)
    ensures HasStatus(Next(maxJobs, q, step).jobs, id, NeedsClarification)
  {
    var after := Next(maxJobs, q, step);
    if step.Submit? {
      ReservedKeepsLiveJobs(q.jobs, maxJobs);
      if after != q {
        var room := Reserved(q.jobs, maxJobs).value;
        var i :| 0 <= i < |room| && room[i].id == id && room[i].status == NeedsClarification;
        assert after.jobs[i] == room[i];
      }
    } else if !step.Close? && after.jobs != q.jobs {
      ChangedJobIsNotWaiting(maxJobs, q, step);
      hide QueueOk;
      forall status, directive { WithStatusChangesOne(q.jobs, step.id, status, directive); }
    }
  }

  /** Setting the status of a job that a worker is busy with touches that job alone. */
  lemma OneResultIsFiled(maxJobs: nat, q: Queue, id: string, status: Status, directive: bool)
    requires QueueOk(maxJobs, q) && (id in q.previewing || id in q.toApply)
    ensures var jobs := WithStatus(q.jobs, id, status, directive);
      && |jobs| == |q.jobs| && (exists i :: 0 <= i < |jobs| && jobs[i].id == id)
      && forall i :: 0 <= i < |jobs| ==>
           jobs[i] == if q.jobs[i].id != id then q.jobs[i]
                      else q.jobs[i].(status := status, hasDirective := q.jobs[i].hasDirective || directive)
  {
    var i :| 0 <= i < |q.jobs| && q.jobs[i].id == id;
    FindIsUnique(q.jobs, i);
    assert WithStatus(q.jobs, id, status, directive)[i].id == id;
  }

  // ---------- the queue as an object ----------

  class RuntimeDirectiveQueue {
    const maxJobs: nat
    var jobs: seq<Job>
    var closed: bool
    var toPreview: set<string>
    var previewing: set<string>
    var toApply: set<string>
    ghost var used: set<string>
    ghost var dispatched: seq<string>

    ghost function Model(): Queue
      reads this
    {
      Queue(jobs, closed, toPreview, previewing, toApply, used, dispatched)
    }

    constructor (maxJobs: nat)
      requires maxJobs >= 1
      ensures Model() == EMPTY && this.maxJobs == maxJobs
    {
      this.maxJobs := maxJobs;
      jobs, closed, toPreview, previewing, toApply := [], false, {}, {}, {};
      used, dispatched := {}, [];
    }

    /** `submit` and `submit_assignment`, with `_reserve_job_locked`; the id is freshly drawn. */
    method SubmitJob(id: string, expectedPlanVersion: int) returns (accepted: bool)
      requires maxJobs >= 1 && QueueOk(maxJobs, Model()) && id !in used
      modifies this
      ensures Model() == Next(maxJobs, old(Model()), Submit(id, expectedPlanVersion)) && QueueOk(maxJobs, Model())
      ensures accepted <==> Model() != old(Model())
    {
      hide Find, WithStatus;
      SubmitKeepsOk(maxJobs, Model(), id, expectedPlanVersion);
      if closed { return false; }
      while |jobs| >= maxJobs
        invariant |jobs| <= maxJobs && Reserved(jobs, maxJobs) == Reserved(old(jobs), maxJobs)
        invariant |jobs| == maxJobs ==> jobs == old(jobs)
        invariant Model() == old(Model()).(jobs := jobs)
      {
        var evicted := FirstTerminal(jobs, 0);
        if evicted.None? { return false; }
        jobs := Remove(jobs, evicted.value);
      }
      jobs := jobs + [Job(id, expectedPlanVersion, Queued, false)];
      toPreview := toPreview + {id};
      used := used + {id};
      accepted := true;
    }

    /** The locked sections of `_run_preview`: a missing job ends the task. */
    method BeginPreview(id: string)
      requires QueueOk(maxJobs, Model()) && id in toPreview
      modifies this
      ensures Model() == Next(maxJobs, old(Model()), StartPreview(id)) && QueueOk(maxJobs, Model())
    {
      hide QueueOk;
      WorkerStepKeepsOk(maxJobs, Model(), StartPreview(id));
      toPreview := toPreview - {id};
      if Find(jobs, id).None? { return; }
      previewing := previewing + {id};
      SetStatus(id, Processing, false);
    }

    method EndPreview(id: string, result: Status)
      requires QueueOk(maxJobs, Model()) && id in previewing && IsRealistic(FinishPreview(id, result))
      modifies this
      ensures Model() == Next(maxJobs, old(Model()), FinishPreview(id, result)) && QueueOk(maxJobs, Model())
      ensures |jobs| == |old(jobs)| && (exists i :: 0 <= i < |jobs| && jobs[i].id == id)
      ensures forall i :: 0 <= i < |jobs| ==>
        jobs[i] == if old(jobs)[i].id != id then old(jobs)[i]
                   else old(jobs)[i].(status := result, hasDirective := old(jobs)[i].hasDirective || result != Failed)
    {
      OneResultIsFiled(maxJobs, Model(), id, result, result != Failed);
      hide QueueOk;
      WorkerStepKeepsOk(maxJobs, Model(), FinishPreview(id, result));
      previewing := previewing - {id};
      SetStatus(id, result, result != Failed);
    }

    method SetStatus(id: string, status: Status, directive: bool)
      modifies this`jobs
      ensures jobs == WithStatus(old(jobs), id, status, directive)
    {
      var at := Find(jobs, id);
      if at.Some? {
        var job := jobs[at.value];
        jobs := jobs[at.value := job.(status := status, hasDirective := job.hasDirective || directive)];
      }
    }

    /** `apply`: the status is checked under the first lock, the plan version outside, and the job is
        marked under the second. */
    method ApplyJob(id: string, currentPlanVersion: int) returns (accepted: bool)
      requires QueueOk(maxJobs, Model())
      modifies this
      ensures Model() == Next(maxJobs, old(Model()), Apply(id, currentPlanVersion)) && QueueOk(maxJobs, Model())
      ensures accepted <==> !old(closed) && IsPreviewed(old(Model()), id, currentPlanVersion)
    {
      CanDispatchIff(Model(), id, currentPlanVersion);
      WorkerStepKeepsOk(maxJobs, Model(), Apply(id, currentPlanVersion));
      hide QueueOk, IsPreviewed;
      if closed { return false; }
      var at := Find(jobs, id);
      if at.None? || !jobs[at.value].hasDirective { return false; }
      if jobs[at.value].status != Preview { return false; }
      var expected := jobs[at.value].expectedPlanVersion;
      if currentPlanVersion != expected { return false; }
      SetStatus(id, Applying, false);
      toApply := toApply + {id};
      dispatched := dispatched + [id];
      accepted := true;
    }

    /** `_run_apply` after the runtime has answered. */
    method EndApply(id: string, result: Status)
      requires QueueOk(maxJobs, Model()) && id in toApply && IsRealistic(FinishApply(id, result))
      modifies this
      ensures Model() == Next(maxJobs, old(Model()), FinishApply(id, result)) && QueueOk(maxJobs, Model())
      ensures |jobs| == |old(jobs)| && (exists i :: 0 <= i < |jobs| && jobs[i].id == id)
      ensures forall i :: 0 <= i < |jobs| ==>
        jobs[i] == if old(jobs)[i].id != id then old(jobs)[i]
                   else old(jobs)[i].(status := result, hasDirective := old(jobs)[i].hasDirective || result != Failed)
    {
      OneResultIsFiled(maxJobs, Model(), id, result, result != Failed);
      hide QueueOk;
      WorkerStepKeepsOk(maxJobs, Model(), FinishApply(id, result));
      toApply := toApply - {id};
      SetStatus(id, result, result != Failed);
    }

    /** `close` and `abort`: the executor drops what no worker has taken, previews and applies alike. */
    method Shutdown(withdrawn: set<string>)
      requires QueueOk(maxJobs, Model())
      modifies this
      ensures Model() == Next(maxJobs, old(Model()), Close(withdrawn)) && QueueOk(maxJobs, Model())
    {
      hide QueueOk;
      WorkerStepKeepsOk(maxJobs, Model(), Close(withdrawn));
      closed := true;
      toPreview := toPreview - withdrawn;
      toApply := toApply - withdrawn;
    }
  }
}

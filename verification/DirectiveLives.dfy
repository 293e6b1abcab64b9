/** The life of one directive, told by the steps that concern it: what the table and the
    executor hold of it is exactly what the last of those steps left.
  */
module DirectiveLives {
  import opened Prelude
  import opened DirectiveQueue

  // ---------- one submit, on the table ----------

  /** A submit gets in: the queue is open, the id is new, and there is room or a job to evict. */
  predicate Accepts(maxJobs: nat, q: Queue, id: string) {
    && !q.closed && id !in q.used
    && (|q.jobs| < maxJobs || exists i :: 0 <= i < |q.jobs| && IsTerminal(q.jobs[i].status))
  }

  /** The job that has to go first: the oldest terminal one, and only from a full table. */
  predicate IsVictim(maxJobs: nat, jobs: seq<Job>, e: nat) {
    && e < |jobs| && |jobs| >= maxJobs && IsTerminal(jobs[e].status)
    && forall i :: 0 <= i < e ==> !IsTerminal(jobs[i].status)
  }

  lemma ReservedIsOldest(maxJobs: nat, jobs: seq<Job>)
    requires maxJobs >= 1 && |jobs| <= maxJobs
    ensures |jobs| < maxJobs ==> Reserved(jobs, maxJobs) == Some(jobs)
    ensures forall e: nat :: IsVictim(maxJobs, jobs, e) ==> Reserved(jobs, maxJobs) == Some(jobs[..e] + jobs[e + 1..])
  {
    forall e: nat | IsVictim(maxJobs, jobs, e) ensures Reserved(jobs, maxJobs) == Some(jobs[..e] + jobs[e + 1..]) {
      var evicted := FirstTerminal(jobs, 0);
      assert evicted == Some(e);
      assert Reserved(Remove(jobs, e), maxJobs) == Some(Remove(jobs, e));
    }
  }

  /** The table after a submit that gets in: the new job last, queued and without a directive, behind all the others
      in their order, of which a full table has lost its oldest terminal one. */
  lemma SubmitAppends(maxJobs: nat, q: Queue, id: string, version: int)
    requires maxJobs >= 1 && QueueOk(maxJobs, q)
    ensures var after := Next(maxJobs, q, Submit(id, version));
      if !Accepts(maxJobs, q, id) then after == q
      else if |q.jobs| < maxJobs then after.jobs == q.jobs + [Job(id, version, Queued, false)]
      else exists e: nat :: IsVictim(maxJobs, q.jobs, e)
             && after.jobs == q.jobs[..e] + q.jobs[e + 1..] + [Job(id, version, Queued, false)]
  {
    SubmitIsRefusedIff(maxJobs, q, id, version);
    ReservedIsOldest(maxJobs, q.jobs);
    hide Reserved;
    if Accepts(maxJobs, q, id) && |q.jobs| >= maxJobs {
      var evicted := FirstTerminal(q.jobs, 0);
      assert IsVictim(maxJobs, q.jobs, evicted.value);
    }
  }

  // ---------- one worker step, on the table ----------

  /** The directive flag follows the status: none before a preview has ended, one after unless it failed. */
  ghost predicate DirectivesOk(jobs: seq<Job>) {
    forall i :: 0 <= i < |jobs| ==>
      && (jobs[i].status in {Queued, Processing} ==> !jobs[i].hasDirective)
      && (jobs[i].status !in {Queued, Processing, Failed} ==> jobs[i].hasDirective)
  }

  ghost predicate Holds(jobs: seq<Job>, id: string, version: int) {
    exists i :: 0 <= i < |jobs| && jobs[i].id == id && jobs[i].expectedPlanVersion == version
  }

  /** The status this step files for the job, when it does anything to it. */
  ghost function Files(maxJobs: nat, q: Queue, step: Step, id: string): Option<Status> {
    match step
    case Submit(x, _) => if x == id && Accepts(maxJobs, q, id) then Some(Queued) else None
    case StartPreview(x) => if x == id && id in q.toPreview then Some(Processing) else None
    case FinishPreview(x, result) => if x == id && id in q.previewing then Some(result) else None
    case Apply(x, current) =>
      if x == id && !q.closed && HasStatus(q.jobs, id, Preview) && Holds(q.jobs, id, current) then Some(Applying) else None
    case FinishApply(x, result) => if x == id && id in q.toApply then Some(result) else None
    case Close(_) => None
  }

  /** The table after a worker step or an apply: every job as it was, except that the one it concerns has the status
      filed, and a directive if and only if its preview or apply had not failed, or it had one before. */
  ghost predicate IsFiled(before: seq<Job>, after: seq<Job>, id: string, status: Status, directive: bool) {
    && |after| == |before| && (exists i :: 0 <= i < |before| && before[i].id == id)
    && forall i :: 0 <= i < |before| ==>
         after[i] == if before[i].id == id then Job(id, before[i].expectedPlanVersion, status, directive) else before[i]
  }

  lemma StatusIsFiled(maxJobs: nat, q: Queue, id: string, from: Status, status: Status, directive: bool)
    requires QueueOk(maxJobs, q) && DirectivesOk(q.jobs) && HasStatus(q.jobs, id, from)
    requires from in {Queued, Processing, Preview, Applying}
    ensures IsFiled(q.jobs, WithStatus(q.jobs, id, status, directive), id, status, directive || from in {Preview, Applying})
  {
    var i :| 0 <= i < |q.jobs| && q.jobs[i].id == id && q.jobs[i].status == from;
    FindIsUnique(q.jobs, i);
  }

  lemma ApplyIsEnabledIff(q: Queue, id: string, current: int)
    requires DistinctIds(q.jobs) && DirectivesOk(q.jobs)
    ensures CanDispatch(q, id, current) <==> !q.closed && HasStatus(q.jobs, id, Preview) && Holds(q.jobs, id, current)
  {
    CanDispatchIff(q, id, current);
    if HasStatus(q.jobs, id, Preview) && Holds(q.jobs, id, current) {
      var i :| 0 <= i < |q.jobs| && q.jobs[i].id == id && q.jobs[i].status == Preview;
      assert q.jobs[i] == Job(id, current, Preview, true);
    }
    if j :| 0 <= j < |q.jobs| && q.jobs[j] == Job(id, current, Preview, true) {
      HasStatusAt(q.jobs, j);
    }
  }

  /** Every step that is not a submit, on the table: the reported result becomes the status of the job concerned and
      nothing else moves. */
  lemma StepFiles(maxJobs: nat, q: Queue, step: Step, id: string)
    requires QueueOk(maxJobs, q) && DirectivesOk(q.jobs) && !step.Submit? && IsRealistic(step)
    requires !step.Close? ==> step.id == id
    ensures var after, filed := Next(maxJobs, q, step).jobs, Files(maxJobs, q, step, id);
      if filed.None? then after == q.jobs
      else IsFiled(q.jobs, after, id, filed.value, !step.StartPreview? && (step.FinishPreview? ==> filed.value != Failed))
  {
    hide WithStatus, HasStatus, IsFiled, DirectivesOk, Holds;
    match step
    case StartPreview(_) =>
      if id in q.toPreview {
        TaskHasJob(q.jobs, id, Queued);
        StatusIsFiled(maxJobs, q, id, Queued, Processing, false);
      }
    case FinishPreview(_, result) =>
      if id in q.previewing { StatusIsFiled(maxJobs, q, id, Processing, result, result != Failed); }
    case Apply(_, current) =>
      ApplyIsEnabledIff(q, id, current);
      if HasStatus(q.jobs, id, Preview) { StatusIsFiled(maxJobs, q, id, Preview, Applying, false); }
    case FinishApply(_, result) =>
      if id in q.toApply { StatusIsFiled(maxJobs, q, id, Applying, result, result != Failed); }
    case Close(_) =>
  }

  lemma TaskHasJob(jobs: seq<Job>, id: string, status: Status)
    requires HasStatus(jobs, id, status)
    ensures Find(jobs, id).Some?
  {}

  lemma SubmitKeepsDirectives(maxJobs: nat, q: Queue, id: string, version: int)
    requires maxJobs >= 1 && QueueOk(maxJobs, q) && DirectivesOk(q.jobs)
    ensures DirectivesOk(Next(maxJobs, q, Submit(id, version)).jobs)
  {
    hide QueueOk, Next;
    SubmitAppends(maxJobs, q, id, version);
  }

  lemma StepKeepsDirectives(maxJobs: nat, q: Queue, step: Step)
    requires maxJobs >= 1 && QueueOk(maxJobs, q) && DirectivesOk(q.jobs) && IsRealistic(step)
    ensures QueueOk(maxJobs, Next(maxJobs, q, step)) && DirectivesOk(Next(maxJobs, q, step).jobs)
  {
    hide QueueOk, Next;
    if step.Submit? {
      SubmitKeepsOk(maxJobs, q, step.id, step.expectedPlanVersion);
      SubmitKeepsDirectives(maxJobs, q, step.id, step.expectedPlanVersion);
    } else {
      WorkerStepKeepsOk(maxJobs, q, step);
      StepFiles(maxJobs, q, step, if step.Close? then "" else step.id);
    }
  }

  ghost predicate IsSound(maxJobs: nat, q: Queue) { QueueOk(maxJobs, q) && DirectivesOk(q.jobs) }

  lemma {:induction false} RunIsSound(maxJobs: nat, steps: seq<Step>)
    requires maxJobs >= 1 && forall s :: s in steps ==> IsRealistic(s)
    ensures IsSound(maxJobs, Run(maxJobs, steps))
  {
    hide Next, IsRealistic;
    if steps == [] {
    } else {
      var n := |steps| - 1;
      assert steps[n] in steps;
      RunIsSound(maxJobs, steps[..n]);
      hide DirectivesOk, QueueOk;
      StepKeepsDirectives(maxJobs, Run(maxJobs, steps[..n]), steps[n]);
    }
  }

  // ---------- what the queue can hold of one id ----------

  datatype Fact =
    | Known                     // the id has been taken
    | Closed                    // the queue is closed, for this id and every other
    | InTable(version: int)     // the table has the job, at this plan version
    | Filed(status: Status)     // the table has the job, in this status
    | ToPreview                 // a preview task waits in the executor
    | InPreview                 // a worker is in the preview
    | ToApply                   // an apply task waits or runs

  ghost predicate IsTrue(q: Queue, id: string, fact: Fact) {
    match fact
    case Known => id in q.used
    case Closed => q.closed
    case InTable(version) => Holds(q.jobs, id, version)
    case Filed(status) => HasStatus(q.jobs, id, status)
    case ToPreview => id in q.toPreview
    case InPreview => id in q.previewing
    case ToApply => id in q.toApply
  }

  /** The step makes it true. */
  ghost predicate Makes(maxJobs: nat, q: Queue, step: Step, id: string, fact: Fact) {
    match fact
    case Known => step.Submit? && step.id == id && Accepts(maxJobs, q, id)
    case Closed => step.Close?
    case InTable(version) => step == Submit(id, version) && Accepts(maxJobs, q, id)
    case Filed(status) => Files(maxJobs, q, step, id) == Some(status)
    case ToPreview => step.Submit? && step.id == id && Accepts(maxJobs, q, id)
    case InPreview => step == StartPreview(id) && id in q.toPreview
    case ToApply => step.Apply? && Files(maxJobs, q, step, id) == Some(Applying)
  }

  /** Another job gets in and this one is the oldest terminal one of a full table. */
  ghost predicate Evicts(maxJobs: nat, q: Queue, step: Step, id: string) {
    && step.Submit? && Accepts(maxJobs, q, step.id)
    && exists e: nat :: IsVictim(maxJobs, q.jobs, e) && q.jobs[e].id == id
  }

  /** The step ends it. */
  ghost predicate Ends(maxJobs: nat, q: Queue, step: Step, id: string, fact: Fact) {
    match fact
    case Known => false
    case Closed => false
    case InTable(version) => Evicts(maxJobs, q, step, id)
    case Filed(status) => Evicts(maxJobs, q, step, id) || Files(maxJobs, q, step, id).Some?
    case ToPreview => step == StartPreview(id) || (step.Close? && id in step.withdrawn)
    case InPreview => step.FinishPreview? && step.id == id
    case ToApply => (step.FinishApply? && step.id == id) || (step.Close? && id in step.withdrawn)
  }

  /** `after` is `jobs` without number `e`, and with `job` at the end. */
  ghost predicate IsReplaced(jobs: seq<Job>, e: nat, job: Job, after: seq<Job>) {
    && e < |jobs| == |after| && after[|jobs| - 1] == job
    && (forall i :: 0 <= i < |jobs| - 1 ==> after[i] == jobs[if i < e then i else i + 1])
    && (forall i :: 0 <= i < |jobs| && i != e ==> jobs[i].id != jobs[e].id)
  }

  lemma StatusAfterEviction(jobs: seq<Job>, e: nat, job: Job, after: seq<Job>, id: string, status: Status)
    requires IsReplaced(jobs, e, job, after)
    ensures HasStatus(after, id, status) <==>
      (job.id == id && job.status == status) || (HasStatus(jobs, id, status) && jobs[e].id != id)
  {
    if i :| 0 <= i < |jobs| && jobs[i].id == id && jobs[i].status == status && i != e {
      assert after[if i < e then i else i - 1] == jobs[i];
    }
  }

  lemma VersionAfterEviction(jobs: seq<Job>, e: nat, job: Job, after: seq<Job>, id: string, version: int)
    requires IsReplaced(jobs, e, job, after)
    ensures Holds(after, id, version) <==>
      (job.id == id && job.expectedPlanVersion == version) || (Holds(jobs, id, version) && jobs[e].id != id)
  {
    if i :| 0 <= i < |jobs| && jobs[i].id == id && jobs[i].expectedPlanVersion == version && i != e {
      assert after[if i < e then i else i - 1] == jobs[i];
    }
  }

  lemma EvictionLeaves(jobs: seq<Job>, e: nat, job: Job, id: string)
    requires e < |jobs| && DistinctIds(jobs)
    ensures var after := jobs[..e] + jobs[e + 1..] + [job];
      && (forall status :: HasStatus(after, id, status) <==>
            (job.id == id && job.status == status) || (HasStatus(jobs, id, status) && jobs[e].id != id))
      && (forall version :: Holds(after, id, version) <==>
            (job.id == id && job.expectedPlanVersion == version) || (Holds(jobs, id, version) && jobs[e].id != id))
  {
    var after := jobs[..e] + jobs[e + 1..] + [job];
    assert IsReplaced(jobs, e, job, after);
    hide *;
    forall status
      ensures HasStatus(after, id, status) <==>
        (job.id == id && job.status == status) || (HasStatus(jobs, id, status) && jobs[e].id != id)
    {
      StatusAfterEviction(jobs, e, job, after, id, status);
    }
    forall version
      ensures Holds(after, id, version) <==>
        (job.id == id && job.expectedPlanVersion == version) || (Holds(jobs, id, version) && jobs[e].id != id)
    {
      VersionAfterEviction(jobs, e, job, after, id, version);
    }
  }

  lemma AppendLeaves(jobs: seq<Job>, job: Job, id: string)
    ensures var after := jobs + [job];
      && (forall status :: HasStatus(after, id, status) <==>
            (job.id == id && job.status == status) || HasStatus(jobs, id, status))
      && (forall version :: Holds(after, id, version) <==>
            (job.id == id && job.expectedPlanVersion == version) || Holds(jobs, id, version))
  {
    var after := jobs + [job];
    assert after[|jobs|] == job;
    assert forall i :: 0 <= i < |jobs| ==> jobs[i] == after[i];
  }

  lemma FilingLeaves(before: seq<Job>, after: seq<Job>, x: string, filed: Status, directive: bool, id: string)
    requires IsFiled(before, after, x, filed, directive)
    ensures forall status :: HasStatus(after, id, status) <==>
      if id == x then status == filed else HasStatus(before, id, status)
    ensures forall version :: Holds(after, id, version) <==> Holds(before, id, version)
  {
    assert forall i :: 0 <= i < |before| ==> after[i].id == before[i].id;
    var j :| 0 <= j < |before| && before[j].id == x;
    assert after[j] == Job(x, before[j].expectedPlanVersion, filed, directive);
    forall status ensures HasStatus(after, id, status) <==> if id == x then status == filed else HasStatus(before, id, status) {
      if i :| 0 <= i < |before| && before[i].id == id && before[i].status == status && id != x { assert after[i] == before[i]; }
    }
    forall version ensures Holds(after, id, version) <==> Holds(before, id, version) {
      if i :| 0 <= i < |before| && before[i].id == id && before[i].expectedPlanVersion == version {
        assert after[i].id == id && after[i].expectedPlanVersion == version;
      }
      if i :| 0 <= i < |after| && after[i].id == id && after[i].expectedPlanVersion == version {
        assert before[i].id == id && before[i].expectedPlanVersion == version;
      }
    }
  }

  predicate IsOfTable(fact: Fact) { fact.InTable? || fact.Filed? }

  /** `fact` is true afterwards if and only if the step makes it true, or it was true and the step does not end it. */
  ghost predicate Decides(maxJobs: nat, q: Queue, step: Step, id: string, fact: Fact) {
    IsTrue(Next(maxJobs, q, step), id, fact) <==>
      Makes(maxJobs, q, step, id, fact) || (IsTrue(q, id, fact) && !Ends(maxJobs, q, step, id, fact))
  }

  lemma SubmitDecidesSets(maxJobs: nat, q: Queue, x: string, version: int, id: string, fact: Fact)
    requires maxJobs >= 1 && IsSound(maxJobs, q) && !IsOfTable(fact)
    ensures Decides(maxJobs, q, Submit(x, version), id, fact)
  {
    SubmitIsRefusedIff(maxJobs, q, x, version);
    hide IsSound, HasStatus, Holds, Reserved, IsTerminal;
  }

  lemma SubmitDecidesTable(maxJobs: nat, q: Queue, x: string, version: int, id: string, fact: Fact)
    requires maxJobs >= 1 && IsSound(maxJobs, q) && IsOfTable(fact)
    ensures Decides(maxJobs, q, Submit(x, version), id, fact)
  {
    hide DirectivesOk, HasStatus, Holds, Next, IsTerminal;
    SubmitAppends(maxJobs, q, x, version);
    NewIdIsNowhere(maxJobs, q, x);
    if Accepts(maxJobs, q, x) {
      var job := Job(x, version, Queued, false);
      if |q.jobs| < maxJobs {
        AppendLeaves(q.jobs, job, id);
      } else {
        var e: nat :| IsVictim(maxJobs, q.jobs, e) &&
          Next(maxJobs, q, Submit(x, version)).jobs == q.jobs[..e] + q.jobs[e + 1..] + [job];
        OneVictim(maxJobs, q.jobs, e);
        EvictionLeaves(q.jobs, e, job, id);
      }
      NotAVictimOfRoom(maxJobs, q.jobs);
    }
  }

  lemma NewIdIsNowhere(maxJobs: nat, q: Queue, id: string)
    requires QueueOk(maxJobs, q)
    ensures id !in q.used ==> forall status :: !HasStatus(q.jobs, id, status)
    ensures id !in q.used ==> forall version :: !Holds(q.jobs, id, version)
  {}

  lemma OneVictim(maxJobs: nat, jobs: seq<Job>, e: nat)
    requires IsVictim(maxJobs, jobs, e)
    ensures forall f: nat :: IsVictim(maxJobs, jobs, f) ==> f == e
  {
    hide IsTerminal;
  }

  lemma NotAVictimOfRoom(maxJobs: nat, jobs: seq<Job>)
    ensures |jobs| < maxJobs ==> forall e: nat :: !IsVictim(maxJobs, jobs, e)
  {}

  lemma StepDecides(maxJobs: nat, q: Queue, step: Step, id: string, fact: Fact)
    requires maxJobs >= 1 && IsSound(maxJobs, q) && IsRealistic(step)
    ensures Decides(maxJobs, q, step, id, fact)
  {
    hide *;
    if step.Submit? {
      if IsOfTable(fact) {
        SubmitDecidesTable(maxJobs, q, step.id, step.expectedPlanVersion, id, fact);
      } else {
        SubmitDecidesSets(maxJobs, q, step.id, step.expectedPlanVersion, id, fact);
      }
    } else if IsOfTable(fact) {
      WorkerDecidesTable(maxJobs, q, step, id, fact);
    } else {
      WorkerDecidesSets(maxJobs, q, step, id, fact);
    }
  }

  lemma WorkerDecidesSets(maxJobs: nat, q: Queue, step: Step, id: string, fact: Fact)
    requires IsSound(maxJobs, q) && !step.Submit? && IsRealistic(step) && !IsOfTable(fact)
    ensures Decides(maxJobs, q, step, id, fact)
  {
    hide HasStatus, Holds, WithStatus, IsTerminal, DistinctIds;
    if step.Apply? { ApplyIsEnabledIff(q, step.id, step.currentPlanVersion); }
    if step.StartPreview? && step.id in q.toPreview { TaskHasJob(q.jobs, step.id, Queued); }
    hide CanDispatch, DirectivesOk;
  }

  lemma WorkerDecidesTable(maxJobs: nat, q: Queue, step: Step, id: string, fact: Fact)
    requires IsSound(maxJobs, q) && !step.Submit? && IsRealistic(step) && IsOfTable(fact)
    ensures Decides(maxJobs, q, step, id, fact)
  {
    hide QueueOk, DirectivesOk, HasStatus, Holds, IsFiled, Next, Accepts;
    var x := if step.Close? then id else step.id;
    StepFiles(maxJobs, q, step, x);
    var filed := Files(maxJobs, q, step, x);
    if filed.Some? {
      FilingLeaves(q.jobs, Next(maxJobs, q, step).jobs, x, filed.value,
        !step.StartPreview? && (step.FinishPreview? ==> filed.value != Failed), id);
    }
  }

  // ---------- over a run ----------

  ghost predicate MakesAt(maxJobs: nat, steps: seq<Step>, k: nat, id: string, fact: Fact) {
    k < |steps| && Makes(maxJobs, Run(maxJobs, steps[..k]), steps[k], id, fact)
  }

  ghost predicate EndsAt(maxJobs: nat, steps: seq<Step>, k: nat, id: string, fact: Fact) {
    k < |steps| && Ends(maxJobs, Run(maxJobs, steps[..k]), steps[k], id, fact)
  }

  /** No step from number `lo` on, and before number `hi`, ends it. */
  ghost predicate Lasts(maxJobs: nat, steps: seq<Step>, lo: nat, hi: nat, id: string, fact: Fact) {
    forall k: nat :: lo <= k < hi ==> !EndsAt(maxJobs, steps, k, id, fact)
  }

  /** After any prefix of any run: a fact about an id holds if and only if some step made it true and no later one has
      ended it. */
  lemma {:induction false} HoldsSince(maxJobs: nat, steps: seq<Step>, n: nat, id: string, fact: Fact)
    requires maxJobs >= 1 && n <= |steps| && forall s :: s in steps ==> IsRealistic(s)
    ensures IsTrue(Run(maxJobs, steps[..n]), id, fact) <==>
      exists k: nat :: k < n && MakesAt(maxJobs, steps, k, id, fact) && Lasts(maxJobs, steps, k + 1, n, id, fact)
  {
    hide Run, Next, IsRealistic, Makes, Ends, IsSound;
    if n == 0 {
      NothingIsTrue(maxJobs, id, fact);
      assert steps[..0] == [];
    } else {
      var q := Run(maxJobs, steps[..n - 1]);
      HoldsSince(maxJobs, steps, n - 1, id, fact);
      OneStepDecides(maxJobs, steps, n - 1, id, fact);
      hide IsTrue, MakesAt, EndsAt;
      LastsOneMore(maxJobs, steps, n - 1, id, fact);
    }
  }

  lemma LastsOneMore(maxJobs: nat, steps: seq<Step>, n: nat, id: string, fact: Fact)
    ensures forall lo: nat :: lo <= n ==>
      (Lasts(maxJobs, steps, lo, n + 1, id, fact) <==>
         Lasts(maxJobs, steps, lo, n, id, fact) && !EndsAt(maxJobs, steps, n, id, fact))
    ensures Lasts(maxJobs, steps, n + 1, n + 1, id, fact)
  {
    hide EndsAt;
    forall lo: nat | lo <= n
      ensures Lasts(maxJobs, steps, lo, n + 1, id, fact) <==>
        Lasts(maxJobs, steps, lo, n, id, fact) && !EndsAt(maxJobs, steps, n, id, fact)
    {
      if Lasts(maxJobs, steps, lo, n + 1, id, fact) { assert !EndsAt(maxJobs, steps, n, id, fact); }
    }
  }

  lemma NothingIsTrue(maxJobs: nat, id: string, fact: Fact)
    ensures !IsTrue(Run(maxJobs, []), id, fact)
  {}

  lemma OneStepDecides(maxJobs: nat, steps: seq<Step>, n: nat, id: string, fact: Fact)
    requires maxJobs >= 1 && n < |steps| && forall s :: s in steps ==> IsRealistic(s)
    ensures IsTrue(Run(maxJobs, steps[..n + 1]), id, fact) <==>
      || MakesAt(maxJobs, steps, n, id, fact)
      || (IsTrue(Run(maxJobs, steps[..n]), id, fact) && !EndsAt(maxJobs, steps, n, id, fact))
  {
    hide Next, IsRealistic, Makes, Ends, IsSound, IsTrue;
    var q, step := Run(maxJobs, steps[..n]), steps[n];
    assert steps[..n + 1][..n] == steps[..n] && step in steps;
    RunIsSound(maxJobs, steps[..n]);
    assert Run(maxJobs, steps[..n + 1]) == Next(maxJobs, q, step);
    hide Run;
    StepDecides(maxJobs, q, step, id, fact);
  }

  /** On every run a job is in preview at a plan version, ready to be applied, if and only if it was accepted with
      that version, its preview ended as a preview, and since then it has been neither applied nor evicted. */
  lemma PreviewedIff(maxJobs: nat, steps: seq<Step>, id: string, version: int)
    requires maxJobs >= 1 && forall s :: s in steps ==> IsRealistic(s)
    ensures IsPreviewed(Run(maxJobs, steps), id, version) <==>
      && (exists a: nat :: MakesAt(maxJobs, steps, a, id, InTable(version))
            && Lasts(maxJobs, steps, a + 1, |steps|, id, InTable(version)))
      && exists b: nat :: MakesAt(maxJobs, steps, b, id, Filed(Preview))
            && Lasts(maxJobs, steps, b + 1, |steps|, id, Filed(Preview))
  {
    hide Run, Next, IsRealistic, Makes, Ends, Lasts;
    assert steps[..|steps|] == steps;
    RunIsSound(maxJobs, steps);
    HoldsSince(maxJobs, steps, |steps|, id, InTable(version));
    HoldsSince(maxJobs, steps, |steps|, id, Filed(Preview));
    var q := Run(maxJobs, steps);
    PreviewIsBoth(maxJobs, q, id, version);
  }

  lemma PreviewIsBoth(maxJobs: nat, q: Queue, id: string, version: int)
    requires IsSound(maxJobs, q)
    ensures IsPreviewed(q, id, version) <==> IsTrue(q, id, InTable(version)) && IsTrue(q, id, Filed(Preview))
  {
    if i :| 0 <= i < |q.jobs| && q.jobs[i] == Job(id, version, Preview, true) { HasStatusAt(q.jobs, i); }
    if IsTrue(q, id, InTable(version)) && IsTrue(q, id, Filed(Preview)) {
      var i :| 0 <= i < |q.jobs| && q.jobs[i].id == id && q.jobs[i].status == Preview;
      assert q.jobs[i] == Job(id, version, Preview, true);
    }
  }
}

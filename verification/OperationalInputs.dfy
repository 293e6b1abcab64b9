/** Operator schemes and intelligence reports waiting for the next simulation
    boundary: handed to the engine all together, in one fixed order, or kept.
  */
module OperationalInputs {
  import opened Prelude

  datatype Scheme = Scheme(body: int, validUntil: int)

  /** Report ids stand for the source's strings under their order. */
  datatype Report = Report(id: int, body: int, validUntil: int)

  /** What the engine was handed. */
  datatype Handed = HandedScheme(scheme: Scheme) | HandedReport(report: Report)

  datatype Inputs = Inputs(scheme: Option<Scheme>, reports: map<int, Report>, handed: seq<Handed>)

  const NOTHING := Inputs(None, map[], [])

  // ---------- the waiting inputs, in commit order ----------

  lemma EmptyOrNot(ids: set<int>)
    ensures ids == {} || exists x :: x in ids
  {
    if forall x :: x !in ids { assert ids == {}; }
  }

  lemma {:induction false} SmallestExists(ids: set<int>) returns (least: int)
    requires ids != {}
    ensures least in ids && forall y :: y in ids ==> least <= y
  {
    EmptyOrNot(ids);
    var x :| x in ids;
    var rest := ids - {x};
    least := x;
    assert forall y :: y in ids ==> y in rest || y == x;
    if rest != {} {
      var z := SmallestExists(rest);
      if z < x { least := z; }
    }
  }

  ghost function Least(ids: set<int>): (x: int)
    requires ids != {}
    ensures x in ids && forall y :: y in ids ==> x <= y
  {
    assert exists x :: x in ids && forall y :: y in ids ==> x <= y by { var least := SmallestExists(ids); }
    var x :| x in ids && forall y :: y in ids ==> x <= y;
    x
  }

  ghost function Listing(ids: set<int>, reports: map<int, Report>): seq<Report>
    requires ids <= reports.Keys
    decreases |ids|
  {
    if ids == {} then [] else [reports[Least(ids)]] + Listing(ids - {Least(ids)}, reports)
  }

  predicate AreKeyed(reports: map<int, Report>) { forall id :: id in reports ==> reports[id].id == id }

  /** The reports wait in ascending order of their ids, each exactly once. */
  lemma {:induction false} ListingIsAscending(ids: set<int>, reports: map<int, Report>)
    requires ids <= reports.Keys && AreKeyed(reports)
    ensures var list := Listing(ids, reports);
      && |list| == |ids|
      && (forall i, j :: 0 <= i < j < |list| ==> list[i].id < list[j].id)
      && (forall i :: 0 <= i < |list| ==> list[i].id in ids && reports[list[i].id] == list[i])
    decreases |ids|
  {
    if ids != {} {
      var x := Least(ids);
      ListingIsAscending(ids - {x}, reports);
      var rest := Listing(ids - {x}, reports);
      assert forall i :: 0 <= i < |rest| ==> rest[i].id != x && rest[i].id in ids;
    }
  }

  function AsHanded(list: seq<Report>): seq<Handed> {
    seq(|list|, i requires 0 <= i < |list| => HandedReport(list[i]))
  }

  function SchemeHanded(scheme: Option<Scheme>): seq<Handed> {
    if scheme.Some? then [HandedScheme(scheme.value)] else []
  }

  /** Everything waiting: the scheme first, then the reports. */
  ghost function Waiting(inputs: Inputs): seq<Handed> {
    SchemeHanded(inputs.scheme) + AsHanded(Listing(inputs.reports.Keys, inputs.reports))
  }

  predicate IsExpired(inputs: Inputs, now: int) {
    || (inputs.scheme.Some? && inputs.scheme.value.validUntil <= now)
    || exists id :: id in inputs.reports && inputs.reports[id].validUntil <= now
  }

  // ---------- the steps ----------

  datatype CommitResult = Committed | Expired | EngineRefused

  /** One commit; `refusesAt` is the callback, if any, at which the engine raises. */
  ghost function Commit(inputs: Inputs, now: int, refusesAt: Option<nat>): (Inputs, CommitResult) {
    var waiting := Waiting(inputs);
    if IsExpired(inputs, now) then (inputs, Expired)
    else if refusesAt.Some? && refusesAt.value < |waiting| then
      (inputs.(handed := inputs.handed + waiting[..refusesAt.value]), EngineRefused)
    else (Inputs(None, map[], inputs.handed + waiting), Committed)
  }

  datatype Step =
    | SetScheme(scheme: Scheme, now: int)
    | Submit(report: Report, now: int)
    | Commits(now: int, refusesAt: Option<nat>)

  ghost function Next(inputs: Inputs, step: Step): Inputs {
    match step
    case SetScheme(scheme, now) => if scheme.validUntil <= now then inputs else inputs.(scheme := Some(scheme))
    case Submit(report, now) =>
      if report.validUntil <= now then inputs else inputs.(reports := inputs.reports[report.id := report])
    case Commits(now, refusesAt) => Commit(inputs, now, refusesAt).0
  }

  ghost function Run(start: Inputs, steps: seq<Step>): Inputs {
    if steps == [] then start else Next(Run(start, steps[..|steps| - 1]), steps[|steps| - 1])
  }

  /** A report still waiting when it expires blocks every later commit: until the same id is submitted
      again nothing at all is handed to the engine, and the report itself stays. */
  lemma {:induction false} ExpiredReportBlocks(start: Inputs, steps: seq<Step>, report: Report)
    requires report.id in start.reports && start.reports[report.id] == report
    requires forall s :: s in steps ==> s.now >= report.validUntil && !(s.Submit? && s.report.id == report.id)
    ensures var after := Run(start, steps);
      after.handed == start.handed && report.id in after.reports && after.reports[report.id] == report
  {
    hide Waiting;
    if steps != [] {
      var n := |steps| - 1;
      assert steps[n] in steps;
      ExpiredReportBlocks(start, steps[..n], report);
      assert IsExpired(Run(start, steps[..n]), steps[n].now);
    }
  }

  /** And exactly then: a commit with a willing engine hands over everything waiting, once, in order, and
      empties the queue if and only if nothing waiting has expired. */
  lemma CommitsUnlessExpired(inputs: Inputs, now: int)
    requires AreKeyed(inputs.reports)
    ensures var (after, result) := Commit(inputs, now, None);
      && (result == Committed <==> !IsExpired(inputs, now))
      && (result == Committed ==>
            && after.scheme.None? && after.reports == map[]
            && |after.handed| == |inputs.handed| + (if inputs.scheme.Some? then 1 else 0) + |inputs.reports|)
      && (result != Committed ==> after == inputs)
  {
    ListingIsAscending(inputs.reports.Keys, inputs.reports);
  }

  /** A refusing engine has been handed what comes before the refused one; the queue keeps everything, so that the next
      commit hands all of it over again. */
  lemma RefusalKeepsTheQueue(inputs: Inputs, now: int, k: nat)
    requires !IsExpired(inputs, now) && k < |Waiting(inputs)|
    ensures var (after, result) := Commit(inputs, now, Some(k));
      && result == EngineRefused
      && after.scheme == inputs.scheme && after.reports == inputs.reports
      && after.handed == inputs.handed + Waiting(inputs)[..k]
      && Commit(after, now, None).0.handed == after.handed + Waiting(inputs)
  {
    hide Waiting;
    var after := Commit(inputs, now, Some(k)).0;
    WaitingIsOfTheQueue(inputs, after);
  }

  lemma WaitingIsOfTheQueue(a: Inputs, b: Inputs)
    requires a.scheme == b.scheme && a.reports == b.reports
    ensures Waiting(a) == Waiting(b)
  {}

  /** What a commit hands over: the scheme, then every report, each exactly once, in ascending order of ids. */
  lemma WaitingIsComplete(inputs: Inputs)
    requires AreKeyed(inputs.reports)
    ensures var waiting, base := Waiting(inputs), if inputs.scheme.Some? then 1 else 0;
      && |waiting| == base + |inputs.reports|
      && (inputs.scheme.Some? ==> waiting[0] == HandedScheme(inputs.scheme.value))
      && (forall i :: base <= i < |waiting| ==>
            && waiting[i].HandedReport? && waiting[i].report.id in inputs.reports
            && inputs.reports[waiting[i].report.id] == waiting[i].report)
      && (forall i, j :: base <= i < j < |waiting| ==> waiting[i].report.id < waiting[j].report.id)
  {
    hide Listing;
    ListingIsAscending(inputs.reports.Keys, inputs.reports);
    var list := Listing(inputs.reports.Keys, inputs.reports);
    WaitingInOrder(SchemeHanded(inputs.scheme), list);
    assert forall i :: 0 <= i < |list| ==> Waiting(inputs)[|SchemeHanded(inputs.scheme)| + i] == HandedReport(list[i]);
    hide AsHanded;
    forall i | |SchemeHanded(inputs.scheme)| <= i < |Waiting(inputs)|
      ensures Waiting(inputs)[i] == HandedReport(list[i - |SchemeHanded(inputs.scheme)|])
    {
      assert i == |SchemeHanded(inputs.scheme)| + (i - |SchemeHanded(inputs.scheme)|);
    }
  }

  /** Step `k` of a run is a commit that empties the queue. */
  ghost predicate CommitsAt(start: Inputs, steps: seq<Step>, k: nat) {
    && k < |steps| && steps[k].Commits?
    && Commit(Run(start, steps[..k]), steps[k].now, steps[k].refusesAt).1 == Committed
  }

  ghost predicate AcceptsAt(steps: seq<Step>, k: nat, report: Report) {
    k < |steps| && steps[k].Submit? && steps[k].report == report && report.validUntil > steps[k].now
  }

  ghost predicate ReplacesAt(steps: seq<Step>, k: nat, id: int) {
    k < |steps| && steps[k].Submit? && steps[k].report.id == id && steps[k].report.validUntil > steps[k].now
  }

  /** Step `k` takes the report of this id out of the queue, or puts another one in its place. */
  ghost predicate LeavesAt(steps: seq<Step>, k: nat, id: int) {
    CommitsAt(NOTHING, steps, k) || ReplacesAt(steps, k, id)
  }

  ghost predicate StillWaits(steps: seq<Step>, k: nat, n: nat, id: int) {
    forall j: nat :: k < j < n ==> !LeavesAt(steps, j, id)
  }

  /** On every run from an empty queue a report waits if and only if it was submitted while valid, and since then there
      has been no commit and no valid submission of the same id. */
  lemma {:induction false} WaitsIff(steps: seq<Step>, n: nat, report: Report)
    requires n <= |steps|
    ensures var reports := Run(NOTHING, steps[..n]).reports;
      report.id in reports && reports[report.id] == report <==>
        exists k: nat :: k < n && AcceptsAt(steps, k, report) && StillWaits(steps, k, n, report.id)
  {
    hide Waiting, IsExpired;
    if n == 0 {
      assert steps[..0] == [];
    } else {
      WaitsIff(steps, n - 1, report);
      assert steps[..n][..n - 1] == steps[..n - 1];
      QueueAfter(Run(NOTHING, steps[..n - 1]), steps[n - 1], report);
      hide Run, Next, Commit;
      StillWaitsOneMore(steps, n - 1, report.id);
    }
  }

  lemma QueueAfter(inputs: Inputs, step: Step, report: Report)
    ensures var after := Next(inputs, step).reports;
      var accepted := step.Submit? && step.report.validUntil > step.now;
      report.id in after && after[report.id] == report <==>
        || (accepted && step.report == report)
        || (&& report.id in inputs.reports && inputs.reports[report.id] == report
            && !(accepted && step.report.id == report.id)
            && !(step.Commits? && Commit(inputs, step.now, step.refusesAt).1 == Committed))
  {
    hide Waiting, IsExpired;
  }

  lemma StillWaitsOneMore(steps: seq<Step>, n: nat, id: int)
    ensures forall k: nat :: k < n ==>
      (StillWaits(steps, k, n + 1, id) <==> StillWaits(steps, k, n, id) && !LeavesAt(steps, n, id))
    ensures StillWaits(steps, n, n + 1, id)
  {
    hide LeavesAt;
    forall k: nat | k < n
      ensures StillWaits(steps, k, n + 1, id) <==> StillWaits(steps, k, n, id) && !LeavesAt(steps, n, id)
    {
      if StillWaits(steps, k, n + 1, id) { assert !LeavesAt(steps, n, id); }
    }
  }

  ghost predicate SetsAt(steps: seq<Step>, k: nat, scheme: Scheme) {
    k < |steps| && steps[k].SetScheme? && steps[k].scheme == scheme && scheme.validUntil > steps[k].now
  }

  /** Step `k` takes the scheme out of the queue, or puts another one in its place. */
  ghost predicate UnsetsAt(steps: seq<Step>, k: nat) {
    CommitsAt(NOTHING, steps, k) || (k < |steps| && steps[k].SetScheme? && steps[k].scheme.validUntil > steps[k].now)
  }

  ghost predicate StaysSet(steps: seq<Step>, k: nat, n: nat) { forall j: nat :: k < j < n ==> !UnsetsAt(steps, j) }

  /** And the scheme that waits is the last one set while valid, if there has been no commit since. */
  lemma {:induction false} SchemeWaitsIff(steps: seq<Step>, n: nat, scheme: Scheme)
    requires n <= |steps|
    ensures Run(NOTHING, steps[..n]).scheme == Some(scheme) <==>
      exists k: nat :: k < n && SetsAt(steps, k, scheme) && StaysSet(steps, k, n)
  {
    hide Waiting, IsExpired;
    if n == 0 {
      assert steps[..0] == [];
    } else {
      SchemeWaitsIff(steps, n - 1, scheme);
      assert steps[..n][..n - 1] == steps[..n - 1];
      SchemeAfter(Run(NOTHING, steps[..n - 1]), steps[n - 1], scheme);
      hide Run, Next, Commit;
      StaysSetOneMore(steps, n - 1);
    }
  }

  lemma SchemeAfter(inputs: Inputs, step: Step, scheme: Scheme)
    ensures var accepted := step.SetScheme? && step.scheme.validUntil > step.now;
      Next(inputs, step).scheme == Some(scheme) <==>
        || (accepted && step.scheme == scheme)
        || (&& inputs.scheme == Some(scheme) && !accepted
            && !(step.Commits? && Commit(inputs, step.now, step.refusesAt).1 == Committed))
  {
    hide Waiting, IsExpired;
  }

  lemma StaysSetOneMore(steps: seq<Step>, n: nat)
    ensures forall k: nat :: k < n ==> (StaysSet(steps, k, n + 1) <==> StaysSet(steps, k, n) && !UnsetsAt(steps, n))
    ensures StaysSet(steps, n, n + 1)
  {
    hide UnsetsAt;
    forall k: nat | k < n ensures StaysSet(steps, k, n + 1) <==> StaysSet(steps, k, n) && !UnsetsAt(steps, n) {
      if StaysSet(steps, k, n + 1) { assert !UnsetsAt(steps, n); }
    }
  }

  // ---------- the queue ----------

  /** The operator inputs of `CarrierRuntime`. */
  class InputQueue {
    var scheme: Option<Scheme>
    var reports: map<int, Report>
    ghost var handed: seq<Handed>

    ghost function Model(): Inputs
      reads this
    {
      Inputs(scheme, reports, handed)
    }

    constructor ()
      ensures Model() == NOTHING
    {
      scheme, reports, handed := None, map[], [];
    }

    /** `set_operational_scheme`. */
    method SetOperationalScheme(newScheme: Scheme, now: int) returns (accepted: bool)
      modifies this
      ensures accepted == (newScheme.validUntil > now)
      ensures Model() == Next(old(Model()), SetScheme(newScheme, now))
    {
      if newScheme.validUntil <= now {
        return false;
      }
      scheme := Some(newScheme);
      return true;
    }

    /** `submit_intelligence`. */
    method SubmitIntelligence(report: Report, now: int) returns (accepted: bool)
      modifies this
      ensures accepted == (report.validUntil > now)
      ensures Model() == Next(old(Model()), Submit(report, now))
    {
      if report.validUntil <= now {
        return false;
      }
      reports := reports[report.id := report];
      return true;
    }

    /** The pending reports sorted by id. */
    method SortedReports() returns (list: seq<Report>)
      ensures list == Listing(reports.Keys, reports)
    {
      list := [];
      var ids := reports.Keys;
      while ids != {}
        invariant ids <= reports.Keys
        invariant list + Listing(ids, reports) == Listing(reports.Keys, reports)
      {
        ghost var least := SmallestExists(ids);
        var id :| id in ids && forall y :: y in ids ==> id <= y;
        assert id == Least(ids);
        list := list + [reports[id]];
        ids := ids - {id};
      }
    }

    /** `commit_operational_inputs`: boundary-time checks come before the first callback, and the queue is
        cleared only after the last one. */
    method CommitOperationalInputs(now: int, refusesAt: Option<nat>) returns (result: CommitResult)
      modifies this
      ensures (Model(), result) == Commit(old(Model()), now, refusesAt)
    {
      hide Listing;
      var list := SortedReports();
      if scheme.Some? && scheme.value.validUntil <= now {
        return Expired;
      }
      var expired := AnyExpired(list, now);
      if expired {
        return Expired;
      }
      var refused := HandOver(list, refusesAt);
      if refused {
        return EngineRefused;
      }
      scheme := None;
      reports := map[];
      return Committed;
    }

    /** The engine callbacks, the scheme's first. */
    method HandOver(list: seq<Report>, refusesAt: Option<nat>) returns (refused: bool)
      requires list == Listing(reports.Keys, reports)
      modifies this`handed
      ensures refused == (refusesAt.Some? && refusesAt.value < |Waiting(Model())|)
      ensures handed == old(handed) + if refused then Waiting(Model())[..refusesAt.value] else Waiting(Model())
    {
      hide Listing, AsHanded;
      ghost var waiting := SchemeHanded(scheme) + AsHanded(list);
      WaitingInOrder(SchemeHanded(scheme), list);
      var calls := 0;
      if scheme.Some? {
        if refusesAt == Some(0) {
          return true;
        }
        handed := handed + [HandedScheme(scheme.value)];
        calls := 1;
      }
      var base := calls;
      for i := 0 to |list|
        invariant calls == base + i && handed == old(handed) + waiting[..calls]
        invariant refusesAt.Some? ==> refusesAt.value >= calls
      {
        if refusesAt == Some(calls) {
          return true;
        }
        assert waiting[..calls + 1] == waiting[..calls] + [HandedReport(list[i])];
        handed := handed + [HandedReport(list[i])];
        calls := calls + 1;
      }
      assert waiting[..calls] == waiting;
      return false;
    }

    method AnyExpired(list: seq<Report>, now: int) returns (expired: bool)
      requires list == Listing(reports.Keys, reports)
      ensures expired <==> exists id :: id in reports && reports[id].validUntil <= now
    {
      hide Listing;
      ListingHoldsAll(reports.Keys, reports);
      for i := 0 to |list|
        invariant forall k :: 0 <= k < i ==> list[k].validUntil > now
      {
        if list[i].validUntil <= now {
          assert list[i] in list;
          return true;
        }
      }
      forall id | id in reports ensures reports[id].validUntil > now {
        assert reports[id] in list;
      }
      return false;
    }
  }

  lemma WaitingInOrder(front: seq<Handed>, list: seq<Report>)
    ensures var waiting := front + AsHanded(list);
      && |waiting| == |front| + |list| && waiting[..|front|] == front
      && forall i :: 0 <= i < |list| ==> waiting[|front| + i] == HandedReport(list[i])
  {
    var handed := AsHanded(list);
    assert forall i :: 0 <= i < |list| ==> handed[i] == HandedReport(list[i]);
    hide AsHanded;
  }

  lemma {:induction false} ListingHoldsAll(ids: set<int>, reports: map<int, Report>)
    requires ids <= reports.Keys
    ensures forall r :: r in Listing(ids, reports) ==> IsOneOf(ids, reports, r)
    ensures forall id :: id in ids ==> reports[id] in Listing(ids, reports)
    decreases |ids|
  {
    if ids != {} {
      var x := Least(ids);
      ListingHoldsAll(ids - {x}, reports);
      var rest := Listing(ids - {x}, reports);
      assert Listing(ids, reports) == [reports[x]] + rest;
      hide Listing;
      forall r | r in rest ensures IsOneOf(ids, reports, r) {
        assert IsOneOf(ids - {x}, reports, r);
      }
    }
  }

  predicate IsOneOf(ids: set<int>, reports: map<int, Report>, r: Report)
    requires ids <= reports.Keys
  {
    exists id :: id in ids && reports[id] == r
  }
}

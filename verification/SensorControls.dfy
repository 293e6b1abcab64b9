/** Direct sonar controls: queued one per vehicle, drained by the worker of a
    carrier cycle, and applied, put back or dropped by how that cycle ends. The
    carrier is the one of `CarrierProtocol`; nothing here says how a cycle ends.
  */
module SensorControls {
  import opened Prelude
  import opened PendingEvents
  import C = CarrierProtocol

  /** A control for one vehicle, numbered by its submission. */
  datatype Control = Control(uuv: string, serial: nat)

  /** The vehicles of all submissions, the queue, what the cycle in flight holds, and where the rest went. */
  datatype Desk = Desk(
    submitted: seq<string>,
    pending: seq<Control>,
    batch: Option<seq<Control>>,
    applied: seq<Control>,
    dropped: set<Control>,
    superseded: set<Control>)

  const EMPTY := Desk([], [], None, [], {}, {})

  predicate Has(controls: seq<Control>, uuv: string) { exists c :: c in controls && c.uuv == uuv }

  /** The queue without the control of one vehicle. */
  function Others(controls: seq<Control>, uuv: string): (r: seq<Control>)
    ensures forall c :: c in r <==> c in controls && c.uuv != uuv
    ensures OnePerVehicle(controls) ==> OnePerVehicle(r)
  {
    if controls == [] then []
    else
      var n := |controls| - 1;
      Others(controls[..n], uuv) + if controls[n].uuv != uuv then [controls[n]] else []
  }

  /** The controls of `back` for vehicles that have none in `controls`. */
  function Missing(controls: seq<Control>, back: seq<Control>): (r: seq<Control>)
    ensures forall c :: c in r <==> c in back && !Has(controls, c.uuv)
    ensures OnePerVehicle(back) ==> OnePerVehicle(r)
  {
    if back == [] then []
    else
      var n := |back| - 1;
      Missing(controls, back[..n]) + if Has(controls, back[n].uuv) then [] else [back[n]]
  }

  ghost predicate OnePerVehicle(controls: seq<Control>) {
    forall i, j :: 0 <= i < j < |controls| ==> controls[i].uuv != controls[j].uuv
  }

  function Held(d: Desk): seq<Control> { if d.batch.Some? then d.batch.value else [] }

  function AsSet(controls: seq<Control>): set<Control> { set c | c in controls }

  // ---------- what happens to the desk ----------

  function Submitted(d: Desk, uuv: string): Desk {
    d.(submitted := d.submitted + [uuv],
       pending := Others(d.pending, uuv) + [Control(uuv, |d.submitted|)],
       superseded := d.superseded + (set c | c in d.pending && c.uuv == uuv))
  }

  function Drained(d: Desk): Desk { if d.batch.Some? then d else d.(pending := [], batch := Some(d.pending)) }

  function PutBack(d: Desk): Desk {
    d.(batch := None,
       pending := d.pending + Missing(d.pending, Held(d)),
       superseded := d.superseded + (set c | c in Held(d) && Has(d.pending, c.uuv)))
  }

  /** The cycle is retired after `reached` of its controls have gone to the engine. */
  function Settled(d: Desk, reached: nat): Desk {
    var held := Held(d);
    var k := if reached < |held| then reached else |held|;
    d.(batch := None, applied := d.applied + held[..k], dropped := d.dropped + AsSet(held[k..]))
  }

  // ---------- the desk beside the carrier ----------

  datatype World = World(carrier: C.Carrier, desk: Desk)

  /** A carrier step says, for a boundary that raises, how many controls had been applied by then. */
  datatype Step = Submits(uuv: string) | Drains | Moves(step: C.Step, reached: nat)

  /** The cycle in the slot, once its worker has ended. */
  predicate IsRetiring(w: World, m: Step) {
    && m.Moves? && m.step.Boundaries?
    && w.carrier.slot.Some? && w.carrier.slot.value < |w.carrier.cycles|
    && w.carrier.cycles[w.carrier.slot.value].done
  }

  /** The planning phase gets as far as the controls. */
  predicate ReachesControls(c: C.Carrier, cycle: C.Cycle, hasEngine: bool) {
    !C.IsStale(c, cycle) && hasEngine && cycle.outcome.Some? && cycle.outcome.value.Returned?
  }

  function NextDesk(w: World, m: Step): Desk {
    match m
    case Submits(uuv) => Submitted(w.desk, uuv)
    case Drains =>
      if w.carrier.slot.Some? && w.carrier.slot.value in w.carrier.working then Drained(w.desk) else w.desk
    case Moves(step, reached) =>
      if IsRetiring(w, m) then
        if !ReachesControls(w.carrier, w.carrier.cycles[w.carrier.slot.value], step.boundary.hasEngine) then
          Settled(w.desk, 0)
        else if step.boundary.raises then Settled(w.desk, reached)
        else Settled(w.desk, |Held(w.desk)|)
      else if step.WorkerEnds? && step.id in w.carrier.working && step.outcome.Raised? && step.outcome.failure.isProvider
        then PutBack(w.desk)
      else w.desk
  }

  function Next(w: World, m: Step): World
    requires C.Safe(w.carrier)
  {
    World(if m.Moves? then C.Next(w.carrier, m.step) else w.carrier, NextDesk(w, m))
  }

  ghost function Run(steps: seq<Step>): (w: World)
    ensures C.Safe(w.carrier)
  {
    if steps == [] then World(C.IDLE, EMPTY)
    else
      var before, last := Run(steps[..|steps| - 1]), steps[|steps| - 1];
      hide C.Next, C.Safe, NextDesk;
      if last.Moves? then C.StepIsSafe(before.carrier, last.step); Next(before, last) else Next(before, last)
  }

  // ---------- what every run keeps ----------

  ghost predicate Rising(controls: seq<Control>) {
    forall i, j :: 0 <= i < j < |controls| && controls[i].uuv == controls[j].uuv ==> controls[i].serial < controls[j].serial
  }

  /** For every vehicle, what is in `a` was submitted before what is in `b`. */
  ghost predicate Precedes(a: seq<Control>, b: seq<Control>) {
    forall x, y :: x in a && y in b && x.uuv == y.uuv ==> x.serial < y.serial
  }

  ghost predicate InOrder(d: Desk) {
    && OnePerVehicle(d.pending) && OnePerVehicle(Held(d)) && Rising(d.applied)
    && Precedes(d.applied, Held(d)) && Precedes(d.applied, d.pending) && Precedes(Held(d), d.pending)
  }

  predicate IsGenuine(d: Desk, c: Control) { c.serial < |d.submitted| && d.submitted[c.serial] == c.uuv }

  ghost predicate IsSomewhere(d: Desk, c: Control) {
    c in d.pending || c in Held(d) || c in d.applied || c in d.dropped || c in d.superseded
  }

  predicate HasNewer(d: Desk, c: Control) {
    exists m :: 0 <= m < |d.submitted| && m > c.serial && d.submitted[m] == c.uuv
  }

  ghost predicate Accounted(d: Desk) {
    && (forall n :: 0 <= n < |d.submitted| ==> IsSomewhere(d, Control(d.submitted[n], n)))
    && (forall c :: IsSomewhere(d, c) ==> IsGenuine(d, c))
    && (forall c :: c in d.superseded ==> HasNewer(d, c))
  }

  ghost predicate DeskIsOk(d: Desk) { InOrder(d) && Accounted(d) }

  lemma SubmitIsOk(d: Desk, uuv: string)
    requires DeskIsOk(d)
    ensures DeskIsOk(Submitted(d, uuv))
  {
    hide Others, Has, HasNewer;
    var after := Submitted(d, uuv);
    assert forall c :: c in d.applied || c in Held(d) || c in d.pending ==> IsSomewhere(d, c);
    AccountGrows(d, after, uuv);
  }

  lemma AccountGrows(d: Desk, after: Desk, uuv: string)
    requires Accounted(d) && after == Submitted(d, uuv)
    ensures Accounted(after)
  {
    hide Others;
    forall n | 0 <= n < |after.submitted| ensures IsSomewhere(after, Control(after.submitted[n], n)) {
      if n < |d.submitted| { assert IsSomewhere(d, Control(d.submitted[n], n)); }
    }
    forall c | IsSomewhere(after, c) ensures IsGenuine(after, c) {
      if IsSomewhere(d, c) { assert IsGenuine(d, c); }
    }
    forall c | c in after.superseded ensures HasNewer(after, c) {
      if c in d.superseded {
        assert HasNewer(d, c);
        var m :| 0 <= m < |d.submitted| && m > c.serial && d.submitted[m] == c.uuv;
        assert after.submitted[m] == c.uuv;
      } else {
        assert IsSomewhere(d, c) && after.submitted[|d.submitted|] == c.uuv;
      }
    }
  }

  lemma DrainIsOk(d: Desk)
    requires DeskIsOk(d)
    ensures DeskIsOk(Drained(d))
  {
    hide HasNewer;
    SameAccount(d, Drained(d));
  }

  lemma SettleIsOk(d: Desk, reached: nat)
    requires DeskIsOk(d)
    ensures DeskIsOk(Settled(d, reached))
  {
    hide HasNewer;
    var after, held := Settled(d, reached), Held(d);
    var k := if reached < |held| then reached else |held|;
    assert held == held[..k] + held[k..];
    SameAccount(d, after);
  }

  lemma SameAccount(d: Desk, after: Desk)
    requires Accounted(d) && after.submitted == d.submitted && after.superseded == d.superseded
    requires forall c :: IsSomewhere(after, c) <==> IsSomewhere(d, c)
    ensures Accounted(after)
  {
    forall c | c in after.superseded ensures HasNewer(after, c) { assert HasNewer(d, c); }
  }

  lemma PutBackIsOk(d: Desk)
    requires DeskIsOk(d)
    ensures DeskIsOk(PutBack(d))
  {
    hide Missing;
    var after := PutBack(d);
    PutBackIsOnePerVehicle(d.pending, Missing(d.pending, Held(d)));
    forall n | 0 <= n < |after.submitted| ensures IsSomewhere(after, Control(after.submitted[n], n)) {
      assert IsSomewhere(d, Control(d.submitted[n], n));
    }
    forall c | IsSomewhere(after, c) ensures IsGenuine(after, c) { assert IsSomewhere(d, c); }
    forall c | c in after.superseded ensures HasNewer(after, c) { SupersededHasNewer(d, c); }
  }

  lemma SupersededHasNewer(d: Desk, c: Control)
    requires DeskIsOk(d) && c in PutBack(d).superseded
    ensures HasNewer(PutBack(d), c)
  {
    hide Missing, OnePerVehicle, Rising;
    if c in d.superseded {
      var m :| 0 <= m < |d.submitted| && m > c.serial && d.submitted[m] == c.uuv;
      assert PutBack(d).submitted[m] == c.uuv;
    } else {
      var newer :| newer in d.pending && newer.uuv == c.uuv;
      assert IsSomewhere(d, newer) && IsGenuine(d, newer);
      assert PutBack(d).submitted[newer.serial] == c.uuv;
    }
  }

  lemma PutBackIsOnePerVehicle(pending: seq<Control>, missing: seq<Control>)
    requires OnePerVehicle(pending) && OnePerVehicle(missing)
    requires forall c :: c in missing ==> !Has(pending, c.uuv)
    ensures OnePerVehicle(pending + missing)
  {
    var all := pending + missing;
    forall i, j | 0 <= i < j < |all| ensures all[i].uuv != all[j].uuv {
      if i < |pending| <= j {
        assert all[i] in pending && all[j] in missing;
      }
    }
  }

  lemma StepIsOk(w: World, m: Step)
    requires DeskIsOk(w.desk)
    ensures DeskIsOk(NextDesk(w, m))
  {
    hide DeskIsOk, Submitted, Drained, PutBack, Settled;
    match m
    case Submits(uuv) => SubmitIsOk(w.desk, uuv);
    case Drains => DrainIsOk(w.desk);
    case Moves(step, reached) =>
      SettleIsOk(w.desk, 0);
      SettleIsOk(w.desk, reached);
      SettleIsOk(w.desk, |Held(w.desk)|);
      PutBackIsOk(w.desk);
  }

  lemma {:induction false} RunIsOk(steps: seq<Step>)
    ensures DeskIsOk(Run(steps).desk)
  {
    hide NextDesk, DeskIsOk, C.Safe, C.Next;
    if steps == [] {
      NothingSubmitted();
    } else {
      RunIsOk(steps[..|steps| - 1]);
      StepIsOk(Run(steps[..|steps| - 1]), steps[|steps| - 1]);
    }
  }

  lemma NothingSubmitted()
    ensures DeskIsOk(EMPTY)
  {}

  /** On every run: the queue holds at most one control per vehicle, and the controls of a vehicle reach
      the engine in the order they were submitted. */
  lemma AppliedInOrder(steps: seq<Step>)
    ensures OnePerVehicle(Run(steps).desk.pending) && Rising(Run(steps).desk.applied)
  {
    hide Run;
    RunIsOk(steps);
  }

  // ---------- where controls go ----------

  /** A submission joins the queue behind the controls of all other vehicles, in their order. */
  lemma {:induction false} OthersKeepOrder(controls: seq<Control>, uuv: string, other: string)
    ensures OfVehicle(Others(controls, uuv), other) == if other == uuv then [] else OfVehicle(controls, other)
  {
    hide OfVehicle, OnePerVehicle;
    NoVehicle(other);
    if controls != [] {
      var n := |controls| - 1;
      OthersKeepOrder(controls[..n], uuv, other);
      assert controls == controls[..n] + [controls[n]];
      OfVehicleOfOneMore(controls[..n], controls[n], other);
      OfVehicleOfOneMore(Others(controls[..n], uuv), controls[n], other);
      NothingAdded(Others(controls[..n], uuv));
    }
  }

  lemma NoVehicle(uuv: string)
    ensures OfVehicle([], uuv) == []
  {}

  lemma NothingAdded(controls: seq<Control>)
    ensures controls + [] == controls
  {}

  function OfVehicle(controls: seq<Control>, uuv: string): seq<Control> {
    if controls == [] then []
    else
      var n := |controls| - 1;
      OfVehicle(controls[..n], uuv) + if controls[n].uuv == uuv then [controls[n]] else []
  }

  lemma OfVehicleOfOneMore(controls: seq<Control>, c: Control, uuv: string)
    ensures OfVehicle(controls + [c], uuv) == OfVehicle(controls, uuv) + if c.uuv == uuv then [c] else []
  {
    assert (controls + [c])[..|controls|] == controls;
  }

  /** What a submission, a drain by the worker and a provider failure do to the queue and to the cycle in flight. */
  lemma StepTells(w: World, m: Step)
    ensures var d, e := w.desk, NextDesk(w, m);
      && (m.Submits? ==>
            && e.pending != [] && e.pending[|e.pending| - 1] == Control(m.uuv, |d.submitted|)
            && e.submitted == d.submitted + [m.uuv] && Held(e) == Held(d)
            && forall c :: c in e.pending <==> c == Control(m.uuv, |d.submitted|) || (c in d.pending && c.uuv != m.uuv))
      && (m.Drains? && d.batch.None? && w.carrier.slot.Some? && w.carrier.slot.value in w.carrier.working ==>
            e.pending == [] && e.batch == Some(d.pending))
      && (FailsAtProvider(w, m) ==>
            && Held(e) == [] && d.pending <= e.pending && e.dropped == d.dropped && e.applied == d.applied
            && forall c :: c in e.pending <==> c in d.pending || (c in Held(d) && !Has(d.pending, c.uuv)))
  {
    hide Others, Missing, Has;
  }

  /** The worker of the cycle in flight ends with a failure of the model provider. */
  predicate FailsAtProvider(w: World, m: Step) {
    && m.Moves? && m.step.WorkerEnds? && m.step.id in w.carrier.working
    && m.step.outcome.Raised? && m.step.outcome.failure.isProvider
  }

  /** A boundary at which nothing is refused sends every control of the retiring cycle to the engine, in order; one
      that raises sends those before the refused one. */
  lemma BoundaryTells(w: World, m: Step)
    requires IsRetiring(w, m)
    ensures var cycle, boundary, held := w.carrier.cycles[w.carrier.slot.value], m.step.boundary, Held(w.desk);
      var planned := !C.IsStale(w.carrier, cycle) && boundary.hasEngine && cycle.outcome.Some? && cycle.outcome.value.Returned?;
      && Held(NextDesk(w, m)) == [] && NextDesk(w, m).pending == w.desk.pending
      && (planned && !boundary.raises ==> NextDesk(w, m).applied == w.desk.applied + held)
      && (planned && boundary.raises ==>
            NextDesk(w, m).applied == w.desk.applied + held[..if m.reached < |held| then m.reached else |held|])
      && (!planned ==> NextDesk(w, m).applied == w.desk.applied)
  {
    hide C.IsStale, Others, Missing, Has;
    assert Held(w.desk)[..|Held(w.desk)|] == Held(w.desk);
    assert w.desk.applied + Held(w.desk)[..0] == w.desk.applied;
  }

  // ---------- exactly when a control is lost ----------

  /** A boundary loses a control of the cycle it retires when that cycle has gone stale without an epoch,
      its worker had raised, the engine is gone, or applying the plan raises before the control's turn. */
  ghost predicate Loses(w: World, m: Step, c: Control) {
    && IsRetiring(w, m)
    && var cycle, boundary := w.carrier.cycles[w.carrier.slot.value], m.step.boundary;
       exists i :: 0 <= i < |Held(w.desk)| && Held(w.desk)[i] == c
         && (C.IsStale(w.carrier, cycle) || cycle.outcome.None? || cycle.outcome.value.Raised? || !boundary.hasEngine
             || (boundary.raises && m.reached <= i))
  }

  lemma LosesIff(w: World, m: Step, c: Control)
    ensures c in NextDesk(w, m).dropped <==> c in w.desk.dropped || Loses(w, m, c)
  {
    hide C.IsStale, Others, Missing, Has;
    if IsRetiring(w, m) {
      var held := Held(w.desk);
      forall k: nat | k <= |held| ensures c in held[k..] <==> exists i :: k <= i < |held| && held[i] == c {
        TailMembers(held, k, c);
      }
      assert held[0..] == held;
    }
  }

  lemma TailMembers(held: seq<Control>, k: nat, c: Control)
    requires k <= |held|
    ensures c in held[k..] <==> exists i :: k <= i < |held| && held[i] == c
  {
    if i :| k <= i < |held| && held[i] == c { assert held[k..][i - k] == c; }
  }

  ghost predicate LosesAt(steps: seq<Step>, k: nat, c: Control) {
    k < |steps| && Loses(Run(steps[..k]), steps[k], c)
  }

  lemma LosesAtPrefix(steps: seq<Step>, n: nat, k: nat, c: Control)
    requires k < n <= |steps|
    ensures LosesAt(steps[..n], k, c) <==> LosesAt(steps, k, c)
  {
    hide Run, Loses;
    assert steps[..n][..k] == steps[..k] && steps[..n][k] == steps[k];
  }

  /** On every run a control is dropped if and only if some boundary of the run lost it in one of those
      ways. */
  lemma {:induction false} DroppedIff(steps: seq<Step>, c: Control)
    ensures c in Run(steps).desk.dropped <==> exists k :: LosesAt(steps, k, c)
  {
    hide NextDesk, Loses, C.Safe, C.Next;
    if steps == [] {
    } else {
      var n := |steps| - 1;
      DroppedIff(steps[..n], c);
      LosesIff(Run(steps[..n]), steps[n], c);
      assert LosesAt(steps, n, c) <==> Loses(Run(steps[..n]), steps[n], c);
      hide Run, LosesAt;
      forall k: nat | k < n ensures LosesAt(steps[..n], k, c) <==> LosesAt(steps, k, c) { LosesAtPrefix(steps, n, k, c); }
      LosesAtBounds(steps, c);
      LosesAtBounds(steps[..n], c);
    }
  }

  lemma LosesAtBounds(steps: seq<Step>, c: Control)
    ensures forall k: nat :: LosesAt(steps, k, c) ==> k < |steps|
  {}

  /** On every run the newest control of a vehicle is queued, in flight or applied, unless some boundary
      lost it. */
  lemma NewestIsKept(steps: seq<Step>, n: nat)
    requires n < |Run(steps).desk.submitted| && !HasNewer(Run(steps).desk, Control(Run(steps).desk.submitted[n], n))
    ensures var d := Run(steps).desk;
      var c := Control(d.submitted[n], n);
      || c in d.pending || c in Held(d) || c in d.applied
      || exists k :: LosesAt(steps, k, c)
  {
    hide InOrder, HasNewer, Run, LosesAt;
    RunIsOk(steps);
    var c := Control(Run(steps).desk.submitted[n], n);
    assert IsSomewhere(Run(steps).desk, c);
    DroppedIff(steps, c);
  }

  /** An input: the cycle that drained the control goes stale before its boundary. */
  function StaleRun(): seq<Step> {
    var around := C.Surroundings(false, true, None);
    [Moves(C.Offered(Situation(1, 0, []), false, around), 0),
     Submits("u"),
     Drains,
     Moves(C.Offered(Situation(2, 0, []), false, around), 0),
     Moves(C.WorkerEnds(0, C.Returned(None)), 0),
     Moves(C.Boundaries(C.Boundary(None, true, false, false), around), 0)]
  }

  lemma AfterTheDrain()
    ensures var w := Run(StaleRun()[..3]);
      && w.carrier.slot == Some(0) && w.carrier.working == {0} && w.carrier.mailbox.None? && !w.carrier.closing
      && w.carrier.cycles == [C.Cycle(Situation(1, 0, []), None, false, false, false, None)]
      && w.carrier.situation == Some(Situation(1, 0, []))
      && w.desk == Desk(["u"], [], Some([Control("u", 0)]), [], {}, {})
  {
    hide C.Safe;
    FirstSubmission("u");
    var steps := StaleRun();
    assert steps[..1][..0] == [] && steps[..2][..1] == steps[..1] && steps[..3][..2] == steps[..2];
    RunUnfolds(steps[..1]);
    RunUnfolds(steps[..2]);
    RunUnfolds(steps[..3]);
    assert Merge(Situation(1, 0, []), None) == Situation(1, 0, []);
  }

  lemma BeforeTheBoundary()
    ensures var w := Run(StaleRun()[..5]);
      && w.carrier.slot == Some(0) && |w.carrier.cycles| == 1
      && w.carrier.cycles[0].done && C.IsStale(w.carrier, w.carrier.cycles[0])
      && w.desk == Desk(["u"], [], Some([Control("u", 0)]), [], {}, {})
  {
    AfterTheDrain();
    hide C.Safe, Merge, Others, Missing;
    var steps := StaleRun();
    assert steps[..4][..3] == steps[..3] && steps[..5][..4] == steps[..4];
    RunUnfolds(steps[..4]);
    RunUnfolds(steps[..5]);
    C.MergeKeepsRevision(Situation(2, 0, []), None);
  }

  lemma FirstSubmission(uuv: string)
    ensures Submitted(EMPTY, uuv) == Desk([uuv], [Control(uuv, 0)], None, [], {}, {})
  {
    assert Submitted(EMPTY, uuv).superseded == {};
  }

  lemma StaleCycleLosesAControl()
    ensures var d := Run(StaleRun()).desk;
      Control("u", 0) in d.dropped && d.pending == [] && Held(d) == [] && d.applied == []
  {
    hide C.Safe, C.Next, C.IsStale;
    var steps := StaleRun();
    BeforeTheBoundary();
    assert steps[..5] == steps[..|steps| - 1];
    RunUnfolds(steps);
    assert [Control("u", 0)][0..] == [Control("u", 0)];
  }

  lemma RunUnfolds(steps: seq<Step>)
    requires steps != []
    ensures Run(steps) == Next(Run(steps[..|steps| - 1]), steps[|steps| - 1]) && Run([]) == World(C.IDLE, EMPTY)
  {
    hide C.Next, C.Safe, NextDesk;
  }

  // ---------- the imperative form ----------

  /** The control queue of `CarrierRuntime`, with the fate of what left it. */
  class ControlQueue {
    var pending: seq<Control>
    ghost var submitted: seq<string>
    ghost var batch: Option<seq<Control>>
    ghost var applied: seq<Control>
    ghost var dropped: set<Control>
    ghost var superseded: set<Control>

    ghost function Model(): Desk
      reads this
    {
      Desk(submitted, pending, batch, applied, dropped, superseded)
    }

    constructor ()
      ensures Model() == EMPTY && DeskIsOk(Model())
    {
      pending, submitted, batch, applied, dropped, superseded := [], [], None, [], {}, {};
      new;
      NothingSubmitted();
    }

    /** `submit_sensor_mode`, once the request is valid; `serial` counts the submissions. */
    method SubmitSensorMode(uuv: string, serial: nat)
      requires DeskIsOk(Model()) && serial == |submitted|
      modifies this
      ensures Model() == Submitted(old(Model()), uuv) && DeskIsOk(Model())
    {
      hide DeskIsOk;
      SubmitIsOk(Model(), uuv);
      superseded := superseded + set c | c in pending && c.uuv == uuv;
      pending := Others(pending, uuv);
      pending := pending + [Control(uuv, serial)];
      submitted := submitted + [uuv];
    }

    /** `drain_sensor_controls`, for a cycle; the previous one has ended. */
    method DrainSensorControls() returns (controls: seq<Control>)
      requires DeskIsOk(Model()) && batch.None?
      modifies this`pending, this`batch
      ensures Model() == Drained(old(Model())) && batch == Some(controls) && DeskIsOk(Model())
    {
      hide DeskIsOk;
      DrainIsOk(Model());
      controls := pending;
      pending := [];
      batch := Some(controls);
    }

    /** `requeue_sensor_controls`, with what the failed cycle had drained. */
    method RequeueSensorControls(controls: seq<Control>)
      requires DeskIsOk(Model()) && batch == Some(controls)
      modifies this
      ensures Model() == PutBack(old(Model())) && DeskIsOk(Model())
    {
      hide DeskIsOk;
      PutBackIsOk(Model());
      superseded := superseded + set c | c in controls && Has(pending, c.uuv);
      pending := pending + Missing(pending, controls);
      batch := None;
    }

    /** The loop over the controls of a cycle; `refusesAt` is the control, if any, at which the engine
        raises. What is left then goes nowhere. */
    method ApplyControls(controls: seq<Control>, refusesAt: Option<nat>) returns (raised: bool)
      requires DeskIsOk(Model()) && batch == Some(controls)
      modifies this`applied, this`batch, this`dropped
      ensures raised == (refusesAt.Some? && refusesAt.value < |controls|)
      ensures Model() == Settled(old(Model()), if raised then refusesAt.value else |controls|) && DeskIsOk(Model())
    {
      hide DeskIsOk;
      ghost var start := Model();
      var i := 0;
      while i < |controls| && refusesAt != Some(i)
        invariant 0 <= i <= |controls| && (refusesAt.Some? ==> refusesAt.value >= i || refusesAt.value >= |controls|)
        invariant Model() == start.(applied := start.applied + controls[..i])
      {
        assert controls[..i + 1] == controls[..i] + [controls[i]];
        applied := applied + [controls[i]];
        i := i + 1;
      }
      raised := i < |controls|;
      assert i == if raised then refusesAt.value else |controls|;
      dropped := dropped + AsSet(controls[i..]);
      batch := None;
      SettleIsOk(start, i);
    }
  }
}

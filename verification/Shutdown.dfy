/** Closing the loop: any threads may call `close`, workers come and go between its
    steps, and any step may raise.
  */
module Shutdown {
  import opened Prelude

  /** What is to be closed, in order, by identity; the same object may stand in several places, some places
      are empty, and some objects have nothing to close. */
  datatype Plant = Plant(resources: seq<Option<int>>, closables: set<int>)

  /** Where a thread is inside `_close_once`. */
  datatype Stage =
    | Entered
    | Flagged
    | MemoryGone
    | WriterGone
    | CarrierGone
    | Closing(next: nat, failed: bool)
    | Ending(ok: bool)

  /** One call of a resource's `close`, and whether any worker was alive then. */
  datatype Call = Call(id: int, workersAlive: bool, ok: bool)

  /** The resources done with, and every call made. */
  datatype Books = Books(completed: set<int>, calls: seq<Call>)

  datatype Workers = Workers(memory: bool, writer: bool, carrier: bool, local: bool) {
    predicate AnyAlive() { memory || writer || carrier || local }
  }

  datatype Starter = Carrier | LocalBrains

  datatype Loop = Loop(
    inside: map<int, Stage>,  // the threads inside `_close_once`
    inProgress: bool,
    closing: bool,
    closed: bool,
    alive: Workers,
    lock: Option<Starter>,    // a start that has seen the closing flag down holds the lock
    books: Books)

  function Started(memory: bool, writer: bool): Loop {
    Loop(map[], false, false, false, Workers(memory, writer, false, false), None, Books({}, []))
  }

  // ---------- the steps ----------

  /** The nested `close_resource`. */
  function CloseResource(p: Plant, books: Books, workersAlive: bool, resource: Option<int>, fails: bool): Books {
    if resource.None? || resource.value in books.completed then books
    else if resource.value !in p.closables then books.(completed := books.completed + {resource.value})
    else Books(
      if fails then books.completed else books.completed + {resource.value},
      books.calls + [Call(resource.value, workersAlive, !fails)])
  }

  /** Whether that call raised. */
  predicate Raises(p: Plant, books: Books, resource: Option<int>, fails: bool) {
    resource.Some? && resource.value !in books.completed && resource.value in p.closables && fails
  }

  /** Where one step of `_close_once` leads; `stops` answers the two worker stops, `fails` a resource. */
  function Onward(p: Plant, s: Loop, stage: Stage, stops: bool, fails: bool): Stage {
    match stage
    case Entered => if s.lock.Some? then Entered else Flagged
    case Flagged => if stops then MemoryGone else Ending(false)
    case MemoryGone => if stops then WriterGone else Ending(false)
    case WriterGone => if s.alive.carrier then Ending(false) else CarrierGone
    case CarrierGone => if s.alive.local then Ending(false) else Closing(0, false)
    case Closing(next, failed) =>
      if next < |p.resources| then Closing(next + 1, failed || Raises(p, s.books, p.resources[next], fails))
      else Ending(!failed)
    case Ending(ok) => Ending(ok)
  }

  /** What that step does besides. */
  function Effect(p: Plant, s: Loop, stage: Stage, stops: bool, fails: bool): Loop {
    match stage
    case Entered => if s.lock.Some? then s else s.(closing := true)
    case Flagged => if stops then s.(alive := s.alive.(memory := false)) else s
    case MemoryGone => if stops then s.(alive := s.alive.(writer := false)) else s
    case WriterGone => s
    case CarrierGone => s
    case Closing(next, _) =>
      if next < |p.resources| then
        s.(books := CloseResource(p, s.books, s.alive.AnyAlive(), p.resources[next], fails))
      else s
    case Ending(_) => s
  }

  function Proceed(p: Plant, s: Loop, t: int, stops: bool, fails: bool): Loop
    requires t in s.inside
  {
    var stage := s.inside[t];
    if stage.Ending? then s.(inside := s.inside - {t}, inProgress := false, closed := s.closed || stage.ok)
    else Effect(p, s, stage, stops, fails).(inside := s.inside[t := Onward(p, s, stage, stops, fails)])
  }

  datatype Step =
    | Enters(t: int)
    | Proceeds(t: int, stops: bool, fails: bool)
    | Aborts(t: int)
    | Announced // `abort` raises the closing flag, with the lock or without it
    | Checks(starter: Starter)
    | Starts
    | Ends(starter: Starter)
    | MemoryEnds
    | WriterEnds

  /** A thread that finds a close in progress waits and tries again. A start checks the closing flag and
      starts its worker under one hold of the lock. */
  function Next(p: Plant, s: Loop, step: Step): Loop {
    match step
    case Enters(t) =>
      if s.closed || s.inProgress || t in s.inside then s else s.(inProgress := true, inside := s.inside[t := Entered])
    case Proceeds(t, stops, fails) => if t in s.inside then Proceed(p, s, t, stops, fails) else s
    case Aborts(t) => if t in s.inside then s.(inside := s.inside - {t}, inProgress := false) else s
    case Announced => s.(closing := true)
    case Checks(starter) => if s.closing || s.lock.Some? then s else s.(lock := Some(starter))
    case Starts =>
      if s.lock == Some(Carrier) then s.(lock := None, alive := s.alive.(carrier := true))
      else if s.lock == Some(LocalBrains) then s.(lock := None, alive := s.alive.(local := true))
      else s
    case Ends(starter) =>
      s.(alive := if starter == Carrier then s.alive.(carrier := false) else s.alive.(local := false))
    case MemoryEnds => s.(alive := s.alive.(memory := false))
    case WriterEnds => s.(alive := s.alive.(writer := false))
  }

  function Run(p: Plant, start: Loop, steps: seq<Step>): Loop {
    if steps == [] then start else Next(p, Run(p, start, steps[..|steps| - 1]), steps[|steps| - 1])
  }

  // ---------- what every run keeps ----------

  ghost predicate OneInside(s: Loop) {
    && (s.inProgress <==> s.inside != map[])
    && forall t, u :: t in s.inside && u in s.inside ==> t == u
  }

  /** Closing, and no start left that had not noticed. */
  predicate NoStarts(s: Loop) { s.closing && s.lock.None? }

  /** How far the workers are gone at each stage. */
  ghost predicate StageHolds(p: Plant, s: Loop, stage: Stage) {
    match stage
    case Entered => true
    case Flagged => NoStarts(s)
    case MemoryGone => NoStarts(s) && !s.alive.memory
    case WriterGone => NoStarts(s) && !s.alive.memory && !s.alive.writer
    case CarrierGone => NoStarts(s) && !s.alive.memory && !s.alive.writer && !s.alive.carrier
    case Closing(next, failed) =>
      && NoStarts(s) && !s.alive.AnyAlive()
      && next <= |p.resources|
      && (failed || AllCompleted(p, s.books, next))
    case Ending(ok) => ok ==> AllCompleted(p, s.books, |p.resources|)
  }

  ghost predicate AllCompleted(p: Plant, books: Books, n: nat)
    requires n <= |p.resources|
  {
    forall k :: 0 <= k < n && p.resources[k].Some? ==> p.resources[k].value in books.completed
  }

  /** Only quiet calls; a success is final, and is what completes a closable resource. */
  ghost predicate CallsAreOk(p: Plant, books: Books) {
    && (forall k :: 0 <= k < |books.calls| ==> !books.calls[k].workersAlive)
    && (forall j, k :: 0 <= j < k < |books.calls| && books.calls[j].ok ==> books.calls[j].id != books.calls[k].id)
    && (forall k :: 0 <= k < |books.calls| && books.calls[k].ok ==> books.calls[k].id in books.completed)
    && (forall id :: id in books.completed && id in p.closables ==> Succeeded(books, id))
  }

  ghost predicate Succeeded(books: Books, id: int) {
    exists k :: 0 <= k < |books.calls| && books.calls[k] == Call(id, false, true)
  }

  ghost predicate BooksAreOk(p: Plant, s: Loop) {
    CallsAreOk(p, s.books) && (s.closed ==> AllCompleted(p, s.books, |p.resources|))
  }

  ghost predicate Sound(p: Plant, s: Loop) {
    OneInside(s) && BooksAreOk(p, s) && forall t :: t in s.inside ==> StageHolds(p, s, s.inside[t])
  }

  lemma CloseResourceIsOk(p: Plant, books: Books, resource: Option<int>, fails: bool)
    requires CallsAreOk(p, books)
    ensures CallsAreOk(p, CloseResource(p, books, false, resource, fails))
  {
    var after := CloseResource(p, books, false, resource, fails);
    if after.calls != books.calls {
      forall id | id in after.completed && id in p.closables ensures Succeeded(after, id) {
        if id in books.completed {
          assert Succeeded(books, id);
          var k :| 0 <= k < |books.calls| && books.calls[k] == Call(id, false, true);
          assert after.calls[k] == Call(id, false, true);
        } else {
          assert after.calls[|books.calls|] == Call(id, false, true);
        }
      }
    }
  }

  lemma CloseResourceCompletes(p: Plant, books: Books, workersAlive: bool, resource: Option<int>, fails: bool)
    ensures var after := CloseResource(p, books, workersAlive, resource, fails);
      && books.completed <= after.completed && books.calls <= after.calls
      && (resource.Some? && !Raises(p, books, resource, fails) ==> resource.value in after.completed)
  {}

  lemma CompletedGrows(p: Plant, books: Books, next: nat, fails: bool)
    requires next < |p.resources|
    ensures var after := CloseResource(p, books, false, p.resources[next], fails);
      && (AllCompleted(p, books, |p.resources|) ==> AllCompleted(p, after, |p.resources|))
      && (AllCompleted(p, books, next) && !Raises(p, books, p.resources[next], fails) ==> AllCompleted(p, after, next + 1))
  {
    hide Raises;
    CloseResourceCompletes(p, books, false, p.resources[next], fails);
  }

  lemma OnlyThread(s: Loop, t: int)
    requires OneInside(s) && t in s.inside
    ensures s.inProgress && s.inside == map[t := s.inside[t]] && s.inside - {t} == map[]
    ensures forall stage :: s.inside[t := stage] == map[t := stage]
  {
    assert forall u :: u in s.inside <==> u == t;
  }

  lemma OneIsInside(s: Loop, t: int, stage: Stage)
    requires s.inside == map[t := stage] && s.inProgress
    ensures OneInside(s)
  {
    assert t in s.inside;
  }

  /** A stage's step leaves the books in order and reaches what the next stage promises. */
  lemma OnwardHolds(p: Plant, s: Loop, stage: Stage, stops: bool, fails: bool)
    requires BooksAreOk(p, s) && StageHolds(p, s, stage)
    ensures var after := Effect(p, s, stage, stops, fails);
      BooksAreOk(p, after) && StageHolds(p, after, Onward(p, s, stage, stops, fails))
  {
    hide CallsAreOk, CloseResource, Raises;
    if stage.Closing? && stage.next < |p.resources| {
      CloseResourceIsOk(p, s.books, p.resources[stage.next], fails);
      CompletedGrows(p, s.books, stage.next, fails);
    }
  }

  lemma ProceedIsSound(p: Plant, s: Loop, t: int, stops: bool, fails: bool)
    requires Sound(p, s) && t in s.inside
    ensures Sound(p, Proceed(p, s, t, stops, fails))
  {
    OnlyThread(s, t);
    EffectTouches(p, s, s.inside[t], stops, fails);
    OnwardHolds(p, s, s.inside[t], stops, fails);
    hide BooksAreOk, StageHolds, Effect, Onward, OneInside;
    var after, stage := Proceed(p, s, t, stops, fails), s.inside[t];
    if stage.Ending? {
      LeavingIsOk(p, s, after, stage.ok);
    } else {
      var onward := Onward(p, s, stage, stops, fails);
      OneIsInside(after, t, onward);
      SameBooks(p, Effect(p, s, stage, stops, fails), after, onward);
    }
  }

  lemma LeavingIsOk(p: Plant, s: Loop, after: Loop, ok: bool)
    requires BooksAreOk(p, s) && StageHolds(p, s, Ending(ok))
    requires after.books == s.books && after.closed == (s.closed || ok)
    requires after.inside == map[] && !after.inProgress
    ensures BooksAreOk(p, after) && OneInside(after)
  {}

  lemma SameBooks(p: Plant, a: Loop, b: Loop, stage: Stage)
    requires BooksAreOk(p, a) && StageHolds(p, a, stage)
    requires b == a.(inside := b.inside, inProgress := b.inProgress)
    ensures BooksAreOk(p, b) && StageHolds(p, b, stage)
  {
    hide CallsAreOk, AllCompleted;
  }

  lemma EffectTouches(p: Plant, s: Loop, stage: Stage, stops: bool, fails: bool)
    ensures var after := Effect(p, s, stage, stops, fails);
      && after.inside == s.inside && after.inProgress == s.inProgress && after.closed == s.closed
      && (NoStarts(s) ==> NoStarts(after) && IsGoneAfter(s.alive, after.alive))
  {
    hide CloseResource;
  }

  lemma StepIsSound(p: Plant, s: Loop, step: Step)
    requires Sound(p, s)
    ensures Sound(p, Next(p, s, step))
  {
    hide BooksAreOk, Proceed, OneInside, StageHolds;
    var after := Next(p, s, step);
    match step
    case Proceeds(t, stops, fails) => if t in s.inside { ProceedIsSound(p, s, t, stops, fails); }
    case Aborts(t) =>
      if t in s.inside {
        OnlyThread(s, t);
        NobodyInside(p, s, after);
      }
    case Enters(t) =>
      if after != s {
        NewlyInside(p, s, after, t);
      }
    case _ => OutsideStepIsSound(p, s, step);
  }

  lemma NobodyInside(p: Plant, s: Loop, after: Loop)
    requires BooksAreOk(p, s) && after == s.(inside := map[], inProgress := false)
    ensures Sound(p, after)
  {
    hide CallsAreOk, AllCompleted;
  }

  lemma NewlyInside(p: Plant, s: Loop, after: Loop, t: int)
    requires Sound(p, s) && !s.inProgress && after == s.(inside := s.inside[t := Entered], inProgress := true)
    ensures Sound(p, after)
  {
    hide CallsAreOk, AllCompleted;
    assert after.inside == map[t := Entered];
    assert t in after.inside;
  }

  /** What the workers and the flag do leaves every stage intact. */
  lemma OutsideStepIsSound(p: Plant, s: Loop, step: Step)
    requires Sound(p, s) && !step.Enters? && !step.Proceeds? && !step.Aborts?
    ensures Sound(p, Next(p, s, step))
  {
    hide CallsAreOk, AllCompleted, Proceed;
  }

  lemma {:induction false} RunIsSound(p: Plant, memory: bool, writer: bool, steps: seq<Step>)
    ensures Sound(p, Run(p, Started(memory, writer), steps))
  {
    hide Next, Sound;
    if steps == [] {
      StartIsSound(p, memory, writer);
    } else {
      RunIsSound(p, memory, writer, steps[..|steps| - 1]);
      StepIsSound(p, Run(p, Started(memory, writer), steps[..|steps| - 1]), steps[|steps| - 1]);
    }
  }

  lemma StartIsSound(p: Plant, memory: bool, writer: bool)
    ensures Sound(p, Started(memory, writer))
  {}

  /** Over any interleaving of `close` calls, failures and workers: at most one thread is inside
      `_close_once`; no resource is closed while a worker is alive; after a resource's close succeeded it is
      never called again; and once closed, every resource is completed, the closable ones by a success. */
  lemma CloseIsSafe(p: Plant, memory: bool, writer: bool, steps: seq<Step>)
    ensures var s := Run(p, Started(memory, writer), steps);
      && (forall t, u :: t in s.inside && u in s.inside ==> t == u)
      && (forall k :: 0 <= k < |s.books.calls| ==> !s.books.calls[k].workersAlive)
      && (forall j, k :: 0 <= j < k < |s.books.calls| && s.books.calls[j].ok ==> s.books.calls[j].id != s.books.calls[k].id)
      && (s.closed ==> forall r :: r in p.resources && r.Some? ==>
            r.value in s.books.completed && (r.value in p.closables ==> Succeeded(s.books, r.value)))
  {
    hide Run, Succeeded, StageHolds;
    RunIsSound(p, memory, writer, steps);
  }

  /** Once closed, and nobody inside, no step of any thread ever closes anything again. */
  lemma {:induction false} ClosedForGood(p: Plant, s: Loop, steps: seq<Step>)
    requires s.closed && s.inside == map[]
    ensures var after := Run(p, s, steps);
      after.closed && after.inside == map[] && after.books == s.books
  {
    if steps != [] {
      ClosedForGood(p, s, steps[..|steps| - 1]);
      ClosedStep(p, Run(p, s, steps[..|steps| - 1]), steps[|steps| - 1]);
    }
    hide Next;
  }

  lemma ClosedStep(p: Plant, s: Loop, step: Step)
    requires s.closed && s.inside == map[]
    ensures var after := Next(p, s, step); after.closed && after.inside == map[] && after.books == s.books
  {}

  /** One thread alone inside, with the workers stopping when asked and no thread alive, gets as far as the resources. */
  lemma WillingStepsLead(p: Plant, s: Loop, t: int)
    requires s.inside == map[t := Entered] && s.lock.None? && !s.alive.carrier && !s.alive.local
    ensures var after := Run(p, s, seq(5, i => Proceeds(t, true, false)));
      && after.inside == map[t := Closing(0, false)] && after.books == s.books && after.closing
      && !after.alive.AnyAlive()
  {
    var step := Proceeds(t, true, false);
    var steps := seq(5, i => step);
    hide Next;
    forall k | 0 <= k < 5 ensures Run(p, s, steps[..k + 1]) == Next(p, Run(p, s, steps[..k]), step) {
      assert steps[..k + 1][..k] == steps[..k];
    }
    assert steps[..0] == [] && steps[..5] == steps;
    WillingStep(p, s, t);
    WillingStep(p, Run(p, s, steps[..1]), t);
    WillingStep(p, Run(p, s, steps[..2]), t);
    WillingStep(p, Run(p, s, steps[..3]), t);
    WillingStep(p, Run(p, s, steps[..4]), t);
  }

  /** One of those steps. */
  lemma WillingStep(p: Plant, s: Loop, t: int)
    requires t in s.inside && s.inside == map[t := s.inside[t]] && s.lock.None? && !s.alive.carrier && !s.alive.local
    requires !s.inside[t].Closing? && !s.inside[t].Ending?
    ensures var after, stage := Next(p, s, Proceeds(t, true, false)), s.inside[t];
      && after.inside == map[t := match stage case Entered => Flagged case Flagged => MemoryGone
                                  case MemoryGone => WriterGone case WriterGone => CarrierGone case _ => Closing(0, false)]
      && after.books == s.books && after.lock.None? && !after.alive.carrier && !after.alive.local
      && after.closing == (s.closing || stage.Entered?)
      && after.alive.memory == (s.alive.memory && !stage.Flagged?)
      && after.alive.writer == (s.alive.writer && !stage.MemoryGone?)
  {}

  ghost predicate IsGoneAfter(before: Workers, after: Workers) {
    && (!before.memory ==> !after.memory) && (!before.writer ==> !after.writer)
    && (!before.carrier ==> !after.carrier) && (!before.local ==> !after.local)
  }

  /** No worker comes back: once the flag was raised under the lock, a worker found gone stays gone. */
  lemma {:induction false} GoneStaysGone(p: Plant, s: Loop, steps: seq<Step>)
    requires NoStarts(s)
    ensures NoStarts(Run(p, s, steps)) && IsGoneAfter(s.alive, Run(p, s, steps).alive)
  {
    if steps != [] {
      GoneStaysGone(p, s, steps[..|steps| - 1]);
      GoneStep(p, Run(p, s, steps[..|steps| - 1]), steps[|steps| - 1]);
    }
    hide Next;
  }

  lemma GoneStep(p: Plant, s: Loop, step: Step)
    requires NoStarts(s)
    ensures NoStarts(Next(p, s, step)) && IsGoneAfter(s.alive, Next(p, s, step).alive)
  {
    hide Effect, Onward;
    if step.Proceeds? && step.t in s.inside {
      EffectTouches(p, s, s.inside[step.t], step.stops, step.fails);
    }
  }

  // ---------- the imperative form ----------

  /** What a close comes to: done, a worker or thread outlived the wait, or a resource's failure is raised. */
  datatype CloseResult = AllClosed | StillAlive | Raised

  /** The shutdown fields of `_AgentLoop`; `inside` says where each thread stands. */
  class LoopCloser {
    const plant: Plant
    ghost var inside: map<int, Stage>
    var inProgress: bool
    var closing: bool
    var closed: bool
    var alive: Workers
    var lock: Option<Starter>
    var completed: set<int>
    ghost var calls: seq<Call>

    ghost function Model(): Loop
      reads this
    {
      Loop(inside, inProgress, closing, closed, alive, lock, Books(completed, calls))
    }

    constructor (plant: Plant, memory: bool, writer: bool)
      ensures this.plant == plant && Model() == Started(memory, writer)
    {
      this.plant, alive := plant, Workers(memory, writer, false, false);
      inside, inProgress, closing, closed := map[], false, false, false;
      lock, completed, calls := None, {}, [];
    }

    /** The nested `close_resource`; `fails` is what the resource does. */
    method CloseOne(resource: Option<int>, fails: bool) returns (raised: bool)
      modifies this`completed, this`calls
      ensures Books(completed, calls)
           == CloseResource(plant, Books(old(completed), old(calls)), alive.AnyAlive(), resource, fails)
      ensures raised == Raises(plant, Books(old(completed), old(calls)), resource, fails)
    {
      if resource.None? || resource.value in completed {
        return false;
      }
      var id := resource.value;
      if id !in plant.closables {
        completed := completed + {id};
        return false;
      }
      calls := calls + [Call(id, alive.AnyAlive(), !fails)];
      if fails {
        return true;
      }
      completed := completed + {id};
      return false;
    }

    /** Under the lock: no worker starts from here on. */
    method RaiseFlag(t: int)
      requires Sound(plant, Model()) && t in inside && inside[t] == Entered && lock.None?
      modifies this`closing, this`inside
      ensures Sound(plant, Model()) && t in inside && inside[t] == Flagged
    {
      hide Sound;
      ProceedIsSound(plant, Model(), t, true, false);
      closing := true;
      inside := inside[t := Flagged];
    }

    /** The memory worker answers whether it stopped in time. */
    method StopMemoryWorker(t: int, stops: bool) returns (gone: bool)
      requires Sound(plant, Model()) && t in inside && inside[t] == Flagged
      modifies this`alive, this`inside
      ensures Sound(plant, Model()) && t in inside && inside[t] == if gone then MemoryGone else Ending(false)
      ensures gone == stops && alive.carrier == old(alive).carrier && alive.local == old(alive).local
    {
      hide Sound;
      ProceedIsSound(plant, Model(), t, stops, false);
      gone := stops;
      if gone {
        alive := alive.(memory := false);
      }
      inside := inside[t := if gone then MemoryGone else Ending(false)];
    }

    /** So does the periodic summary writer. */
    method StopSummaryWriter(t: int, stops: bool) returns (gone: bool)
      requires Sound(plant, Model()) && t in inside && inside[t] == MemoryGone
      modifies this`alive, this`inside
      ensures Sound(plant, Model()) && t in inside && inside[t] == if gone then WriterGone else Ending(false)
      ensures gone == stops && alive.carrier == old(alive).carrier && alive.local == old(alive).local
    {
      hide Sound;
      ProceedIsSound(plant, Model(), t, stops, false);
      gone := stops;
      if gone {
        alive := alive.(writer := false);
      }
      inside := inside[t := if gone then WriterGone else Ending(false)];
    }

    /** The carrier thread is joined with a timeout, and may outlive it. */
    method JoinCarrier(t: int) returns (gone: bool)
      requires Sound(plant, Model()) && t in inside && inside[t] == WriterGone
      modifies this`inside
      ensures Sound(plant, Model()) && t in inside && inside[t] == if gone then CarrierGone else Ending(false)
      ensures gone == !alive.carrier
    {
      hide Sound;
      ProceedIsSound(plant, Model(), t, true, false);
      gone := !alive.carrier;
      inside := inside[t := if gone then CarrierGone else Ending(false)];
    }

    /** So may the local-brain thread. */
    method JoinLocalBrains(t: int) returns (gone: bool)
      requires Sound(plant, Model()) && t in inside && inside[t] == CarrierGone
      modifies this`inside
      ensures Sound(plant, Model()) && t in inside && inside[t] == if gone then Closing(0, false) else Ending(false)
      ensures gone == !alive.local
    {
      hide Sound;
      ProceedIsSound(plant, Model(), t, true, false);
      gone := !alive.local;
      inside := inside[t := if gone then Closing(0, false) else Ending(false)];
    }

    ghost predicate NothingFails(fails: nat -> bool) { forall k :: 0 <= k < |plant.resources| ==> !fails(k) }

    /** Resource `k` has something to close, was not completed before, and fails. */
    ghost predicate Refuses(fails: nat -> bool, done: set<int>, k: nat) {
      && k < |plant.resources| && plant.resources[k].Some? && fails(k)
      && plant.resources[k].value in plant.closables && plant.resources[k].value !in done
    }

    ghost predicate SomeRefuses(fails: nat -> bool, done: set<int>) { exists k :: Refuses(fails, done, k) }

    /** Every resource in turn; one that fails does not stop the rest. */
    method CloseResources(t: int, fails: nat -> bool) returns (ok: bool)
      requires Sound(plant, Model()) && t in inside && inside[t] == Closing(0, false)
      modifies this`completed, this`calls, this`inside
      ensures Sound(plant, Model()) && t in inside && inside[t] == Ending(ok)
      ensures old(completed) <= completed && old(calls) <= calls
      ensures forall k :: 0 <= k < |plant.resources| && plant.resources[k].Some? && !fails(k) ==>
        plant.resources[k].value in completed
      ensures NothingFails(fails) ==> ok
      ensures !ok ==> SomeRefuses(fails, old(completed))
    {
      hide Sound, CloseResource;
      var failed := false;
      for i := 0 to |plant.resources|
        invariant Sound(plant, Model()) && t in inside && inside[t] == Closing(i, failed)
        invariant old(completed) <= completed && old(calls) <= calls
        invariant forall k :: 0 <= k < i && plant.resources[k].Some? && !fails(k) ==> plant.resources[k].value in completed
        invariant failed ==> exists k :: 0 <= k < i && Refuses(fails, old(completed), k)
      {
        ProceedIsSound(plant, Model(), t, true, fails(i));
        CloseResourceCompletes(plant, Books(completed, calls), alive.AnyAlive(), plant.resources[i], fails(i));
        var raised := CloseOne(plant.resources[i], fails(i));
        assert raised ==> Refuses(fails, old(completed), i);
        failed := failed || raised;
        inside := inside[t := Closing(i + 1, failed)];
      }
      ProceedIsSound(plant, Model(), t, true, false);
      ok := !failed;
      inside := inside[t := Ending(ok)];
    }

    /** `_close_once`: a worker or thread that is still alive ends it with no resource touched; a resource that
        fails is raised at the end. */
    method CloseOnce(t: int, memoryStops: bool, writerStops: bool, fails: nat -> bool) returns (result: CloseResult)
      requires Sound(plant, Model()) && t in inside && inside[t] == Entered && lock.None?
      modifies this`closing, this`alive, this`completed, this`calls, this`inside
      ensures Sound(plant, Model()) && t in inside && inside[t] == Ending(result == AllClosed)
      ensures result == StillAlive <==> !(memoryStops && writerStops && !old(alive).carrier && !old(alive).local)
      ensures result == StillAlive ==> completed == old(completed) && calls == old(calls)
      ensures result == Raised ==> SomeRefuses(fails, old(completed))
      ensures result == AllClosed || result == StillAlive || !NothingFails(fails)
    {
      hide Sound;
      RaiseFlag(t);
      var gone := StopMemoryWorker(t, memoryStops);
      if !gone {
        return StillAlive;
      }
      gone := StopSummaryWriter(t, writerStops);
      if !gone {
        return StillAlive;
      }
      gone := JoinCarrier(t);
      if !gone {
        return StillAlive;
      }
      gone := JoinLocalBrains(t);
      if !gone {
        return StillAlive;
      }
      var ok := CloseResources(t, fails);
      result := if ok then AllClosed else Raised;
    }

    /** `close`, once no other thread is inside; one that is makes the caller wait. */
    method Close(t: int, memoryStops: bool, writerStops: bool, fails: nat -> bool) returns (result: CloseResult)
      requires Sound(plant, Model()) && !inProgress && lock.None?
      modifies this
      ensures Sound(plant, Model()) && !inProgress
      ensures closed == (old(closed) || result == AllClosed)
      ensures result == AllClosed ==> AllCompleted(plant, Books(completed, calls), |plant.resources|)
      ensures old(closed) ==> result == AllClosed && Model() == old(Model())
      ensures !old(closed) ==>
        (result == StillAlive <==> !(memoryStops && writerStops && !old(alive).carrier && !old(alive).local))
      ensures result == StillAlive ==> completed == old(completed) && calls == old(calls)
      ensures result == Raised ==> SomeRefuses(fails, old(completed))
      ensures result == AllClosed || result == StillAlive || !NothingFails(fails)
    {
      hide Sound, Next, SomeRefuses, NothingFails;
      SoundWhenClosed(plant, Model());
      if closed {
        return AllClosed;
      }
      EnterIs(plant, Model(), t);
      StepIsSound(plant, Model(), Enters(t));
      inProgress := true;
      inside := inside[t := Entered];
      result := CloseOnce(t, memoryStops, writerStops, fails);
      Leave(t, result == AllClosed);
    }

    /** The last lines of `close`, for the thread inside. */
    method Leave(t: int, result: bool)
      requires Sound(plant, Model()) && t in inside && inside[t] == Ending(result)
      modifies this`inside, this`inProgress, this`closed
      ensures Sound(plant, Model()) && !inProgress && closed == (old(closed) || result)
      ensures closed ==> AllCompleted(plant, Books(completed, calls), |plant.resources|)
    {
      hide Sound;
      ProceedIsSound(plant, Model(), t, true, false);
      inside := inside - {t};
      inProgress := false;
      if result {
        closed := true;
      }
      SoundWhenClosed(plant, Model());
    }
  }

  lemma SoundWhenClosed(p: Plant, s: Loop)
    requires Sound(p, s)
    ensures s.closed ==> AllCompleted(p, s.books, |p.resources|)
  {}

  lemma EnterIs(p: Plant, s: Loop, t: int)
    requires Sound(p, s) && !s.inProgress && !s.closed
    ensures Next(p, s, Enters(t)) == s.(inProgress := true, inside := s.inside[t := Entered])
  {}
}

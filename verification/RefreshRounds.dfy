/** What a refresh round is told, by what it sees: when the snapshot is installed, when the
    public source has a gap, and which events and status each case leaves.
  */
module RefreshRounds {
  import opened Prelude
  import opened RefreshAttempts

  /** The public source still covers the current snapshot, or there is none. */
  predicate IsCovered(v: View) { !v.hasCurrent || v.sourceIsCurrent }

  /** A current snapshot whose plan is simply carried on. */
  predicate CarriesOn(v: View) { v.hasPlan && v.hasCurrent && !v.recovery }

  /** Enough is known of the target to build a snapshot. */
  predicate IsInformed(v: View) { v.isPredicted && v.isReady && (v.hasPrior || (v.hasReport && v.reportIsFresh)) }

  /** The source has a gap: it no longer covers the current snapshot, the target has neither report nor prior while the
      current snapshot still names it, or its only report is stale. */
  predicate HasGap(v: View) {
    || !IsCovered(v)
    || (&& !CarriesOn(v) && v.isPredicted && !v.hasPrior
        && (if v.hasReport then v.isReady && !v.reportIsFresh else v.hasCurrent && v.targetIsCurrent))
  }

  /** The outcome of an installation, exactly. */
  lemma PathTells(v: View)
    ensures PathOf(v) == Installed <==> IsCovered(v) && v.builds && (CarriesOn(v) || IsInformed(v))
    ensures PathOf(v) in {GapWithoutCurrent, GapExpired, GapFailed, GapRetained} <==> HasGap(v)
    ensures HasGap(v) ==>
      && (PathOf(v) == GapWithoutCurrent <==> !v.hasCurrent)
      && (PathOf(v) == GapExpired <==> v.hasCurrent && v.health == Expired)
      && (PathOf(v) == GapFailed <==> v.hasCurrent && v.health == Failed)
      && (PathOf(v) == GapRetained <==> v.hasCurrent && v.health == Sound)
  {}

  /** A snapshot is there to go on with: newly installed, or a sound current one retained over a gap. */
  lemma ReturnsIff(v: View)
    ensures Returns(PathOf(v)) <==>
      || (IsCovered(v) && v.builds && (CarriesOn(v) || IsInformed(v)))
      || (HasGap(v) && v.hasCurrent && v.health == Sound)
  {
    PathTells(v);
    hide PathOf;
  }

  /** The terminal event a round must record. */
  ghost predicate Closes(v: View, kind: Kind) {
    && (kind == WaitingForSource <==> HasGap(v) && v.hasCurrent)
    && (kind == Committed <==> IsCovered(v) && v.builds && (CarriesOn(v) || IsInformed(v)) && !v.recovery)
    && (kind == Recovered <==> IsCovered(v) && v.builds && (CarriesOn(v) || IsInformed(v)) && v.recovery)
    && IsTerminal(kind)
  }

  ghost predicate Leaves(kind: Kind, status: Status) {
    && (kind == WaitingForSource ==> status == Waiting)
    && (kind == Committed ==> status == Done)
    && (kind == Recovered ==> status == Recovering)
    && (kind == Rejected ==> status == Refused)
  }

  lemma EndingCloses(scenario: string, v: View, raises: bool, kind: Kind)
    ensures Closes(v, kind) <==> kind == Ending(Round(scenario, v.recovery, PathOf(v), raises))
  {
    PathTells(v);
    hide PathOf;
  }

  lemma GapIsTold(v: View)
    ensures Waits(PathOf(v), true) <==> HasGap(v) && v.hasCurrent
    ensures Waits(PathOf(v), false) <==> HasGap(v) && v.hasCurrent && v.health != Sound
  {
    PathTells(v);
    hide PathOf;
  }

  /** After any run, a round that does not raise records a new id as due, attempted, and closed by exactly the event
      and status its view calls for; one that raises is closed only when it had met a gap. */
  lemma RoundTells(steps: seq<Step>, scenario: string, v: View, raises: bool, kind: Kind)
    requires Closes(v, kind)
    ensures var r := Run(steps);
      var after, id := Attempt(r, Round(scenario, v.recovery, PathOf(v), raises)), AttemptId(scenario, r.count + 1);
      && after.count == r.count + 1
      && (forall k :: 0 <= k < |r.events| ==> r.events[k].id != id)
      && after.events == r.events + [Entry(id, Due), Entry(id, Attempted)]
           + (if raises && !(HasGap(v) && v.hasCurrent) then [] else [Entry(id, kind)])
      && (!raises ==> Leaves(kind, after.status))
      && (raises ==> after.status == if HasGap(v) && v.hasCurrent then Waiting
                                     else if v.recovery then Recovering else Generating)
      && (if raises then after.current == Some(id) else after.current.None?)
  {
    var round := Round(scenario, v.recovery, PathOf(v), raises);
    hide Run, Attempt, PathOf, Ending, Waits, Closes, Leaves, HasGap, IsIndexed, InOrder;
    EndingCloses(scenario, v, raises, kind);
    GapIsTold(v);
    RoundRecords(steps, round);
    RunIsRecorded(steps);
    var r := Run(steps);
    NewIdIsFresh(r, AttemptId(scenario, r.count + 1));
    RoundLeaves(r, round);
    var id := AttemptId(scenario, r.count + 1);
    NothingMore(r.events + [Entry(id, Due), Entry(id, Attempted)]);
  }

  lemma NothingMore(events: seq<Entry>)
    ensures events + [] == events
  {}

  lemma RoundLeaves(r: Refresh, round: Round)
    requires AttemptId(round.scenario, r.count + 1) !in r.attempted && AttemptId(round.scenario, r.count + 1) !in r.terminal
    ensures var after := Attempt(r, round);
      && after.count == r.count + 1
      && (!round.raises ==> Leaves(Ending(round), after.status))
      && (round.raises ==> after.current == Some(AttemptId(round.scenario, r.count + 1)))
      && (round.raises ==> after.status == if Waits(round.path, true) then Waiting
                                           else if round.recovery then Recovering else Generating)
  {}

  /** An installation outside a round reports a gap only when the current snapshot cannot be kept, once per id. */
  lemma ElsewhereTells(steps: seq<Step>, scenario: string, v: View)
    ensures var r := Run(steps);
      var after := Ensure(r, scenario, PathOf(v), None);
      var id := if r.current.Some? then r.current.value else AttemptId(scenario, r.count + 1);
      if HasGap(v) && v.hasCurrent && v.health != Sound then
        && after.current == Some(id)
        && after.events == r.events + (if HasEnded(r.events, id) then [] else [Entry(id, WaitingForSource)])
      else after == r
  {
    hide Run, PathOf, HasGap, Waits, Emit;
    GapIsTold(v);
    RunIsRecorded(steps);
    WaitingIsTold(Run(steps), scenario);
  }

  lemma WaitingIsTold(r: Refresh, scenario: string)
    requires WellRecorded(r)
    ensures var after := Emit(r, WaitingForSource, scenario, Waiting, None);
      var id := if r.current.Some? then r.current.value else AttemptId(scenario, r.count + 1);
      && after.current == Some(id)
      && after.events == r.events + (if HasEnded(r.events, id) then [] else [Entry(id, WaitingForSource)])
  {
    hide InOrder, HasEnded;
    var id := if r.current.Some? then r.current.value else AttemptId(scenario, r.count + 1);
    assert IsIndexed(r.events, r.attempted, r.terminal, id);
    IndexedSets(r, id, WaitingForSource);
    NothingMore(r.events);
  }
}

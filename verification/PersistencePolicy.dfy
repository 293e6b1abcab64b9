/** Which live frames become durable: sampling that loses no change of plan
    version, run phase or event history.
  */
module PersistencePolicy {
  import opened Prelude

  /** A public frame; items without an id are kept apart from those with one. */
  datatype Item = Identified(id: string) | Anonymous(text: string)

  datatype Frame = Frame(
    simTime: int,
    planVersion: int,
    runPhase: string,
    events: seq<Item>,
    missionEvents: seq<Item>)

  function IdsOf(items: seq<Item>): set<string> { set i | i in items && i.Identified? :: i.id }

  /** `_has_new_items`. */
  predicate HasNewItems(current: seq<Item>, previous: seq<Item>) {
    var previousIds, currentIds := IdsOf(previous), IdsOf(current);
    if currentIds != {} || previousIds != {} then currentIds - previousIds != {} else current != previous
  }

  function Interval(sampleInterval: Option<nat>): nat {
    if sampleInterval.Some? then sampleInterval.value else 0
  }

  /** The live stream under a policy: the positions that were persisted, newest last. */
  function Persisted(sampleInterval: Option<nat>, frames: seq<Frame>): (kept: seq<nat>)
    ensures forall k :: 0 <= k < |kept| ==> kept[k] < |frames|
  {
    if frames == [] then []
    else
      var n := |frames| - 1;
      var before := Persisted(sampleInterval, frames[..n]);
      if before == [] || IsBoundary(sampleInterval, frames[n], frames[before[|before| - 1]]) then before + [n] else before
  }

  predicate IsBoundary(sampleInterval: Option<nat>, frame: Frame, prior: Frame) {
    || sampleInterval.None?
    || frame.planVersion != prior.planVersion
    || HasNewItems(frame.events, prior.events)
    || HasNewItems(frame.missionEvents, prior.missionEvents)
    || frame.runPhase != prior.runPhase
    || frame.simTime >= prior.simTime + Interval(sampleInterval)
  }

  /** `FramePersistencePolicy`. */
  class FramePersistencePolicy {
    const sampleInterval: Option<nat>
    var last: Option<Frame>
    ghost var published: seq<Frame>

    /** The remembered frame is the last one persisted. */
    ghost predicate Valid()
      reads this
    {
      var kept := Persisted(sampleInterval, published);
      last == if kept == [] then None else Some(published[kept[|kept| - 1]])
    }

    constructor (sampleInterval: Option<nat>)
      ensures Valid() && published == [] && this.sampleInterval == sampleInterval
    {
      this.sampleInterval := sampleInterval;
      last, published := None, [];
    }

    /** `should_persist`, as the publisher calls it. */
    method ShouldPersist(frame: Frame) returns (persist: bool)
      requires Valid()
      modifies this
      ensures Valid() && published == old(published) + [frame]
      ensures Persisted(sampleInterval, published)
           == Persisted(sampleInterval, old(published)) + if persist then [|old(published)|] else []
    {
      hide HasNewItems, IdsOf;
      assert (published + [frame])[..|published|] == published;
      published := published + [frame];
      if last.None? {
        last := Some(frame);
        return true;
      }
      var prior := last.value;
      var boundary :=
        || frame.planVersion != prior.planVersion
        || HasNewItems(frame.events, prior.events)
        || HasNewItems(frame.missionEvents, prior.missionEvents)
        || frame.runPhase != prior.runPhase
        || frame.simTime >= prior.simTime + Interval(sampleInterval);
      if sampleInterval.None? {
        boundary := true;
      }
      if boundary {
        last := Some(frame);
      }
      persist := boundary;
    }
  }

  // ---------- nothing is lost between samples ----------

  ghost predicate Covers(sampleInterval: Option<nat>, kept: Frame, frame: Frame) {
    && kept.planVersion == frame.planVersion
    && kept.runPhase == frame.runPhase
    && IdsOf(frame.events) <= IdsOf(kept.events)
    && IdsOf(frame.missionEvents) <= IdsOf(kept.missionEvents)
    && (frame == kept || frame.simTime < kept.simTime + Interval(sampleInterval))
  }

  lemma NoBoundaryCovers(sampleInterval: Option<nat>, frame: Frame, prior: Frame)
    requires !IsBoundary(sampleInterval, frame, prior)
    ensures Covers(sampleInterval, prior, frame)
  {
    NothingNew(frame.events, prior.events);
    NothingNew(frame.missionEvents, prior.missionEvents);
  }

  lemma CoversItself(sampleInterval: Option<nat>, frame: Frame)
    ensures Covers(sampleInterval, frame, frame)
  {}

  lemma NothingNew(current: seq<Item>, previous: seq<Item>)
    requires !HasNewItems(current, previous)
    ensures IdsOf(current) <= IdsOf(previous)
  {
    forall id | id in IdsOf(current) ensures id in IdsOf(previous) {
      assert IdsOf(current) - IdsOf(previous) == {};
      assert id !in IdsOf(current) - IdsOf(previous);
    }
  }

  lemma {:induction false} PersistedIsIncreasing(sampleInterval: Option<nat>, frames: seq<Frame>)
    ensures var kept := Persisted(sampleInterval, frames);
      && (forall i, j :: 0 <= i < j < |kept| ==> kept[i] < kept[j])
      && (frames != [] ==> kept != [] && kept[0] == 0)
  {
    if frames != [] { PersistedIsIncreasing(sampleInterval, frames[..|frames| - 1]); }
  }

  lemma PersistedStep(sampleInterval: Option<nat>, frames: seq<Frame>)
    requires frames != []
    ensures var n := |frames| - 1;
      var before, kept := Persisted(sampleInterval, frames[..n]), Persisted(sampleInterval, frames);
      kept == before || kept == before + [n]
  {
    hide IsBoundary;
  }

  lemma {:induction false} PersistedUpTo(sampleInterval: Option<nat>, frames: seq<Frame>, n: nat)
    requires n <= |frames|
    ensures var upTo, kept := Persisted(sampleInterval, frames[..n]), Persisted(sampleInterval, frames);
      |upTo| <= |kept| && upTo == kept[..|upTo|] && forall k :: |upTo| <= k < |kept| ==> kept[k] >= n
  {
    hide Persisted;
    if n == |frames| {
      assert frames[..n] == frames;
    } else {
      var m := |frames| - 1;
      PersistedUpTo(sampleInterval, frames[..m], n);
      assert frames[..m][..n] == frames[..n];
      PersistedStep(sampleInterval, frames);
    }
  }

  lemma NewestIsCovered(sampleInterval: Option<nat>, frames: seq<Frame>)
    requires frames != []
    ensures var kept := Persisted(sampleInterval, frames);
      kept != [] && Covers(sampleInterval, frames[kept[|kept| - 1]], frames[|frames| - 1])
  {
    var m := |frames| - 1;
    PersistedIsIncreasing(sampleInterval, frames[..m]);
    var before, kept := Persisted(sampleInterval, frames[..m]), Persisted(sampleInterval, frames);
    if kept == before {
      NoBoundaryCovers(sampleInterval, frames[m], frames[kept[|kept| - 1]]);
    } else {
      CoversItself(sampleInterval, frames[m]);
    }
  }

  /** For every published frame `n`, the last persisted frame at or before it (the last of those kept
      from the first `n + 1`; everything kept later is after `n`) has its plan version and run phase,
      holds all its event and mission-event ids, and is less than one interval older. */
  lemma EveryFrameIsCovered(sampleInterval: Option<nat>, frames: seq<Frame>, n: nat)
    requires n < |frames|
    ensures var kept, upTo := Persisted(sampleInterval, frames), |Persisted(sampleInterval, frames[..n + 1])|;
      && 0 < upTo <= |kept|
      && kept[upTo - 1] <= n
      && (forall k :: upTo <= k < |kept| ==> kept[k] > n)
      && Covers(sampleInterval, frames[kept[upTo - 1]], frames[n])
  {
    PersistedUpTo(sampleInterval, frames, n + 1);
    NewestIsCovered(sampleInterval, frames[..n + 1]);
  }

  /** So every event id ever published occurs in some persisted frame. */
  lemma EveryEventIdIsPersisted(sampleInterval: Option<nat>, frames: seq<Frame>, n: nat, id: string)
    requires n < |frames| && (id in IdsOf(frames[n].events) || id in IdsOf(frames[n].missionEvents))
    ensures var kept := Persisted(sampleInterval, frames);
      exists k :: 0 <= k < |kept| && kept[k] <= n
        && (id in IdsOf(frames[kept[k]].events) || id in IdsOf(frames[kept[k]].missionEvents))
  {
    hide Persisted, IdsOf;
    EveryFrameIsCovered(sampleInterval, frames, n);
    var kept, upTo := Persisted(sampleInterval, frames), |Persisted(sampleInterval, frames[..n + 1])|;
    assert kept[upTo - 1] <= n;
  }

  // ---------- and nothing is kept without need ----------

  /** The items bring nothing: no id that is not there already, and without any ids they are the same list. */
  ghost predicate BringsNothing(current: seq<Item>, previous: seq<Item>) {
    && (forall id :: id in IdsOf(current) ==> id in IdsOf(previous))
    && (IdsOf(current) == {} && IdsOf(previous) == {} ==> current == previous)
  }

  /** Leaving the frame out loses nothing against the last persisted one, and the interval is not over. */
  ghost predicate IsDispensable(sampleInterval: nat, frame: Frame, prior: Frame) {
    && frame.planVersion == prior.planVersion && frame.runPhase == prior.runPhase
    && BringsNothing(frame.events, prior.events) && BringsNothing(frame.missionEvents, prior.missionEvents)
    && frame.simTime < prior.simTime + sampleInterval
  }

  lemma NewItemsIff(current: seq<Item>, previous: seq<Item>)
    ensures HasNewItems(current, previous) <==> !BringsNothing(current, previous)
  {
    var more := IdsOf(current) - IdsOf(previous);
    assert forall id :: id in more <==> id in IdsOf(current) && id !in IdsOf(previous);
    if BringsNothing(current, previous) { assert more == {}; }
  }

  /** Under a sampling interval a frame is left out if and only if it is dispensable beside the last one persisted
      before it; the first frame, and without an interval every frame, is persisted. */
  lemma SkippedIff(sampleInterval: Option<nat>, frames: seq<Frame>, n: nat)
    requires n < |frames|
    ensures var before := Persisted(sampleInterval, frames[..n]);
      n !in Persisted(sampleInterval, frames) <==>
        && sampleInterval.Some? && before != []
        && IsDispensable(sampleInterval.value, frames[n], frames[before[|before| - 1]])
    ensures n == 0 <==> Persisted(sampleInterval, frames[..n]) == []
  {
    PersistedIsIncreasing(sampleInterval, frames[..n]);
    LaterDoesNotMatter(sampleInterval, frames, n);
    assert frames[..n + 1][..n] == frames[..n];
    var before := Persisted(sampleInterval, frames[..n]);
    if before != [] {
      var prior := frames[before[|before| - 1]];
      NewItemsIff(frames[n].events, prior.events);
      NewItemsIff(frames[n].missionEvents, prior.missionEvents);
    }
  }

  lemma LaterDoesNotMatter(sampleInterval: Option<nat>, frames: seq<Frame>, n: nat)
    requires n < |frames|
    ensures n in Persisted(sampleInterval, frames) <==> n in Persisted(sampleInterval, frames[..n + 1])
    ensures n !in Persisted(sampleInterval, frames[..n])
  {
    hide Persisted;
    PersistedUpTo(sampleInterval, frames, n + 1);
  }
}

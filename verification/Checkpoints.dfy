/** Greedy checkpoint matching over a growing event stream: each typed checkpoint
    takes its first event after the one taken before. It succeeds exactly when
    the checkpoint types embed in order into the stream.
  */
module Checkpoints {
  import opened Prelude
  import opened ReplayCursor

  /** `_event_records`: the records of one type with an order number above `after`. */
  function EventRecords(records: seq<OrderedEvent>, kind: string, after: int): seq<OrderedEvent> {
    if records == [] then []
    else (if records[0].event.kind == kind && records[0].order > after then [records[0]] else [])
         + EventRecords(records[1..], kind, after)
  }

  /** Order numbers are positions, as the replay client assigns them. */
  ghost predicate Numbered(records: seq<OrderedEvent>) {
    forall i :: 0 <= i < |records| ==> records[i].order == i
  }

  ghost predicate IsFirst(records: seq<OrderedEvent>, kind: string, after: int, pick: nat) {
    && after < pick < |records| && records[pick].event.kind == kind
    && forall i :: after < i < pick && 0 <= i ==> records[i].event.kind != kind
  }

  lemma {:induction false} FirstRecord(records: seq<OrderedEvent>, kind: string, after: int, base: nat)
    requires forall i :: 0 <= i < |records| ==> records[i].order == base + i
    ensures var found := EventRecords(records, kind, after);
      if found == [] then forall i :: 0 <= i < |records| && base + i > after ==> records[i].event.kind != kind
      else exists k :: 0 <= k < |records| && found[0] == records[k] && base + k > after && records[k].event.kind == kind
             && forall i :: 0 <= i < k && base + i > after ==> records[i].event.kind != kind
  {
    if records != [] {
      var rest := records[1..];
      FirstRecord(rest, kind, after, base + 1);
      var found := EventRecords(rest, kind, after);
      if records[0].event.kind == kind && base > after {
        assert EventRecords(records, kind, after)[0] == records[0];
      } else if found != [] {
        var k :| 0 <= k < |rest| && found[0] == rest[k] && base + 1 + k > after && rest[k].event.kind == kind
                 && forall i :: 0 <= i < k && base + 1 + i > after ==> rest[i].event.kind != kind;
        assert records[k + 1] == rest[k];
        forall i | 0 <= i < k + 1 && base + i > after ensures records[i].event.kind != kind {
          if i > 0 { assert records[i] == rest[i - 1]; }
        }
      } else {
        forall i | 0 <= i < |records| && base + i > after ensures records[i].event.kind != kind {
          if i > 0 { assert records[i] == rest[i - 1]; }
        }
      }
    }
  }

  /** The typed checkpoints, in order; the others wait for nothing in the stream. */
  function Typed(checkpoints: seq<Option<string>>): seq<string> {
    if checkpoints == [] then []
    else
      var last := checkpoints[|checkpoints| - 1];
      Typed(checkpoints[..|checkpoints| - 1]) + if last.Some? then [last.value] else []
  }

  /** `picks` places the types at strictly increasing positions of the stream. */
  ghost predicate Embeds(records: seq<OrderedEvent>, types: seq<string>, picks: seq<nat>) {
    && |picks| == |types|
    && (forall i, j :: 0 <= i < j < |picks| ==> picks[i] < picks[j])
    && forall i :: 0 <= i < |picks| ==> picks[i] < |records| && records[picks[i]].event.kind == types[i]
  }

  function LastPick(picks: seq<nat>): int { if picks == [] then -1 else picks[|picks| - 1] }

  /** No embedding reaches its last type earlier. */
  ghost predicate IsEarliest(records: seq<OrderedEvent>, types: seq<string>, picks: seq<nat>) {
    forall other :: Embeds(records, types, other) ==> LastPick(picks) <= LastPick(other)
  }

  /** The checkpoint loop of `run_acceptance`. `seen[n]` is how much of the final stream had arrived when
      checkpoint `n` was decided: when it passed, or when it timed out. */
  method RunCheckpoints(checkpoints: seq<Option<string>>, records: seq<OrderedEvent>, seen: seq<nat>)
    returns (passed: nat, picks: seq<nat>)
    requires Numbered(records) && |seen| == |checkpoints|
    requires forall n :: 0 <= n < |seen| ==> seen[n] <= |records|
    ensures passed <= |checkpoints| && Embeds(records, Typed(checkpoints[..passed]), picks)
    ensures IsEarliest(records, Typed(checkpoints[..passed]), picks)
    ensures passed < |checkpoints| ==>
      && checkpoints[passed].Some?
      && forall i :: LastPick(picks) < i < seen[passed] && 0 <= i ==> records[i].event.kind != checkpoints[passed].value
  {
    picks := [];
    passed := 0;
    var lastEventOrder: int := -1;
    while passed < |checkpoints|
      invariant passed <= |checkpoints| && lastEventOrder == LastPick(picks)
      invariant Embeds(records, Typed(checkpoints[..passed]), picks)
      invariant IsEarliest(records, Typed(checkpoints[..passed]), picks)
    {
      var checkpoint := checkpoints[passed];
      assert checkpoints[..passed + 1][..passed] == checkpoints[..passed];
      if checkpoint.Some? {
        var latest := records[..seen[passed]];
        var candidates := EventRecords(latest, checkpoint.value, lastEventOrder);
        FirstRecord(latest, checkpoint.value, lastEventOrder, 0);
        if candidates == [] {
          assert forall i :: 0 <= i < seen[passed] ==> latest[i] == records[i];
          return;
        }
        var pick := candidates[0].order;
        FirstInPrefix(records, seen[passed], checkpoint.value, lastEventOrder, candidates[0]);
        GreedyStep(records, Typed(checkpoints[..passed]), picks, checkpoint.value, pick);
        picks := picks + [pick];
        lastEventOrder := pick;
      }
      passed := passed + 1;
    }
    assert checkpoints[..passed] == checkpoints;
  }

  /** The first candidate in what has arrived is the first candidate of the whole stream. */
  lemma FirstInPrefix(records: seq<OrderedEvent>, seen: nat, kind: string, after: int, first: OrderedEvent)
    requires Numbered(records) && seen <= |records| && after >= -1
    requires EventRecords(records[..seen], kind, after) != [] && first == EventRecords(records[..seen], kind, after)[0]
    ensures IsFirst(records, kind, after, first.order)
  {
    FirstRecord(records[..seen], kind, after, 0);
  }

  lemma GreedyStep(records: seq<OrderedEvent>, types: seq<string>, picks: seq<nat>, kind: string, pick: nat)
    requires Embeds(records, types, picks) && IsEarliest(records, types, picks)
    requires IsFirst(records, kind, LastPick(picks), pick)
    ensures Embeds(records, types + [kind], picks + [pick]) && IsEarliest(records, types + [kind], picks + [pick])
  {
    assert (types + [kind])[..|types|] == types;
    forall other | Embeds(records, types + [kind], other) ensures pick <= LastPick(other) {
      var n := |other| - 1;
      assert Embeds(records, types, other[..n]);
      if n > 0 { assert LastPick(other[..n]) == other[n - 1] < other[n]; }
    }
  }

  /** With the whole stream seen at every decision, all checkpoints pass if and only if their types
      are a subsequence of the stream. */
  lemma PassesIffEmbeds(checkpoints: seq<Option<string>>, records: seq<OrderedEvent>, passed: nat, picks: seq<nat>)
    requires passed <= |checkpoints|
    requires Embeds(records, Typed(checkpoints[..passed]), picks)
    requires IsEarliest(records, Typed(checkpoints[..passed]), picks)
    requires passed < |checkpoints| ==>
      && checkpoints[passed].Some?
      && forall i :: LastPick(picks) < i < |records| && 0 <= i ==> records[i].event.kind != checkpoints[passed].value
    ensures passed == |checkpoints| <==> exists all :: Embeds(records, Typed(checkpoints), all)
  {
    hide Embeds, IsEarliest, Typed;
    if passed == |checkpoints| {
      assert checkpoints[..passed] == checkpoints;
    } else {
      TypedPrefix(checkpoints, passed + 1);
      TypedStep(checkpoints, passed);
      var types := Typed(checkpoints[..passed]);
      forall all ensures !Embeds(records, Typed(checkpoints), all) {
        StuckMeansNoEmbedding(records, types, picks, checkpoints[passed].value, Typed(checkpoints), all);
      }
    }
  }

  lemma TypedStep(checkpoints: seq<Option<string>>, k: nat)
    requires k < |checkpoints| && checkpoints[k].Some?
    ensures Typed(checkpoints[..k + 1]) == Typed(checkpoints[..k]) + [checkpoints[k].value]
  {
    assert checkpoints[..k + 1][..k] == checkpoints[..k];
  }

  lemma StuckMeansNoEmbedding(records: seq<OrderedEvent>, types: seq<string>, picks: seq<nat>, kind: string,
                              longer: seq<string>, all: seq<nat>)
    requires IsEarliest(records, types, picks) && types + [kind] <= longer
    requires forall i :: LastPick(picks) < i < |records| && 0 <= i ==> records[i].event.kind != kind
    ensures !Embeds(records, longer, all)
  {
    var n := |types|;
    assert longer[..n] == (types + [kind])[..n] == types;
    assert longer[n] == (types + [kind])[n] == kind;
    if Embeds(records, longer, all) { PrefixEmbeds(records, longer, all, n); }
  }

  lemma PrefixEmbeds(records: seq<OrderedEvent>, types: seq<string>, picks: seq<nat>, n: nat)
    requires Embeds(records, types, picks) && n < |types|
    ensures Embeds(records, types[..n], picks[..n])
    ensures LastPick(picks[..n]) < picks[n] < |records| && records[picks[n]].event.kind == types[n]
  {}

  lemma {:induction false} TypedPrefix(checkpoints: seq<Option<string>>, k: nat)
    requires k <= |checkpoints|
    ensures Typed(checkpoints[..k]) <= Typed(checkpoints)
    decreases |checkpoints|
  {
    if k < |checkpoints| {
      var n := |checkpoints| - 1;
      TypedPrefix(checkpoints[..n], k);
      assert checkpoints[..n][..k] == checkpoints[..k];
    } else {
      assert checkpoints[..k] == checkpoints;
    }
  }
}

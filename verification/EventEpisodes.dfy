/** The episode gate: an abnormal condition fires on entry and on escalation, and
    is released by recovery. Its table is proved equal to a definition over the
    history of one key alone.
  */
module EventEpisodes {
  datatype Episode = Episode(startedS: int, confirmations: nat, emittedSeverity: int)

  datatype Observation = Observation(
    key: string,
    simTimeS: int,
    active: bool,
    holdS: int,
    confirmations: int,
    severity: int)

  datatype Verdict = Fired | Quiet | InvalidHold | InvalidConfirmations

  function Judge(o: Observation, e: Episode): (Verdict, Episode) {
    var counted := e.(confirmations := e.confirmations + 1);
    if o.simTimeS - e.startedS < o.holdS || counted.confirmations < o.confirmations then (Quiet, counted)
    else if e.emittedSeverity == 0 || o.severity > e.emittedSeverity then (Fired, counted.(emittedSeverity := o.severity))
    else (Quiet, counted)
  }

  /** `EventEpisodeGate`. */
  class EventEpisodeGate {
    var episodes: map<string, Episode>

    constructor ()
      ensures episodes == map[]
    {
      episodes := map[];
    }

    /** `observe`. */
    method Observe(o: Observation) returns (verdict: Verdict)
      modifies this
      ensures (verdict, episodes) == Observed(old(episodes), o)
    {
      if !o.active {
        episodes := map k | k in episodes && k != o.key :: episodes[k];
        return Quiet;
      }
      if o.holdS < 0 { return InvalidHold; }
      if o.confirmations < 1 { return InvalidConfirmations; }
      if o.key !in episodes {
        episodes := episodes[o.key := Episode(o.simTimeS, 0, 0)];
      }
      var episode := episodes[o.key];
      episode := episode.(confirmations := episode.confirmations + 1);
      episodes := episodes[o.key := episode];
      assert episodes == old(episodes)[o.key := episode];
      var ready := o.simTimeS - episode.startedS >= o.holdS && episode.confirmations >= o.confirmations;
      if !ready { return Quiet; }
      if episode.emittedSeverity == 0 {
        episodes := episodes[o.key := episode.(emittedSeverity := o.severity)];
        assert episodes == old(episodes)[o.key := episode.(emittedSeverity := o.severity)];
        return Fired;
      }
      if o.severity > episode.emittedSeverity {
        episodes := episodes[o.key := episode.(emittedSeverity := o.severity)];
        assert episodes == old(episodes)[o.key := episode.(emittedSeverity := o.severity)];
        return Fired;
      }
      verdict := Quiet;
    }
  }

  /** One observation against the table. */
  function Observed(episodes: map<string, Episode>, o: Observation): (Verdict, map<string, Episode>) {
    if !o.active then (Quiet, map k | k in episodes && k != o.key :: episodes[k])
    else if o.holdS < 0 then (InvalidHold, episodes)
    else if o.confirmations < 1 then (InvalidConfirmations, episodes)
    else
      var (verdict, e) := Judge(o, if o.key in episodes then episodes[o.key] else Episode(o.simTimeS, 0, 0));
      (verdict, episodes[o.key := e])
  }

  function Table(history: seq<Observation>): map<string, Episode> {
    if history == [] then map[]
    else Observed(Table(history[..|history| - 1]), history[|history| - 1]).1
  }

  // ---------- the meaning, over one key's history ----------

  predicate IsValid(o: Observation) { o.holdS >= 0 && o.confirmations >= 1 }

  /** The counted observations of `key` since its last inactive one. */
  function CurrentEpisode(history: seq<Observation>, key: string): seq<Observation> {
    if history == [] then []
    else Continued(CurrentEpisode(history[..|history| - 1], key), history[|history| - 1], key)
  }

  function Continued(episode: seq<Observation>, o: Observation, key: string): seq<Observation> {
    if o.key != key then episode
    else if !o.active then []
    else if IsValid(o) then episode + [o]
    else episode
  }

  /** Hold time and confirmations are met by the last observation of an episode. */
  predicate IsReady(episode: seq<Observation>)
    requires episode != []
  {
    var last := episode[|episode| - 1];
    last.simTimeS - episode[0].simTimeS >= last.holdS && |episode| >= last.confirmations
  }

  function Last(fired: seq<int>): int { if fired == [] then 0 else fired[|fired| - 1] }

  /** What the gate asks of a ready observation, given what its episode has fired. */
  predicate PassesGate(severity: int, fired: seq<int>) { Last(fired) == 0 || severity > Last(fired) }

  /** The severities the gate fires along an episode. */
  function Fires(episode: seq<Observation>): seq<int> {
    if episode == [] then []
    else
      var before, last := Fires(episode[..|episode| - 1]), episode[|episode| - 1];
      if IsReady(episode) && PassesGate(last.severity, before) then before + [last.severity] else before
  }

  /** The table entry of a key, read off its own history. */
  ghost predicate Describes(episodes: map<string, Episode>, key: string, episode: seq<Observation>) {
    && (key in episodes <==> episode != [])
    && (episode != [] ==> episodes[key] == Episode(episode[0].simTimeS, |episode|, Last(Fires(episode))))
  }

  lemma JudgeMatches(o: Observation, e: Episode, before: seq<Observation>)
    requires IsValid(o)
    requires e == Episode(if before == [] then o.simTimeS else before[0].simTimeS, |before|, Last(Fires(before)))
    ensures var (verdict, after) := Judge(o, e);
      && verdict == (if IsReady(before + [o]) && PassesGate(o.severity, Fires(before)) then Fired else Quiet)
      && after == Episode((before + [o])[0].simTimeS, |before| + 1, Last(Fires(before + [o])))
  {
    assert (before + [o])[..|before|] == before;
  }

  /** For any severities and any interleaving of keys, the entry of a key is a function of its own
      observations since its last inactive one. */
  lemma {:induction false} TableDescribesEpisodes(history: seq<Observation>, key: string)
    ensures Describes(Table(history), key, CurrentEpisode(history, key))
  {
    hide Observed, Continued, Describes;
    if history == [] {
      assert Describes(map[], key, []) by { NothingDescribed(key); }
    } else {
      TableDescribesEpisodes(history[..|history| - 1], key);
      StepDescribes(Table(history[..|history| - 1]), history[|history| - 1], key,
        CurrentEpisode(history[..|history| - 1], key));
    }
  }

  lemma NothingDescribed(key: string)
    ensures Describes(map[], key, [])
  {}

  lemma StepDescribes(episodes: map<string, Episode>, o: Observation, key: string, episode: seq<Observation>)
    requires Describes(episodes, key, episode)
    ensures Describes(Observed(episodes, o).1, key, Continued(episode, o, key))
  {
    assert Fires([]) == [];
    hide Judge, IsReady, PassesGate, Fires;
    if o.key == key && o.active && IsValid(o) {
      JudgeMatches(o, if key in episodes then episodes[key] else Episode(o.simTimeS, 0, 0), episode);
    }
  }

  // ---------- the law, and exactly where it holds ----------

  predicate Exceeds(severity: int, fired: seq<int>) { forall i :: 0 <= i < |fired| ==> severity > fired[i] }

  ghost predicate Rising(fired: seq<int>) { forall i, j :: 0 <= i < j < |fired| ==> fired[i] < fired[j] }

  /** No ready observation of severity zero or less comes right after a fired zero. */
  ghost predicate NeverBelowZeroFired(episode: seq<Observation>) {
    forall k :: 0 <= k < |episode| ==> !IsBelowZeroFired(episode, k)
  }

  predicate IsBelowZeroFired(episode: seq<Observation>, k: nat)
    requires k < |episode|
  {
    && IsReady(episode[..k + 1])
    && Fires(episode[..k]) != [] && Last(Fires(episode[..k])) == 0
    && episode[k].severity <= 0
  }

  /** The law at one observation: it fires when it is ready and exceeds all its episode has fired. */
  predicate FollowsLaw(episode: seq<Observation>, k: nat)
    requires k < |episode|
  {
    var fired, severity := Fires(episode[..k]), episode[k].severity;
    IsReady(episode[..k + 1]) ==> (PassesGate(severity, fired) <==> Exceeds(severity, fired))
  }

  ghost predicate AllFollowLaw(episode: seq<Observation>) {
    forall k :: 0 <= k < |episode| ==> FollowsLaw(episode, k)
  }

  lemma PrefixesOfFront(episode: seq<Observation>)
    requires episode != []
    ensures var n := |episode| - 1;
      && (NeverBelowZeroFired(episode) <==> NeverBelowZeroFired(episode[..n]) && !IsBelowZeroFired(episode, n))
      && (AllFollowLaw(episode) <==> AllFollowLaw(episode[..n]) && FollowsLaw(episode, n))
  {
    hide IsReady, Fires, PassesGate, Exceeds;
    var n := |episode| - 1;
    var front := episode[..n];
    forall k | 0 <= k < n
      ensures IsBelowZeroFired(front, k) <==> IsBelowZeroFired(episode, k)
      ensures FollowsLaw(front, k) <==> FollowsLaw(episode, k)
    {
      assert front[..k] == episode[..k] && front[..k + 1] == episode[..k + 1];
    }
  }

  /** The severities fired in an episode strictly rise, and every observation of it follows the law, if and
      only if no ready observation of severity zero or less comes right after a fired zero. */
  lemma {:induction false} LawHoldsIff(episode: seq<Observation>)
    ensures Rising(Fires(episode)) <==> NeverBelowZeroFired(episode)
    ensures AllFollowLaw(episode) <==> NeverBelowZeroFired(episode)
  {
    if episode != [] {
      var n := |episode| - 1;
      LawHoldsIff(episode[..n]);
      PrefixesOfFront(episode);
      LawAtEnd(episode);
    }
  }

  lemma LawAtEnd(episode: seq<Observation>)
    requires episode != []
    ensures var n := |episode| - 1;
      var front := Fires(episode[..n]);
      && (Rising(Fires(episode)) <==> Rising(front) && !IsBelowZeroFired(episode, n))
      && (Rising(front) ==> (FollowsLaw(episode, n) <==> !IsBelowZeroFired(episode, n)))
  {
    var n := |episode| - 1;
    assert Fires(episode) == if IsReady(episode) && PassesGate(episode[n].severity, Fires(episode[..n]))
      then Fires(episode[..n]) + [episode[n].severity] else Fires(episode[..n]);
    hide IsReady, Rising, Exceeds, Fires;
    assert episode[..n + 1] == episode;
    RisingOfOneMore(Fires(episode[..n]), episode[n].severity);
  }

  lemma RisingOfOneMore(fired: seq<int>, severity: int)
    ensures Rising(fired + [severity]) <==> Rising(fired) && (fired == [] || severity > Last(fired))
    ensures Rising(fired) ==> (Exceeds(severity, fired) <==> fired == [] || severity > Last(fired))
  {
    var more := fired + [severity];
    if Rising(more) {
      forall i, j | 0 <= i < j < |fired| ensures fired[i] < fired[j] {
        assert more[i] < more[j];
      }
      if fired != [] { assert more[|fired| - 1] < more[|fired|]; }
    }
  }

  /** The verdict on an observation, by its own key's history alone; and where the episode so far kept the
      law, it is the law's verdict unless the observation is ready, the last severity fired is zero and
      its own is not above zero. */
  lemma FiresByOwnHistory(history: seq<Observation>, o: Observation)
    requires o.active && IsValid(o)
    ensures var before, verdict := CurrentEpisode(history, o.key), Observed(Table(history), o).0;
      var fired, ready := Fires(before), IsReady(before + [o]);
      var lawful := if ready && Exceeds(o.severity, fired) then Fired else Quiet;
      && verdict == (if ready && PassesGate(o.severity, fired) then Fired else Quiet)
      && (NeverBelowZeroFired(before) ==>
            (verdict == lawful <==> !(ready && fired != [] && Last(fired) == 0 && o.severity <= 0)))
  {
    TableDescribesEpisodes(history, o.key);
    var table, before := Table(history), CurrentEpisode(history, o.key);
    JudgeMatches(o, if o.key in table then table[o.key] else Episode(o.simTimeS, 0, 0), before);
    LawHoldsIff(before);
    var episode := before + [o];
    assert episode[..|before|] == before && episode[..|before| + 1] == episode;
    LawAtEnd(episode);
  }

  /** Severities other than zero are enough, whatever other keys report. */
  lemma {:induction false} NonZeroSeveritiesAreEnough(episode: seq<Observation>)
    requires forall k :: 0 <= k < |episode| ==> episode[k].severity != 0
    ensures NeverBelowZeroFired(episode)
    ensures forall i :: 0 <= i < |Fires(episode)| ==> Fires(episode)[i] != 0
  {
    if episode != [] {
      NonZeroSeveritiesAreEnough(episode[..|episode| - 1]);
      PrefixesOfFront(episode);
    }
  }

  // ---------- verdicts of one episode ----------

  /** The observations of one key between `j` and `k` are all active. */
  ghost predicate SameEpisode(history: seq<Observation>, j: nat, k: nat)
    requires j < k < |history|
  {
    history[j].key == history[k].key
    && forall i :: j < i < k && history[i].key == history[j].key ==> history[i].active
  }

  predicate IsFired(history: seq<Observation>, k: nat)
    requires k < |history|
  {
    Observed(Table(history[..k]), history[k]).0 == Fired
  }

  /** A fired verdict enters the episode's list and stays there while the episode lasts. */
  lemma {:induction false} FiredStays(history: seq<Observation>, j: nat, k: nat)
    requires j < k <= |history| && IsFired(history, j)
    requires forall i :: j < i < k && history[i].key == history[j].key ==> history[i].active
    ensures history[j].severity in Fires(CurrentEpisode(history[..k], history[j].key))
  {
    hide Table, Observed, IsReady, PassesGate;
    var key := history[j].key;
    assert history[..k][..k - 1] == history[..k - 1];
    var before := CurrentEpisode(history[..k - 1], key);
    if k == j + 1 {
      FiredIsActive(history, j);
      FiresByOwnHistory(history[..j], history[j]);
    } else {
      FiredStays(history, j, k - 1);
    }
    assert forall o :: (before + [o])[..|before|] == before;
  }

  lemma FiredIsActive(history: seq<Observation>, k: nat)
    requires k < |history| && IsFired(history, k)
    ensures history[k].active && IsValid(history[k])
  {}

  /** Two verdicts that fire in one episode of a key have strictly rising severities, whatever comes in
      between, as long as no ready observation of severity zero or less followed a fired zero. */
  lemma FiredVerdictsRise(history: seq<Observation>, j: nat, k: nat)
    requires j < k < |history| && SameEpisode(history, j, k) && IsFired(history, j) && IsFired(history, k)
    requires NeverBelowZeroFired(CurrentEpisode(history[..k + 1], history[k].key))
    ensures history[j].severity < history[k].severity
  {
    hide Table, Observed, IsReady, PassesGate, Exceeds, IsBelowZeroFired;
    var o := history[k];
    var before := CurrentEpisode(history[..k], o.key);
    FiredStays(history, j, k);
    FiredIsActive(history, k);
    assert history[..k + 1][..k] == history[..k];
    var episode := CurrentEpisode(history[..k + 1], o.key);
    assert episode == before + [o] && episode[..|before|] == before;
    PrefixesOfFront(episode);
    FiresByOwnHistory(history[..k], o);
    FiredExceeds(history, k, before);
  }

  lemma FiredExceeds(history: seq<Observation>, k: nat, before: seq<Observation>)
    requires k < |history| && IsFired(history, k) && before == CurrentEpisode(history[..k], history[k].key)
    requires NeverBelowZeroFired(before + [history[k]])
    ensures forall s :: s in Fires(before) ==> s < history[k].severity
  {
    var o := history[k];
    var episode := before + [o];
    FiredIsActive(history, k);
    FiresByOwnHistory(history[..k], o);
    assert episode[..|before|] == before && episode[..|before| + 1] == episode;
    PrefixesOfFront(episode);
    LawHoldsIff(episode);
    hide Table, Observed, IsReady;
    assert FollowsLaw(episode, |before|);
  }

  const ZERO := Observation("k", 0, true, 0, 1, 0)

  /** A run outside that condition: severity zero fires twice. */
  lemma SeverityZeroFiresTwice()
    ensures IsFired([ZERO, ZERO], 0) && IsFired([ZERO, ZERO], 1) && !NeverBelowZeroFired([ZERO, ZERO])
  {
    var twice := [ZERO, ZERO];
    assert twice[..0] == [] && twice[..1] == [ZERO] && twice[..2] == twice && [ZERO][..0] == [];
    assert Table([ZERO]) == Observed(Table([]), ZERO).1;
    assert IsBelowZeroFired(twice, 1);
  }
}

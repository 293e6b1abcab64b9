/** Situations and the events they carry: merging the events of an unseen
    situation into a newer one.
  */
module PendingEvents {
  import opened Prelude

  /** Event ids stand for the source's strings under their total order. */
  datatype Event = Event(id: int, time: int, payload: int)

  /** A snapshot: its revision, its physical state and the events it carries. */
  datatype Situation = Situation(revision: int, body: int, events: seq<Event>)

  function Ids(events: seq<Event>): set<int> { set e | e in events :: e.id }

  /** Writing one entry of a dictionary, in the order of its values: an id met again keeps its place. */
  function Upsert(values: seq<Event>, e: Event): seq<Event> {
    if values == [] then [e]
    else if values[0].id == e.id then [e] + values[1..]
    else [values[0]] + Upsert(values[1..], e)
  }

  function ById(events: seq<Event>): seq<Event> {
    if events == [] then [] else Upsert(ById(events[..|events| - 1]), events[|events| - 1])
  }

  predicate Before(a: Event, b: Event) { a.time < b.time || (a.time == b.time && a.id < b.id) }

  function Insert(sorted: seq<Event>, e: Event): seq<Event> {
    if sorted == [] then [e]
    else if Before(e, sorted[0]) then [e] + sorted
    else [sorted[0]] + Insert(sorted[1..], e)
  }

  function SortByKey(values: seq<Event>): seq<Event> {
    if values == [] then [] else Insert(SortByKey(values[..|values| - 1]), values[|values| - 1])
  }

  /** `_merge_pending_events`. */
  function Merge(latest: Situation, earlier: Option<Situation>): Situation {
    if earlier.None? || earlier.value.events == [] then latest
    else latest.(events := SortByKey(ById(earlier.value.events + latest.events)))
  }

  // ---------- what a merge is ----------

  /** In (time, id) order. */
  ghost predicate InOrder(events: seq<Event>) {
    forall i, j :: 0 <= i < j < |events| ==> Before(events[i], events[j])
  }

  ghost predicate DistinctIds(events: seq<Event>) {
    forall i, j :: 0 <= i < j < |events| ==> events[i].id != events[j].id
  }

  /** The last event of a given id. */
  ghost predicate IsNewest(events: seq<Event>, e: Event) {
    exists k :: 0 <= k < |events| && events[k] == e && forall j :: k < j < |events| ==> events[j].id != e.id
  }

  /** The events of a merge, stated without computing it. */
  ghost predicate IsMergeOf(merged: seq<Event>, all: seq<Event>) {
    && InOrder(merged)
    && DistinctIds(merged)
    && Ids(merged) == Ids(all)
    && forall e :: e in merged ==> IsNewest(all, e)
  }

  lemma {:induction false} UpsertKeeps(values: seq<Event>, e: Event)
    requires DistinctIds(values)
    ensures DistinctIds(Upsert(values, e))
    ensures forall x :: x in Upsert(values, e) <==> x == e || (x in values && x.id != e.id)
  {
    if values == [] {
    } else if values[0].id == e.id {
      forall x ensures x in Upsert(values, e) <==> x == e || (x in values && x.id != e.id) {
        if x in values && x.id != e.id { assert x in values[1..]; }
      }
    } else {
      var rest := Upsert(values[1..], e);
      UpsertKeeps(values[1..], e);
      forall k | 0 <= k < |rest| ensures rest[k].id != values[0].id {
        assert rest[k] in rest;
      }
      assert forall x :: x in values <==> x == values[0] || x in values[1..];
    }
  }

  lemma {:induction false} ByIdKeepsNewest(events: seq<Event>)
    ensures DistinctIds(ById(events)) && Ids(ById(events)) == Ids(events)
    ensures forall x :: x in ById(events) ==> IsNewest(events, x)
  {
    if events != [] {
      var n := |events| - 1;
      var front, last := events[..n], events[n];
      ByIdKeepsNewest(front);
      UpsertKeeps(ById(front), last);
      assert events == front + [last];
      assert IsNewest(events, last);
      forall x | x in ById(front) && x.id != last.id ensures IsNewest(events, x) {
        var k :| 0 <= k < n && front[k] == x && forall j :: k < j < n ==> front[j].id != x.id;
        assert events[k] == x;
      }
      SameIds(front, last, ById(front), ById(events));
    }
  }

  lemma SameIds(front: seq<Event>, last: Event, before: seq<Event>, after: seq<Event>)
    requires Ids(before) == Ids(front)
    requires forall x :: x in after <==> x == last || (x in before && x.id != last.id)
    ensures Ids(after) == Ids(front + [last])
  {
    forall id ensures id in Ids(after) <==> id in Ids(front + [last]) {
      if id == last.id {
        assert last in after && last in front + [last];
      } else {
        assert id in Ids(before) <==> id in Ids(front);
      }
    }
  }

  lemma {:induction false} InsertKeepsOrder(sorted: seq<Event>, e: Event)
    requires InOrder(sorted) && forall k :: 0 <= k < |sorted| ==> sorted[k].id != e.id
    ensures InOrder(Insert(sorted, e)) && forall x :: x in Insert(sorted, e) <==> x == e || x in sorted
  {
    if sorted == [] {
    } else if Before(e, sorted[0]) {
    } else {
      InsertKeepsOrder(sorted[1..], e);
      var rest := Insert(sorted[1..], e);
      forall k | 0 <= k < |rest| ensures Before(sorted[0], rest[k]) {
        assert rest[k] in rest;
      }
      assert forall x :: x in sorted <==> x == sorted[0] || x in sorted[1..];
    }
  }

  lemma {:induction false} SortKeeps(values: seq<Event>)
    requires DistinctIds(values)
    ensures InOrder(SortByKey(values)) && forall x :: x in SortByKey(values) <==> x in values
  {
    if values != [] {
      var n := |values| - 1;
      var sorted := SortByKey(values[..n]);
      SortKeeps(values[..n]);
      forall k | 0 <= k < |sorted| ensures sorted[k].id != values[n].id {
        assert sorted[k] in values[..n];
      }
      InsertKeepsOrder(sorted, values[n]);
      assert forall x :: x in values <==> x == values[n] || x in values[..n];
    }
  }

  /** A merge keeps the newest situation, and of all events of both exactly one of each id, the newest
      version, in (time, id) order. */
  lemma MergeKeepsEveryEvent(latest: Situation, earlier: Situation)
    requires earlier.events != []
    ensures Merge(latest, Some(earlier)) == latest.(events := Merge(latest, Some(earlier)).events)
    ensures IsMergeOf(Merge(latest, Some(earlier)).events, earlier.events + latest.events)
  {
    var all := earlier.events + latest.events;
    ByIdKeepsNewest(all);
    SortKeeps(ById(all));
    var merged := SortByKey(ById(all));
    forall i, j | 0 <= i < j < |merged| ensures merged[i].id != merged[j].id {
      assert merged[i] in ById(all) && merged[j] in ById(all) && Before(merged[i], merged[j]);
    }
    assert Ids(merged) == Ids(ById(all));
  }

  /** That description leaves no choice. */
  lemma MergeIsUnique(a: seq<Event>, b: seq<Event>, all: seq<Event>)
    requires IsMergeOf(a, all) && IsMergeOf(b, all)
    ensures a == b
  {
    SameMembers(a, b, all);
    SameMembers(b, a, all);
    OrderedIsUnique(a, b);
  }

  lemma SameMembers(a: seq<Event>, b: seq<Event>, all: seq<Event>)
    requires IsMergeOf(a, all) && IsMergeOf(b, all)
    ensures forall x :: x in a ==> x in b
  {
    forall x | x in a ensures x in b {
      assert x.id in Ids(a);
      var y :| y in b && y.id == x.id;
      assert IsNewest(all, x) && IsNewest(all, y);
    }
  }

  lemma {:induction false} OrderedIsUnique(a: seq<Event>, b: seq<Event>)
    requires InOrder(a) && InOrder(b) && forall x :: x in a <==> x in b
    ensures a == b
  {
    assert (|a| > 0 ==> a[0] in a) && (|b| > 0 ==> b[0] in b);
    if a == [] {
    } else {
      assert a[0] == b[0];
      forall x ensures x in a[1..] <==> x in b[1..] {
        assert x in a <==> x == a[0] || x in a[1..];
        assert x in b <==> x == b[0] || x in b[1..];
        assert a[0] !in a[1..] && b[0] !in b[1..];
      }
      OrderedIsUnique(a[1..], b[1..]);
    }
  }
}

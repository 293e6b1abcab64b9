/** The acceptance client that follows a growing replay log by offset: whatever
    is appended between its requests, it consumes each frame of the log once and
    in order, and numbers every event it has not seen before.
  */
module ReplayCursor {
  import opened Prelude
  import opened Replay

  const PAGE_SIZE: nat := 250
  const MAX_PAGES_PER_POLL: nat := 64
  const MAX_FRAMES: nat := 50_000

  // ---------- events in the order seen ----------

  datatype Event = Event(id: Option<string>, kind: string, simTime: int)

  datatype OrderedEvent = OrderedEvent(event: Event, order: nat)

  /** Builds the key of an event that carries no id from its type, time and the next order number. */
  type AnonymousKey = (Event, nat) -> string

  function KeyOf(e: Event, order: nat, anonymous: AnonymousKey): string {
    if e.id.Some? then e.id.value else anonymous(e, order)
  }

  datatype Collected = Collected(events: seq<OrderedEvent>, keys: set<string>, next: nat)

  function Collect(c: Collected, e: Event, anonymous: AnonymousKey): Collected {
    var key := KeyOf(e, c.next, anonymous);
    if key in c.keys then c
    else Collected(c.events + [OrderedEvent(e, c.next)], c.keys + {key}, c.next + 1)
  }

  function CollectAll(evs: seq<Event>, anonymous: AnonymousKey): Collected {
    if evs == [] then Collected([], {}, 0)
    else Collect(CollectAll(evs[..|evs| - 1], anonymous), evs[|evs| - 1], anonymous)
  }

  /** The first event of every id, in order of appearance. */
  function FirstOfEachId(evs: seq<Event>): seq<Event> {
    if evs == [] then []
    else
      var front, last := evs[..|evs| - 1], evs[|evs| - 1];
      FirstOfEachId(front) + if exists i :: 0 <= i < |front| && front[i].id == last.id then [] else [last]
  }

  /** Order numbers are consecutive from zero, and no two collected events share a key. */
  lemma {:induction false} OrdersAreConsecutive(evs: seq<Event>, anonymous: AnonymousKey)
    ensures var c := CollectAll(evs, anonymous);
      && c.next == |c.events|
      && (forall i :: 0 <= i < |c.events| ==> c.events[i].order == i && KeyOf(c.events[i].event, i, anonymous) in c.keys)
      && (forall i, j :: 0 <= i < j < |c.events| ==>
            KeyOf(c.events[i].event, i, anonymous) != KeyOf(c.events[j].event, j, anonymous))
  {
    if evs != [] { OrdersAreConsecutive(evs[..|evs| - 1], anonymous); }
  }

  /** Events that carry ids are kept once each, the first time they appear. */
  lemma {:induction false} IdentifiedEventsAreDeduplicated(evs: seq<Event>, anonymous: AnonymousKey)
    requires forall i :: 0 <= i < |evs| ==> evs[i].id.Some?
    ensures var c, firsts := CollectAll(evs, anonymous), FirstOfEachId(evs);
      && |c.events| == |firsts|
      && (forall i :: 0 <= i < |firsts| ==> c.events[i].event == firsts[i])
      && (forall key :: key in c.keys <==> exists i :: 0 <= i < |evs| && evs[i].id == Some(key))
  {
    if evs != [] {
      var n := |evs| - 1;
      IdentifiedEventsAreDeduplicated(evs[..n], anonymous);
      var key := evs[n].id.value;
      var before := CollectAll(evs[..n], anonymous);
      assert key in before.keys <==> exists i :: 0 <= i < |evs[..n]| && evs[..n][i].id == evs[n].id;
      forall k ensures k in CollectAll(evs, anonymous).keys <==> exists i :: 0 <= i < |evs| && evs[i].id == Some(k) {
        if k in before.keys {
          var i :| 0 <= i < |evs[..n]| && evs[..n][i].id == Some(k);
          assert evs[i].id == Some(k);
        }
        if i :| 0 <= i < |evs| && evs[i].id == Some(k) {
          if i < n { assert evs[..n][i].id == Some(k); }
        }
      }
    }
  }

  /** One more event, with an id or without: it is collected, under the next number, if and only if no event collected
      so far has its key. */
  lemma EventIsCollectedIff(evs: seq<Event>, e: Event, anonymous: AnonymousKey)
    ensures var before, after := CollectAll(evs, anonymous), CollectAll(evs + [e], anonymous);
      var key := if e.id.Some? then e.id.value else anonymous(e, |before.events|);
      if exists i :: 0 <= i < |before.events| && KeyOf(before.events[i].event, i, anonymous) == key then after == before
      else after.events == before.events + [OrderedEvent(e, |before.events|)]
  {
    var before := CollectAll(evs, anonymous);
    assert (evs + [e])[..|evs|] == evs;
    OrdersAreConsecutive(evs, anonymous);
    KeysAreCollected(evs, anonymous);
    hide CollectAll;
    var key := KeyOf(e, |before.events|, anonymous);
    if key in before.keys { assert IsCollected(before.events, key, anonymous); }
  }

  ghost predicate IsCollected(events: seq<OrderedEvent>, key: string, anonymous: AnonymousKey) {
    exists i :: 0 <= i < |events| && KeyOf(events[i].event, i, anonymous) == key
  }

  lemma {:induction false} KeysAreCollected(evs: seq<Event>, anonymous: AnonymousKey)
    ensures var c := CollectAll(evs, anonymous);
      forall key :: key in c.keys ==> IsCollected(c.events, key, anonymous)
  {
    if evs != [] {
      var n := |evs| - 1;
      KeysAreCollected(evs[..n], anonymous);
      OrdersAreConsecutive(evs[..n], anonymous);
      var before, after := CollectAll(evs[..n], anonymous), CollectAll(evs, anonymous);
      hide CollectAll;
      forall key | key in after.keys ensures IsCollected(after.events, key, anonymous) {
        if key in before.keys {
          assert IsCollected(before.events, key, anonymous);
          var i :| 0 <= i < |before.events| && KeyOf(before.events[i].event, i, anonymous) == key;
          assert after.events[i] == before.events[i];
        } else {
          assert KeyOf(after.events[|before.events|].event, |before.events|, anonymous) == key;
        }
      }
    }
  }

  // ---------- the server side ----------

  predicate IsSteady(log: seq<Frame>) {
    && (forall i, j :: 0 <= i < j < |log| ==> log[i].simTime <= log[j].simTime)
    && forall i :: 0 <= i < |log| ==> log[i].simTime >= 0
  }

  function View(log: seq<Frame>): seq<Frame> { Between(StableSort(log), 0.0, None) }

  lemma SteadyLogIsItsView(log: seq<Frame>)
    requires IsSteady(log)
    ensures View(log) == log
  {
    SortedLogIsItself(log);
    EverythingIsBetween(log);
  }

  lemma {:induction false} EverythingIsBetween(fs: seq<Frame>)
    requires forall i :: 0 <= i < |fs| ==> fs[i].simTime >= 0
    ensures Between(fs, 0.0, None) == fs
  {
    if fs != [] { EverythingIsBetween(fs[1..]); }
  }

  datatype Response = Unavailable | Failed | PageOf(frames: seq<Frame>, totalCount: nat)

  /** The replay endpoint over a live log, as far as it is indexed; it may have grown before each answer. */
  class ReplayServer {
    var logged: seq<Frame>

    method Get(offset: nat, limit: nat) returns (response: Response)
      requires IsSteady(logged)
      modifies this
      ensures IsSteady(logged) && old(logged) <= logged
      ensures response.PageOf? ==>
        response.frames == Page(View(logged), offset, Some(limit)) && response.totalCount == |View(logged)|
    {
      assert logged + [] == logged;
      var appended: seq<Frame> :| IsSteady(logged + appended);
      logged := logged + appended;
      var outcome: nat := *;
      response := if outcome == 0 then Unavailable else if outcome == 1 then Failed
                  else PageOf(Page(View(logged), offset, Some(limit)), |View(logged)|);
    }
  }

  // ---------- the client ----------

  datatype PollResult = CaughtUp | PageLimit | NotReady | Error

  class ReplayScanner {
    var offset: nat
    var frames: seq<Frame>
    var events: seq<OrderedEvent>
    var eventKeys: set<string>
    var nextEventOrder: nat
    const eventsOf: Frame -> seq<Event>
    const anonymous: AnonymousKey

    /** Every event of the first `k` frames, frame by frame. */
    function EventsIn(log: seq<Frame>): seq<Event> {
      if log == [] then [] else EventsIn(log[..|log| - 1]) + eventsOf(log[|log| - 1])
    }

    /** All events of all frames, in log order. */
    lemma {:induction false} EventsOfConcat(a: seq<Frame>, b: seq<Frame>)
      ensures EventsIn([]) == [] && EventsIn(a + b) == EventsIn(a) + EventsIn(b)
      ensures forall f: Frame :: EventsIn([f]) == eventsOf(f)
    {
      forall f: Frame ensures EventsIn([f]) == eventsOf(f) { assert [f][..0] == []; }
      if b == [] {
        assert a + b == a;
      } else {
        var n := |b| - 1;
        EventsOfConcat(a, b[..n]);
        assert (a + b)[..|a| + n] == a + b[..n];
      }
    }

    ghost function Model(): Collected
      reads this
    {
      Collected(events, eventKeys, nextEventOrder)
    }

    /** Exactly the first `offset` frames of the log have been consumed: the newest of them are
        retained, and their events are collected. */
    ghost predicate HasConsumed(log: seq<Frame>)
      reads this
    {
      && offset <= |log|
      && frames == LastOf(log[..offset], MAX_FRAMES)
      && Model() == CollectAll(EventsIn(log[..offset]), anonymous)
    }

    constructor (eventsOf: Frame -> seq<Event>, anonymous: AnonymousKey)
      ensures HasConsumed([]) && offset == 0
      ensures this.eventsOf == eventsOf && this.anonymous == anonymous
    {
      this.eventsOf, this.anonymous := eventsOf, anonymous;
      offset, frames, events, eventKeys, nextEventOrder := 0, [], [], {}, 0;
    }

    method CollectEvent(event: Event)
      modifies this`events, this`eventKeys, this`nextEventOrder
      ensures Model() == Collect(old(Model()), event, anonymous)
    {
      var key := KeyOf(event, nextEventOrder, anonymous);
      if key in eventKeys { return; }
      eventKeys := eventKeys + {key};
      events := events + [OrderedEvent(event, nextEventOrder)];
      nextEventOrder := nextEventOrder + 1;
    }

    method CollectFrame(frame: Frame, ghost before: seq<Event>)
      requires Model() == CollectAll(before, anonymous)
      modifies this`events, this`eventKeys, this`nextEventOrder
      ensures Model() == CollectAll(before + eventsOf(frame), anonymous)
    {
      var raw := eventsOf(frame);
      assert before + raw[..0] == before;
      for j := 0 to |raw|
        invariant Model() == CollectAll(before + raw[..j], anonymous)
      {
        CollectEvent(raw[j]);
        assert (before + raw[..j + 1])[..|before| + j] == before + raw[..j];
      }
      assert before + raw[..|raw|] == before + raw;
    }

    method CollectPage(page: seq<Frame>, ghost seen: seq<Frame>)
      requires Model() == CollectAll(EventsIn(seen), anonymous)
      modifies this`events, this`eventKeys, this`nextEventOrder
      ensures Model() == CollectAll(EventsIn(seen + page), anonymous)
    {
      hide CollectAll;
      assert seen + page[..0] == seen;
      for i := 0 to |page|
        invariant Model() == CollectAll(EventsIn(seen + page[..i]), anonymous)
      {
        CollectFrame(page[i], EventsIn(seen + page[..i]));
        assert (seen + page[..i + 1])[..|seen| + i] == seen + page[..i];
      }
      assert seen + page[..|page|] == seen + page;
    }

    /** Consume one page served at the current offset of `log`. */
    method TakePage(page: seq<Frame>, ghost log: seq<Frame>)
      requires HasConsumed(log) && offset + |page| <= |log| && page == log[offset..offset + |page|]
      modifies this
      ensures HasConsumed(log) && offset == old(offset) + |page|
    {
      hide CollectAll, EventsIn;
      assert log[..offset + |page|] == log[..offset] + page;
      TailOfTail(log[..offset], page, MAX_FRAMES);
      frames := frames + page;
      if |frames| > MAX_FRAMES {
        frames := frames[|frames| - MAX_FRAMES..];
      }
      CollectPage(page, log[..offset]);
      offset := offset + |page|;
    }

    /** A cursor is not disturbed by appends. */
    lemma LongerLog(log: seq<Frame>, longer: seq<Frame>)
      requires HasConsumed(log) && log <= longer
      ensures HasConsumed(longer)
    {
      assert longer[..offset] == log[..offset];
    }

    /** `poll`. */
    method Poll(server: ReplayServer) returns (result: PollResult)
      requires IsSteady(server.logged) && HasConsumed(server.logged)
      modifies this, server
      ensures IsSteady(server.logged) && old(server.logged) <= server.logged
      ensures HasConsumed(server.logged)
      ensures old(offset) <= offset
      ensures result == CaughtUp ==> offset >= |old(server.logged)|
      ensures result == PageLimit ==> offset == old(offset) + MAX_PAGES_PER_POLL * PAGE_SIZE
    {
      hide HasConsumed, Model, IsSteady;
      var pages: nat := 0;
      while pages < MAX_PAGES_PER_POLL
        invariant pages <= MAX_PAGES_PER_POLL
        invariant IsSteady(server.logged) && old(server.logged) <= server.logged
        invariant HasConsumed(server.logged)
        invariant offset == old(offset) + pages * PAGE_SIZE
      {
        ghost var before := server.logged;
        var response := server.Get(offset, PAGE_SIZE);
        ghost var log := server.logged;
        LongerLog(before, log);
        if response.Unavailable? { return NotReady; }
        if response.Failed? { return Error; }
        SteadyLogIsItsView(log);
        var page := response.frames;
        if page == [] { return CaughtUp; }
        assert page == log[offset..offset + |page|];
        TakePage(page, log);
        pages := pages + 1;
        if |page| < PAGE_SIZE { return CaughtUp; }
        if offset >= response.totalCount { return CaughtUp; }
      }
      result := PageLimit;
    }
  }

  /** What is retained of the frames consumed: the newest ones, all while there is room. */
  lemma RetainedAreNewest<T>(s: seq<T>, n: nat)
    ensures var tail := LastOf(s, n);
      && |tail| == (if |s| <= n then |s| else n)
      && forall i :: 0 <= i < |tail| ==> tail[i] == s[|s| - |tail| + i]
  {}

  lemma TailOfTail<T>(s: seq<T>, more: seq<T>, n: nat)
    ensures LastOf(LastOf(s, n) + more, n) == LastOf(s + more, n)
  {}

  // ---------- exactly when a cursor survives an append ----------

  ghost predicate IsSortedView(view: seq<Frame>) {
    forall i, j :: 0 <= i < j < |view| ==> view[i].simTime <= view[j].simTime
  }

  /** Where an appended frame lands in the stable order: after everything not later than it. */
  function AppendFrame(view: seq<Frame>, f: Frame): seq<Frame> {
    if view == [] || f.simTime >= view[|view| - 1].simTime then view + [f]
    else AppendFrame(view[..|view| - 1], f) + [view[|view| - 1]]
  }

  lemma {:induction false} AppendFromFront(h: Frame, t: seq<Frame>, f: Frame)
    requires IsSortedView([h] + t)
    ensures AppendFrame([h] + t, f) == if f.simTime >= h.simTime then [h] + AppendFrame(t, f) else [f] + ([h] + t)
  {
    var view := [h] + t;
    if t == [] {
      assert view == [h] && view[..0] == [];
    } else {
      var n := |t| - 1;
      assert view[..n + 1] == [h] + t[..n] && view[n + 1] == t[n];
      if f.simTime < t[n].simTime {
        AppendFromFront(h, t[..n], f);
        assert AppendFrame(t, f) == AppendFrame(t[..n], f) + [t[n]];
      } else {
        assert view[0] == h;
      }
    }
  }

  lemma InsertAtFront(g: Frame, h: Frame, t: seq<Frame>)
    ensures InsertFrame(g, [h] + t) == if g.simTime <= h.simTime then [g] + ([h] + t) else [h] + InsertFrame(g, t)
  {
    assert ([h] + t)[1..] == t;
  }

  lemma {:induction false} AppendAfterInsert(g: Frame, view: seq<Frame>, f: Frame)
    requires IsSortedView(view)
    ensures InsertFrame(g, AppendFrame(view, f)) == AppendFrame(InsertFrame(g, view), f)
  {
    if view == [] {
      AppendFromFront(g, [], f);
      InsertAtFront(g, f, []);
    } else {
      AppendAfterInsert(g, view[1..], f);
      InsertKeepsSorted(g, view);
      assert view == [view[0]] + view[1..];
      AppendAfterInsertStep(g, view[0], view[1..], f);
    }
  }

  lemma AppendAfterInsertStep(g: Frame, h: Frame, t: seq<Frame>, f: Frame)
    requires IsSortedView([h] + t) && IsSortedView(InsertFrame(g, [h] + t))
    requires InsertFrame(g, AppendFrame(t, f)) == AppendFrame(InsertFrame(g, t), f)
    ensures InsertFrame(g, AppendFrame([h] + t, f)) == AppendFrame(InsertFrame(g, [h] + t), f)
  {
    hide InsertFrame, AppendFrame;
    AppendFromFront(h, t, f);
    InsertAtFront(g, h, t);
    if f.simTime >= h.simTime {
      InsertAtFront(g, h, AppendFrame(t, f));
    } else {
      InsertAtFront(g, f, [h] + t);
    }
    if g.simTime <= h.simTime {
      AppendFromFront(g, [h] + t, f);
    } else {
      AppendFromFront(h, InsertFrame(g, t), f);
    }
  }

  /** The served order after one more append. */
  lemma {:induction false} SortOfAppend(log: seq<Frame>, f: Frame)
    ensures StableSort(log + [f]) == AppendFrame(StableSort(log), f)
  {
    if log == [] {
      assert [] + [f] == [f];
    } else {
      assert (log + [f])[1..] == log[1..] + [f];
      SortOfAppend(log[1..], f);
      StableSortSorts(log[1..]);
      AppendAfterInsert(log[0], StableSort(log[1..]), f);
    }
  }

  lemma {:induction false} AppendPlace(view: seq<Frame>, f: Frame) returns (p: nat)
    ensures p <= |view| && AppendFrame(view, f) == view[..p] + [f] + view[p..]
    ensures p > 0 ==> view[p - 1].simTime <= f.simTime
    ensures p < |view| ==> f.simTime < view[p].simTime
  {
    if view == [] || f.simTime >= view[|view| - 1].simTime {
      p := |view|;
    } else {
      var n := |view| - 1;
      p := AppendPlace(view[..n], f);
      assert view[p..] == view[..n][p..] + [view[n]];
    }
  }

  lemma AppendKeepsPrefix(view: seq<Frame>, f: Frame, k: nat)
    requires IsSortedView(view) && k <= |view|
    ensures |AppendFrame(view, f)| == |view| + 1
    ensures AppendFrame(view, f)[..k] == view[..k] <==> k == 0 || f.simTime >= view[k - 1].simTime
  {
    var p := AppendPlace(view, f);
    var longer := AppendFrame(view, f);
    if p < k {
      assert longer[..k][p] == f && view[..k][p] == view[p];
    } else {
      assert longer[..k] == view[..k];
    }
  }

  /** A cursor that has consumed `k` served frames stays exact under an append if and only if the new
      frame is not earlier than the last one consumed; otherwise some frame would be served twice and
      the new one skipped. */
  lemma CursorSurvives(log: seq<Frame>, f: Frame, k: nat)
    requires forall i :: 0 <= i < |log| ==> log[i].simTime >= 0
    requires f.simTime >= 0 && k <= |log|
    ensures |View(log)| == |log| && |View(log + [f])| == |log| + 1
    ensures View(log + [f])[..k] == View(log)[..k] <==> k == 0 || f.simTime >= View(log)[k - 1].simTime
  {
    NonNegativeView(log);
    NonNegativeView(log + [f]);
    StableSortSorts(log);
    SortOfAppend(log, f);
    AppendKeepsPrefix(StableSort(log), f, k);
  }

  lemma NonNegativeView(log: seq<Frame>)
    requires forall i :: 0 <= i < |log| ==> log[i].simTime >= 0
    ensures View(log) == StableSort(log)
  {
    StableSortSorts(log);
    var sorted := StableSort(log);
    forall i | 0 <= i < |sorted| ensures sorted[i].simTime >= 0 {
      assert sorted[i] in multiset(sorted);
      assert sorted[i] in log;
    }
    EverythingIsBetween(sorted);
  }
}

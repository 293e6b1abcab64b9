/** The indexed replay service over a frame log: an offset index sorted by time,
    two bisections and paging, proved equal to filtering and stably sorting the
    frames of the file.
  */
module Replay {
  import opened Prelude
  import opened LogLines

  datatype Frame = Frame(simTime: int, body: Bytes)

  /** What validating one raw line yields; the validator itself is an oracle. */
  datatype Decoded = FrameLine(frame: Frame) | MarkerRecord | Corrupt

  type Decoder = Bytes -> Decoded

  const MAX_PAGE_SIZE := 10_000

  // ---------- the naive reading of a log ----------

  /** Number (from 1) of the first line that does not validate. */
  function FirstCorrupt(lines: seq<Bytes>, decode: Decoder, k: nat): Option<nat>
    requires k <= |lines|
    decreases |lines| - k
  {
    if k == |lines| then None
    else if decode(lines[k]).Corrupt? then Some(k + 1)
    else FirstCorrupt(lines, decode, k + 1)
  }

  /** The frames of the first `k` lines, in log order. */
  function FramesUpTo(lines: seq<Bytes>, decode: Decoder, k: nat): seq<Frame>
    requires k <= |lines|
  {
    if k == 0 then []
    else
      var d := decode(lines[k - 1]);
      FramesUpTo(lines, decode, k - 1) + if d.FrameLine? then [d.frame] else []
  }

  function FramesOf(file: Bytes, decode: Decoder): seq<Frame> {
    FramesUpTo(Lines(file), decode, |Lines(file)|)
  }

  function InsertFrame(f: Frame, s: seq<Frame>): seq<Frame> {
    if s == [] || f.simTime <= s[0].simTime then [f] + s else [s[0]] + InsertFrame(f, s[1..])
  }

  /** Stable: a frame goes before the later ones of the same time. */
  function StableSort(fs: seq<Frame>): seq<Frame> {
    if fs == [] then [] else InsertFrame(fs[0], StableSort(fs[1..]))
  }

  predicate AtOrAfter(f: Frame, startS: real) { startS <= f.simTime as real }

  predicate AtOrBefore(f: Frame, endS: Option<real>) { endS.Some? ==> f.simTime as real <= endS.value }

  function Between(fs: seq<Frame>, startS: real, endS: Option<real>): seq<Frame> {
    if fs == [] then []
    else (if AtOrAfter(fs[0], startS) && AtOrBefore(fs[0], endS) then [fs[0]] else []) + Between(fs[1..], startS, endS)
  }

  function Min(a: nat, b: nat): nat { if a <= b then a else b }

  function Page<T>(s: seq<T>, offset: nat, limit: Option<nat>): seq<T> {
    var start := Min(offset, |s|);
    s[start..if limit.None? then |s| else Min(start + limit.value, |s|)]
  }

  /** What a replay request means. */
  function Replayed(file: Bytes, decode: Decoder, startS: real, endS: Option<real>): seq<Frame> {
    Between(StableSort(FramesOf(file, decode)), startS, endS)
  }

  // ---------- facts about the naive reading ----------

  ghost predicate SortedByTime(fs: seq<Frame>) {
    forall i, j :: 0 <= i < j < |fs| ==> fs[i].simTime <= fs[j].simTime
  }

  lemma {:induction false} InsertKeepsSorted(f: Frame, s: seq<Frame>)
    requires SortedByTime(s)
    ensures SortedByTime(InsertFrame(f, s))
    ensures multiset(InsertFrame(f, s)) == multiset(s) + multiset{f}
  {
    if s == [] || f.simTime <= s[0].simTime {
    } else {
      InsertKeepsSorted(f, s[1..]);
      var rest := InsertFrame(f, s[1..]);
      hide InsertFrame;
      assert s == [s[0]] + s[1..];
      forall g | g in rest ensures s[0].simTime <= g.simTime {
        assert g in multiset(rest);
        if g != f { assert g in s[1..]; }
      }
      SmallestFirst(s[0], rest);
      assert multiset([s[0]] + rest) == multiset{s[0]} + multiset(rest);
    }
  }

  lemma SmallestFirst(f: Frame, rest: seq<Frame>)
    requires SortedByTime(rest) && forall g :: g in rest ==> f.simTime <= g.simTime
    ensures SortedByTime([f] + rest)
  {}

  lemma {:induction false} StableSortSorts(fs: seq<Frame>)
    ensures SortedByTime(StableSort(fs)) && multiset(StableSort(fs)) == multiset(fs)
    ensures |StableSort(fs)| == |fs|
  {
    hide SortedByTime, InsertFrame;
    if fs == [] {
      NothingIsSorted();
    } else {
      var sorted := StableSort(fs[1..]);
      StableSortSorts(fs[1..]);
      InsertKeepsSorted(fs[0], sorted);
      InsertLengthens(fs[0], sorted);
      hide StableSort;
      assert fs == [fs[0]] + fs[1..];
    }
  }

  lemma NothingIsSorted()
    ensures SortedByTime([])
  {}

  lemma {:induction false} InsertLengthens(f: Frame, s: seq<Frame>)
    ensures |InsertFrame(f, s)| == |s| + 1
  {
    if s != [] { InsertLengthens(f, s[1..]); }
  }

  function AtTime(fs: seq<Frame>, t: int): seq<Frame> {
    if fs == [] then [] else (if fs[0].simTime == t then [fs[0]] else []) + AtTime(fs[1..], t)
  }

  lemma {:induction false} InsertIsStable(f: Frame, s: seq<Frame>, t: int)
    requires SortedByTime(s)
    ensures AtTime(InsertFrame(f, s), t) == (if f.simTime == t then [f] else []) + AtTime(s, t)
  {
    if s == [] || f.simTime <= s[0].simTime {
      AtTimeOfOneMore(f, s, t);
    } else {
      InsertIsStable(f, s[1..], t);
      var rest := InsertFrame(f, s[1..]);
      assert InsertFrame(f, s) == [s[0]] + rest && s == [s[0]] + s[1..];
      hide InsertFrame, AtTime;
      AtTimeOfOneMore(s[0], rest, t);
      AtTimeOfOneMore(s[0], s[1..], t);
    }
  }

  lemma AtTimeOfOneMore(f: Frame, s: seq<Frame>, t: int)
    ensures AtTime([f] + s, t) == (if f.simTime == t then [f] else []) + AtTime(s, t)
  {
    assert ([f] + s)[1..] == s;
  }

  /** Frames of one time keep their log order. */
  lemma {:induction false} StableSortIsStable(fs: seq<Frame>, t: int)
    ensures AtTime(StableSort(fs), t) == AtTime(fs, t)
  {
    if fs != [] {
      StableSortIsStable(fs[1..], t);
      StableSortSorts(fs[1..]);
      InsertIsStable(fs[0], StableSort(fs[1..]), t);
    }
  }

  /** A log whose times never decrease is already in replay order. */
  lemma {:induction false} SortedLogIsItself(fs: seq<Frame>)
    requires SortedByTime(fs)
    ensures StableSort(fs) == fs
  {
    if fs != [] {
      SortedLogIsItself(fs[1..]);
      assert StableSort(fs[1..]) == fs[1..];
    }
  }

  lemma {:induction false} BetweenIsSlice(fs: seq<Frame>, startS: real, endS: Option<real>, left: nat, right: nat)
    requires left <= |fs| && right <= |fs|
    requires forall i :: 0 <= i < |fs| ==> (i >= left <==> AtOrAfter(fs[i], startS))
    requires forall i :: 0 <= i < |fs| ==> (i < right <==> AtOrBefore(fs[i], endS))
    ensures Between(fs, startS, endS) == if left <= right then fs[left..right] else []
  {
    hide AtOrAfter, AtOrBefore, Between;
    if fs == [] {
      NothingBetween(startS, endS);
    } else {
      var l, r := if left == 0 then 0 else left - 1, if right == 0 then 0 else right - 1;
      forall i | 0 <= i < |fs[1..]|
        ensures (i >= l <==> AtOrAfter(fs[1..][i], startS)) && (i < r <==> AtOrBefore(fs[1..][i], endS))
      {
        assert fs[1..][i] == fs[i + 1];
      }
      BetweenIsSlice(fs[1..], startS, endS, l, r);
      assert left == 0 <==> AtOrAfter(fs[0], startS);
      assert right > 0 <==> AtOrBefore(fs[0], endS);
      BetweenOfHead(fs, startS, endS);
      SliceOfHead(fs, left, right, l, r);
    }
  }

  lemma NothingBetween(startS: real, endS: Option<real>)
    ensures Between([], startS, endS) == []
  {}

  lemma BetweenOfHead(fs: seq<Frame>, startS: real, endS: Option<real>)
    requires fs != []
    ensures Between(fs, startS, endS) ==
      (if AtOrAfter(fs[0], startS) && AtOrBefore(fs[0], endS) then [fs[0]] else []) + Between(fs[1..], startS, endS)
  {
    hide AtOrAfter, AtOrBefore;
  }

  lemma SliceOfHead<T>(s: seq<T>, left: nat, right: nat, l: nat, r: nat)
    requires s != [] && left <= |s| && right <= |s|
    requires l == (if left == 0 then 0 else left - 1) && r == (if right == 0 then 0 else right - 1)
    ensures (if left <= right then s[left..right] else []) ==
      (if left == 0 && right > 0 then [s[0]] else []) + (if l <= r then s[1..][l..r] else [])
  {}

  /** Filtering by time keeps, of the frames of each time, all when the time is between the ends, both included, and
      none otherwise. */
  lemma {:induction false} BetweenTells(fs: seq<Frame>, startS: real, endS: Option<real>, t: int)
    ensures AtTime(Between(fs, startS, endS), t)
         == if startS <= t as real && (endS.None? || t as real <= endS.value) then AtTime(fs, t) else []
  {
    if fs != [] {
      var rest := Between(fs[1..], startS, endS);
      BetweenTells(fs[1..], startS, endS, t);
      AtTimeOfOneMore(fs[0], rest, t);
      assert [] + rest == rest;
    }
  }

  /** A page: from its offset on, as many as are there up to the limit. */
  lemma PageTells<T>(s: seq<T>, offset: nat, limit: Option<nat>)
    ensures var page := Page(s, offset, limit);
      && (forall i :: 0 <= i < |page| ==> offset + i < |s| && page[i] == s[offset + i])
      && (|page| == 0 <==> offset >= |s| || limit == Some(0))
      && (limit.Some? ==> |page| <= limit.value)
      && (offset + |page| < |s| ==> limit == Some(|page|))
  {}

  /** The line reported is the first that does not validate, counted from one. */
  lemma {:induction false} FirstCorruptTells(lines: seq<Bytes>, decode: Decoder, k: nat)
    requires k <= |lines|
    ensures var corrupt := FirstCorrupt(lines, decode, k);
      && (corrupt.None? <==> forall i :: k <= i < |lines| ==> !decode(lines[i]).Corrupt?)
      && (corrupt.Some? ==>
            && k < corrupt.value <= |lines| && decode(lines[corrupt.value - 1]).Corrupt?
            && forall i :: k <= i < corrupt.value - 1 ==> !decode(lines[i]).Corrupt?)
    decreases |lines| - k
  {
    if k < |lines| { FirstCorruptTells(lines, decode, k + 1); }
  }

  /** The pages of one size from `offset` on, concatenated. */
  function Pages<T>(s: seq<T>, offset: nat, size: nat): seq<T>
    requires size > 0
    decreases |s| - Min(offset, |s|)
  {
    if offset >= |s| then [] else Page(s, offset, Some(size)) + Pages(s, offset + size, size)
  }

  lemma PageOfRest<T>(s: seq<T>, offset: nat, size: nat)
    ensures Page(s, offset, None) == Page(s, offset, Some(size)) + Page(s, offset + size, None)
  {}

  /** Pages of any size cover the unpaged list. */
  lemma {:induction false} PagesCoverEverything<T>(s: seq<T>, offset: nat, size: nat)
    requires size > 0
    ensures Pages(s, offset, size) == Page(s, offset, None)
    decreases |s| - Min(offset, |s|)
  {
    if offset < |s| {
      PagesCoverEverything(s, offset + size, size);
      PageOfRest(s, offset, size);
      hide Page;
    }
  }

  // ---------- the index ----------

  datatype IndexEntry = IndexEntry(simTime: int, byteOffset: nat)

  /** Entries for the first `k` lines. */
  function EntriesUpTo(lines: seq<Bytes>, decode: Decoder, k: nat): seq<IndexEntry>
    requires k <= |lines|
  {
    if k == 0 then []
    else
      var d := decode(lines[k - 1]);
      EntriesUpTo(lines, decode, k - 1)
      + if d.FrameLine? then [IndexEntry(d.frame.simTime, OffsetOf(lines, k - 1))] else []
  }

  predicate KeyLe(a: IndexEntry, b: IndexEntry) {
    a.simTime < b.simTime || (a.simTime == b.simTime && a.byteOffset <= b.byteOffset)
  }

  predicate Indices(order: seq<nat>, lo: nat, hi: nat) {
    forall n :: 0 <= n < |order| ==> lo <= order[n] < hi
  }

  function InsertIndex(entries: seq<IndexEntry>, k: nat, order: seq<nat>): (r: seq<nat>)
    requires k < |entries| && Indices(order, k + 1, |entries|)
    ensures Indices(r, k, |entries|)
  {
    if order == [] || KeyLe(entries[k], entries[order[0]]) then [k] + order
    else [order[0]] + InsertIndex(entries, k, order[1..])
  }

  /** `sorted(range(k, n), key=(sim_time_s, byte_offset))`. */
  function SortedFrom(entries: seq<IndexEntry>, k: nat): (order: seq<nat>)
    requires k <= |entries|
    ensures Indices(order, k, |entries|)
    decreases |entries| - k
  {
    if k == |entries| then [] else InsertIndex(entries, k, SortedFrom(entries, k + 1))
  }

  /** Picking frames by a list of indices. */
  function Pick(fs: seq<Frame>, order: seq<nat>): seq<Frame>
    requires Indices(order, 0, |fs|)
  {
    seq(|order|, n requires 0 <= n < |order| => fs[order[n]])
  }

  /** The entries describe the frames: same times, offsets ascending in log order. */
  ghost predicate Describes(entries: seq<IndexEntry>, fs: seq<Frame>) {
    && |entries| == |fs|
    && (forall i :: 0 <= i < |fs| ==> entries[i].simTime == fs[i].simTime)
    && forall i, j :: 0 <= i < j < |fs| ==> entries[i].byteOffset < entries[j].byteOffset
  }

  lemma {:induction false} PickOfInsert(entries: seq<IndexEntry>, fs: seq<Frame>, k: nat, order: seq<nat>)
    requires Describes(entries, fs) && k < |fs| && Indices(order, k + 1, |fs|)
    ensures Pick(fs, InsertIndex(entries, k, order)) == InsertFrame(fs[k], Pick(fs, order))
  {
    if order != [] {
      assert Pick(fs, order)[1..] == Pick(fs, order[1..]);
      if !KeyLe(entries[k], entries[order[0]]) { PickOfInsert(entries, fs, k, order[1..]); }
    }
  }

  /** Sorting indices by (time, offset) sorts the frames stably by time. */
  lemma {:induction false} IndexSortIsStableSort(entries: seq<IndexEntry>, fs: seq<Frame>, k: nat)
    requires Describes(entries, fs) && k <= |fs|
    ensures Pick(fs, SortedFrom(entries, k)) == StableSort(fs[k..])
    decreases |fs| - k
  {
    if k < |fs| {
      IndexSortIsStableSort(entries, fs, k + 1);
      PickOfInsert(entries, fs, k, SortedFrom(entries, k + 1));
      assert fs[k..][1..] == fs[k + 1..];
    }
  }

  lemma {:induction false} EntriesDescribe(lines: seq<Bytes>, decode: Decoder, k: nat)
    requires k <= |lines|
    requires forall l :: l in lines ==> l != []
    ensures Describes(EntriesUpTo(lines, decode, k), FramesUpTo(lines, decode, k))
    ensures forall e :: e in EntriesUpTo(lines, decode, k) ==> e.byteOffset < OffsetOf(lines, k)
  {
    if k > 0 {
      EntriesDescribe(lines, decode, k - 1);
      assert lines[k - 1] in lines;
      var before, frames := EntriesUpTo(lines, decode, k - 1), FramesUpTo(lines, decode, k - 1);
      var d, offset := decode(lines[k - 1]), OffsetOf(lines, k - 1);
      if d.FrameLine? { DescribesOneMore(before, frames, d.frame, offset); }
      hide Describes;
    }
  }

  lemma DescribesOneMore(entries: seq<IndexEntry>, fs: seq<Frame>, f: Frame, offset: nat)
    requires Describes(entries, fs) && forall e :: e in entries ==> e.byteOffset < offset
    ensures Describes(entries + [IndexEntry(f.simTime, offset)], fs + [f])
  {
    forall i | 0 <= i < |entries| ensures entries[i].byteOffset < offset { assert entries[i] in entries; }
  }

  /** Each indexed offset reads back a line, the one that was decoded for that entry. */
  lemma {:induction false} EntryReadsBack(file: Bytes, decode: Decoder, k: nat, i: nat)
    requires k <= |Lines(file)| && i < |EntriesUpTo(Lines(file), decode, k)|
    ensures |FramesUpTo(Lines(file), decode, k)| == |EntriesUpTo(Lines(file), decode, k)|
    ensures decode(LineAt(file, EntriesUpTo(Lines(file), decode, k)[i].byteOffset))
         == FrameLine(FramesUpTo(Lines(file), decode, k)[i])
  {
    hide Lines, LineEnd, LineAt;
    var lines := Lines(file);
    EntriesDescribe(lines, decode, k);
    EntriesDescribe(lines, decode, k - 1);
    if i < |EntriesUpTo(lines, decode, k - 1)| {
      EntryReadsBack(file, decode, k - 1, i);
    } else {
      OffsetReadsBack(file, k - 1);
    }
  }

  lemma EntryIsInside(file: Bytes, decode: Decoder, i: nat)
    requires i < |EntriesUpTo(Lines(file), decode, |Lines(file)|)|
    ensures EntriesUpTo(Lines(file), decode, |Lines(file)|)[i].byteOffset < |file|
  {
    hide Lines, LineEnd;
    var lines := Lines(file);
    EntriesDescribe(lines, decode, |lines|);
    LinesFrom(file, lines, |lines|);
    assert EntriesUpTo(lines, decode, |lines|)[i] in EntriesUpTo(lines, decode, |lines|);
  }

  // ---------- bisect ----------

  ghost predicate Ascending(times: seq<int>) { forall i, j :: 0 <= i < j < |times| ==> times[i] <= times[j] }

  /** `bisect_left`. */
  function BisectLeft(times: seq<int>, x: real): (k: nat)
    requires Ascending(times)
    ensures k <= |times| && forall i :: 0 <= i < |times| ==> (i < k <==> times[i] as real < x)
  {
    if times == [] || times[|times| - 1] as real < x then |times| else BisectLeft(times[..|times| - 1], x)
  }

  /** `bisect_right`. */
  function BisectRight(times: seq<int>, x: real): (k: nat)
    requires Ascending(times)
    ensures k <= |times| && forall i :: 0 <= i < |times| ==> (i < k <==> times[i] as real <= x)
  {
    if times == [] || times[|times| - 1] as real <= x then |times| else BisectRight(times[..|times| - 1], x)
  }

  function TimesOf(entries: seq<IndexEntry>, order: seq<nat>): seq<int>
    requires Indices(order, 0, |entries|)
  {
    seq(|order|, n requires 0 <= n < |order| => entries[order[n]].simTime)
  }

  // ---------- the service ----------

  predicate IsRequest(offset: int, limit: Option<int>) {
    offset >= 0 && (limit.Some? ==> 1 <= limit.value <= MAX_PAGE_SIZE)
  }

  /** What a well-formed request over a file is answered with. */
  function Answer(file: Bytes, decode: Decoder, startS: real, endS: Option<real>,
                  offset: nat, limit: Option<int>): RangeResult
    requires IsRequest(offset, limit)
  {
    var corrupt := FirstCorrupt(Lines(file), decode, 0);
    if corrupt.Some? then IndexError(corrupt.value)
    else Frames(Page(Replayed(file, decode, startS, endS), offset, if limit.None? then None else Some(limit.value)))
  }

  /** What another process appends to the log at some moment, and the modification time it leaves. */
  datatype Growth = Growth(tail: Bytes, modifiedNs: int)

  /** The log on disk. */
  class LogFile {
    var present: bool
    var content: Bytes
    var modifiedNs: int

    function Current(): Bytes
      reads this
    {
      if present then content else []
    }

    function Signature(): (int, int)
      reads this
    {
      if present then (|content|, modifiedNs) else (0, 0)
    }

    /** The log may grow like this: appends begin on a fresh line. */
    predicate Takes(growth: Growth)
      reads this
    {
      present && growth.tail != [] ==> EndsLine(content)
    }

    /** The writer's side, at a moment of its own choosing. */
    method Grow(growth: Growth)
      modifies this
      ensures present == old(present)
      ensures Current() == old(Current()) + if present then growth.tail else []
      ensures growth.tail == [] ==> unchanged(this)
    {
      if present && growth.tail != [] {
        content := content + growth.tail;
        modifiedNs := growth.modifiedNs;
      }
    }
  }

  datatype RangeResult = Frames(frames: seq<Frame>) | BadArgument | IndexError(line: nat)

  datatype CountResult = Count(count: int) | CountIndexError(line: nat)

  class ReplayService {
    const log: LogFile
    const decode: Decoder
    var entries: seq<IndexEntry>
    var byTime: seq<nat>
    var times: seq<int>
    var fileSignature: (int, int)
    ghost var indexed: Bytes

    ghost predicate Valid()
      reads this
    {
      && FirstCorrupt(Lines(indexed), decode, 0).None?
      && entries == EntriesUpTo(Lines(indexed), decode, |Lines(indexed)|)
      && byTime == SortedFrom(entries, 0)
      && times == TimesOf(entries, byTime)
    }

    /** A file with the size and modification time on record has at most grown since it was scanned. */
    ghost predicate SignatureIsHonest()
      reads this, log
    {
      fileSignature == log.Signature() ==> IsLinePrefix(indexed, log.Current())
    }

    /** What a refresh leaves indexed unless it meets a corrupt line: the file, when its signature is new. */
    ghost function Seen(): Bytes
      reads this, log
    {
      if fileSignature == log.Signature() then indexed else log.Current()
    }

    constructor Unindexed(log: LogFile, decode: Decoder)
      ensures Valid() && this.log == log && this.decode == decode && indexed == []
      ensures fileSignature == (-1, -1)
    {
      this.log, this.decode := log, decode;
      entries, byTime, times := [], [], [];
      fileSignature := (-1, -1);
      indexed := [];
    }

    /** `_build_index`: on a corrupt line nothing is replaced. The log may grow after its last line has been
        read and before its signature is taken. */
    method BuildIndex(meanwhile: Growth) returns (error: Option<nat>)
      requires log.Takes(meanwhile)
      modifies this, log
      ensures error == FirstCorrupt(Lines(old(log.Current())), decode, 0)
      ensures error.Some? ==> unchanged(this) && unchanged(log)
      ensures error.None? ==>
        && Valid() && indexed == old(log.Current()) && fileSignature == log.Signature()
        && log.present == old(log.present)
        && log.Current() == old(log.Current()) + (if log.present then meanwhile.tail else [])
        && SignatureIsHonest() && (indexed == log.Current() <==> !log.present || meanwhile.tail == [])
    {
      if !log.present {
        entries, byTime, times, fileSignature := [], [], [], (0, 0);
        indexed := [];
        return None;
      }
      var scanned: seq<IndexEntry> := [];
      var byteOffset := 0;
      var lines := Lines(log.content);
      for i := 0 to |lines|
        invariant FirstCorrupt(lines, decode, 0) == FirstCorrupt(lines, decode, i)
        invariant scanned == EntriesUpTo(lines, decode, i) && byteOffset == OffsetOf(lines, i)
        invariant unchanged(this) && unchanged(log)
      {
        var raw := lines[i];
        match decode(raw) {
          case MarkerRecord =>
          case Corrupt => return Some(i + 1);
          case FrameLine(frame) => scanned := scanned + [IndexEntry(frame.simTime, byteOffset)];
        }
        byteOffset := byteOffset + |raw|;
      }
      hide Lines, EntriesUpTo, SortedFrom, TimesOf, FirstCorrupt;
      entries := scanned;
      byTime := SortedFrom(scanned, 0);
      times := TimesOf(scanned, byTime);
      indexed := log.content;
      log.Grow(meanwhile);
      fileSignature := log.Signature();
      return None;
    }

    /** `_refresh_if_changed`: an index whose signature is still on the file is left alone. */
    method RefreshIfChanged(meanwhile: Growth) returns (error: Option<nat>)
      requires Valid() && SignatureIsHonest() && log.Takes(meanwhile)
      modifies this, log
      ensures error == FirstCorrupt(Lines(old(Seen())), decode, 0)
      ensures error.Some? || old(fileSignature == log.Signature()) ==> unchanged(this) && unchanged(log)
      ensures Valid() && SignatureIsHonest()
      ensures error.None? ==>
        indexed == old(Seen()) && IsLinePrefix(indexed, log.Current()) && fileSignature == log.Signature()
      ensures log.present == old(log.present)
      ensures error.None? && log.present && old(fileSignature != log.Signature()) ==>
        log.Current() == old(log.Current()) + meanwhile.tail
      ensures error.None? && old(fileSignature != log.Signature()) ==>
        (indexed == log.Current() <==> !log.present || meanwhile.tail == [])
    {
      hide FirstCorrupt, Lines;
      error := None;
      if fileSignature != log.Signature() {
        error := BuildIndex(meanwhile);
      }
    }

    /** `_matching_bounds` over a fresh index. */
    method MatchingBounds(startS: real, endS: Option<real>) returns (left: nat, right: nat)
      requires Valid()
      ensures left <= |byTime| && right <= |byTime| && |byTime| == |FramesOf(indexed, decode)|
      ensures IsBounds(StableSort(FramesOf(indexed, decode)), startS, endS, left, right)
    {
      IndexIsSorted();
      left := BisectLeft(times, startS);
      right := |times|;
      if endS.Some? {
        right := BisectRight(times, endS.value);
      }
    }

    /** `range`. The log may grow while the index is built, and again before the frames are read. */
    method Range(startS: real, endS: Option<real>, offset: int, limit: Option<int>,
                 meanwhile: Growth, beforeReads: Growth) returns (result: RangeResult)
      requires Valid() && SignatureIsHonest()
      requires log.Takes(meanwhile) && log.Takes(beforeReads) && (beforeReads.tail != [] ==> EndsLine(meanwhile.tail))
      modifies this, log
      ensures Valid() && SignatureIsHonest() && log.present == old(log.present)
      ensures result == BadArgument <==> offset < 0 || (limit.Some? && (limit.value < 1 || limit.value > 10_000))
      ensures result == BadArgument ==> unchanged(this) && unchanged(log)
      ensures IsRequest(offset, limit) ==>
        && result == Answer(old(Seen()), decode, startS, endS, offset, limit)
        && (result.Frames? ==> indexed == old(Seen()) && (beforeReads.tail == [] ==> fileSignature == log.Signature()))
        && (result.IndexError? ==> unchanged(this) && unchanged(log))
        && (result.Frames? && log.present ==>
              var scannedTail := if old(fileSignature != log.Signature()) then meanwhile.tail else [];
              log.Current() == old(log.Current()) + scannedTail + beforeReads.tail)
        && (old(fileSignature != log.Signature() || indexed == log.Current()) ==>
              result == Answer(old(log.Current()), decode, startS, endS, offset, limit))
    {
      hide Valid, FirstCorrupt, Replayed, Page, Lines;
      if offset < 0 { return BadArgument; }
      if limit.Some? && limit.value < 1 { return BadArgument; }
      if limit.Some? && limit.value > MAX_PAGE_SIZE { return BadArgument; }
      var error := RefreshIfChanged(meanwhile);
      if error.Some? { return IndexError(error.value); }
      log.Grow(beforeReads);
      var frames := ReadPage(startS, endS, offset, if limit.None? then None else Some(limit.value));
      result := Frames(frames);
    }

    /** The rest of `range`: bisect, cut the page, seek and read each line. */
    method ReadPage(startS: real, endS: Option<real>, offset: nat, limit: Option<nat>) returns (frames: seq<Frame>)
      requires Valid() && IsLinePrefix(indexed, log.Current())
      ensures frames == Page(Replayed(indexed, decode, startS, endS), offset, limit)
    {
      var left, right := MatchingBounds(startS, endS);
      hide Valid, Page, StableSort, FramesOf, Between, IsBounds;
      var start := Min(left + offset, right);
      var stop := if limit.None? then right else Min(start + limit.value, right);
      BoundsPage(StableSort(FramesOf(indexed, decode)), startS, endS, left, right, offset, limit);
      frames := ReadSelected(start, stop);
    }

    method ReadSelected(start: nat, stop: nat) returns (frames: seq<Frame>)
      requires Valid() && IsLinePrefix(indexed, log.Current()) && start <= stop <= |byTime|
      ensures |StableSort(FramesOf(indexed, decode))| == |byTime|
      ensures frames == StableSort(FramesOf(indexed, decode))[start..stop]
    {
      IndexIsSorted();
      ghost var fs := FramesOf(indexed, decode);
      frames := [];
      for i := start to stop
        invariant |frames| == i - start
        invariant forall n :: 0 <= n < |frames| ==> frames[n] == fs[byTime[start + n]]
      {
        var frame := ReadEntry(byTime[i]);
        frames := frames + [frame];
      }
      assert forall n :: 0 <= n < |frames| ==> frames[n] == Pick(fs, byTime)[start + n];
    }

    /** `_read_entry`: seek, read one line, validate it again. */
    method ReadEntry(entryIndex: nat) returns (frame: Frame)
      requires Valid() && IsLinePrefix(indexed, log.Current()) && entryIndex < |entries|
      ensures entryIndex < |FramesOf(indexed, decode)| && frame == FramesOf(indexed, decode)[entryIndex]
    {
      EntryReadsBack(indexed, decode, |Lines(indexed)|, entryIndex);
      EntryIsInside(indexed, decode, entryIndex);
      LineStaysPut(indexed, log.Current(), entries[entryIndex].byteOffset);
      var again := decode(LineAt(log.Current(), entries[entryIndex].byteOffset));
      frame := again.frame;
    }

    /** `count`. */
    method CountFrames(startS: real, endS: Option<real>, meanwhile: Growth) returns (result: CountResult)
      requires Valid() && SignatureIsHonest() && log.Takes(meanwhile)
      modifies this, log
      ensures Valid() && SignatureIsHonest()
      ensures var corrupt := FirstCorrupt(Lines(old(Seen())), decode, 0);
        if corrupt.Some? then result == CountIndexError(corrupt.value)
        else result.Count? && IsCount(FramesOf(old(Seen()), decode), startS, endS, result.count)
    {
      hide Lines, FirstCorrupt, IsCount, StableSort;
      var error := RefreshIfChanged(meanwhile);
      if error.Some? { return CountIndexError(error.value); }
      var left, right := MatchingBounds(startS, endS);
      BoundsCount(FramesOf(indexed, decode), startS, endS, left, right);
      result := Count(right as int - left as int);
    }

    lemma IndexIsSorted()
      requires Valid()
      ensures var fs := FramesOf(indexed, decode);
        && |entries| == |fs| && |byTime| == |fs| && |StableSort(fs)| == |fs|
        && Pick(fs, byTime) == StableSort(fs) && SortedByTime(StableSort(fs))
        && |times| == |fs| && Ascending(times)
        && forall n :: 0 <= n < |times| ==> times[n] == StableSort(fs)[n].simTime
    {
      var lines, fs := Lines(indexed), FramesOf(indexed, decode);
      EntriesDescribe(lines, decode, |lines|);
      IndexSortIsStableSort(entries, fs, 0);
      assert fs[0..] == fs;
      StableSortSorts(fs);
      var sorted := StableSort(fs);
      forall n | 0 <= n < |times| ensures times[n] == sorted[n].simTime {
        assert sorted[n] == Pick(fs, byTime)[n];
      }
    }
  }

  /** A frame appended between the scan and the signature is not served until the next change. */
  method LateAppendIsMissed(service: ReplayService, late: Growth) returns (first: RangeResult, second: RangeResult)
    requires service.Valid() && service.SignatureIsHonest() && service.log.Takes(late)
    requires service.log.present && service.fileSignature != service.log.Signature()
    modifies service, service.log
    ensures first == second == Answer(old(service.log.Current()), service.decode, 0.0, None, 0, None)
    ensures first.Frames? ==> service.log.Current() == old(service.log.Current()) + late.tail
  {
    hide FirstCorrupt, Lines, Page, Replayed;
    var nothing := Growth([], 0);
    first := service.Range(0.0, None, 0, None, late, nothing);
    second := service.Range(0.0, None, 0, None, nothing, nothing);
  }

  /** Bounds of the frames between two times in a sorted list. */
  ghost predicate IsBounds(fs: seq<Frame>, startS: real, endS: Option<real>, left: nat, right: nat) {
    && left <= |fs| && right <= |fs|
    && (forall i :: 0 <= i < |fs| ==> (i >= left <==> AtOrAfter(fs[i], startS)))
    && (forall i :: 0 <= i < |fs| ==> (i < right <==> AtOrBefore(fs[i], endS)))
  }

  lemma BoundsSelect(fs: seq<Frame>, startS: real, endS: Option<real>, left: nat, right: nat)
    requires IsBounds(fs, startS, endS, left, right)
    ensures Between(fs, startS, endS) == if left <= right then fs[left..right] else []
  {
    BetweenIsSlice(fs, startS, endS, left, right);
  }

  lemma BoundsPage(fs: seq<Frame>, startS: real, endS: Option<real>, left: nat, right: nat,
                   offset: nat, limit: Option<nat>)
    requires IsBounds(fs, startS, endS, left, right)
    ensures var start := Min(left + offset, right);
      start <= |fs|
      && fs[start..if limit.None? then right else Min(start + limit.value, right)]
         == Page(Between(fs, startS, endS), offset, limit)
  {
    BoundsSelect(fs, startS, endS, left, right);
    hide Between, AtOrAfter, AtOrBefore;
    PageOfSlice(fs, left, right, offset, limit);
  }

  lemma PageOfSlice(fs: seq<Frame>, left: nat, right: nat, offset: nat, limit: Option<nat>)
    requires left <= |fs| && right <= |fs|
    ensures var start := Min(left + offset, right);
      fs[start..if limit.None? then right else Min(start + limit.value, right)]
      == Page(if left <= right then fs[left..right] else [], offset, limit)
  {
    var slice, start := if left <= right then fs[left..right] else [], Min(left + offset, right);
    var until := if limit.None? then right else Min(start + limit.value, right);
    var pageUntil := if limit.None? then |slice| else Min(Min(offset, |slice|) + limit.value, |slice|);
    assert Page(slice, offset, limit) == slice[Min(offset, |slice|)..pageUntil];
    if left + offset <= right {
      assert start == left + offset && until == left + pageUntil;
      assert slice[offset..pageUntil] == fs[start..until];
    } else {
      assert start == until == right && pageUntil == |slice| == Min(offset, |slice|);
    }
  }

  lemma BoundsCount(fs: seq<Frame>, startS: real, endS: Option<real>, left: nat, right: nat)
    requires IsBounds(StableSort(fs), startS, endS, left, right)
    ensures IsCount(fs, startS, endS, right - left)
  {
    hide Between, AtOrAfter, AtOrBefore, StableSort, SortedByTime;
    var sorted := StableSort(fs);
    SortKeepsMembers(fs);
    BoundsSelect(sorted, startS, endS, left, right);
    if right < left {
      assert !AtOrAfter(sorted[right], startS) && !AtOrBefore(sorted[right], endS);
      assert sorted[right] in fs;
    }
  }

  lemma SortKeepsMembers(fs: seq<Frame>)
    ensures forall f :: f in fs <==> f in StableSort(fs)
  {
    hide SortedByTime;
    StableSortSorts(fs);
    assert forall f :: f in fs <==> f in multiset(fs);
    assert forall f :: f in StableSort(fs) <==> f in multiset(StableSort(fs));
  }

  /** What `count` reports: the number of frames replayed, unless the bounds are crossed around
      some frame; then it is negative. */
  ghost predicate IsCount(fs: seq<Frame>, startS: real, endS: Option<real>, count: int) {
    var crossed := exists f :: f in fs && !AtOrAfter(f, startS) && !AtOrBefore(f, endS);
    && (crossed <==> count < 0)
    && (!crossed ==> count == |Between(StableSort(fs), startS, endS)|)
  }
}

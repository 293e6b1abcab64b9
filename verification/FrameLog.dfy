/** The byte-budgeted frame log: what `append_serialized` leaves on disk, as a
    list of records, and the bounds that hold after any sequence of appends.
  */
module FrameLog {
  import opened Prelude
  import opened LogLines

  /** What one line of the log is. */
  datatype Record = Kept(payload: Bytes) | LimitReached(persisted: nat)

  // ---------- the marker line ----------

  function Decimal(n: nat): (s: string)
    ensures |s| > 0 && forall i :: 0 <= i < |s| ==> '0' <= s[i] <= '9'
  {
    var digit := ['0' + (n % 10) as char];
    if n < 10 then digit else Decimal(n / 10) + digit
  }

  function Digit(c: char): nat
    requires '0' <= c <= '9'
  {
    c as int - '0' as int
  }

  function Reading(s: string): nat
    requires forall i :: 0 <= i < |s| ==> '0' <= s[i] <= '9'
  {
    if s == "" then 0 else 10 * Reading(s[..|s| - 1]) + Digit(s[|s| - 1])
  }

  /** The sizes in the marker read back as the numbers they are. */
  lemma {:induction false} DecimalReads(n: nat)
    ensures Reading(Decimal(n)) == n
  {
    if n >= 10 {
      DecimalReads(n / 10);
      assert Decimal(n)[..|Decimal(n)| - 1] == Decimal(n / 10);
    }
  }

  predicate IsAscii(s: string) { forall i :: 0 <= i < |s| ==> ' ' <= s[i] <= '~' }

  function Ascii(s: string): (b: Bytes)
    requires IsAscii(s)
    ensures |b| == |s| && NEWLINE !in b
  {
    seq(|s|, i requires 0 <= i < |s| => s[i] as int as Byte)
  }

  type AsciiText = s: string | IsAscii(s) witness ""

  const MARKER_TYPE: AsciiText := "{\"record_type\":"
  const MARKER_NAME: AsciiText := "\"frame_log_limit_reached\""
  const MARKER_LIMIT: AsciiText := ",\"max_run_bytes\":"
  const MARKER_SIZE: AsciiText := ",\"persisted_bytes\":"

  function Join(a: AsciiText, b: AsciiText): AsciiText { a + b }

  function Field(name: AsciiText, n: nat): AsciiText { Join(name, Decimal(n)) }

  function MarkerText(maxRunBytes: nat, persisted: nat): AsciiText {
    Join(Join(Join(MARKER_TYPE, MARKER_NAME), Join(Field(MARKER_LIMIT, maxRunBytes), Field(MARKER_SIZE, persisted))), "}")
  }

  function MarkerLine(maxRunBytes: nat, persisted: nat): (line: Bytes)
    ensures IsLine(line)
  {
    Ascii(MarkerText(maxRunBytes, persisted)) + [NEWLINE]
  }

  lemma {:induction false} LongerNumbersAreLarger(m: nat, n: nat)
    requires m <= n
    ensures |Decimal(m)| <= |Decimal(n)|
  {
    if n >= 10 && m >= 10 { LongerNumbersAreLarger(m / 10, n / 10); }
  }

  // ---------- the file as records ----------

  function LineOf(maxRunBytes: Option<nat>, r: Record): Bytes {
    match r
    case Kept(payload) => payload + [NEWLINE]
    case LimitReached(persisted) => if maxRunBytes.Some? then MarkerLine(maxRunBytes.value, persisted) else []
  }

  function FileOf(maxRunBytes: Option<nat>, records: seq<Record>): Bytes {
    Concat(LinesOf(maxRunBytes, records))
  }

  function LinesOf(maxRunBytes: Option<nat>, records: seq<Record>): (lines: seq<Bytes>)
    ensures |lines| == |records|
    ensures forall i :: 0 <= i < |lines| ==> lines[i] == LineOf(maxRunBytes, records[i])
  {
    seq(|records|, i requires 0 <= i < |records| => LineOf(maxRunBytes, records[i]))
  }

  predicate HasLimit(records: seq<Record>) { exists i :: 0 <= i < |records| && records[i].LimitReached? }

  function Payloads(records: seq<Record>): seq<Bytes> {
    if records == [] then []
    else
      var last := records[|records| - 1];
      Payloads(records[..|records| - 1]) + if last.Kept? then [last.payload] else []
  }

  predicate Fits(maxRunBytes: Option<nat>, records: seq<Record>, payload: Bytes) {
    maxRunBytes.None? || |FileOf(maxRunBytes, records)| + |payload| + 1 <= maxRunBytes.value
  }

  /** One append: the frame when it fits, else the marker once, else nothing. */
  function Append(maxRunBytes: Option<nat>, records: seq<Record>, payload: Bytes): seq<Record> {
    if Fits(maxRunBytes, records, payload) then records + [Kept(payload)]
    else if HasLimit(records) then records
    else records + [LimitReached(|FileOf(maxRunBytes, records)|)]
  }

  function AppendAll(maxRunBytes: Option<nat>, payloads: seq<Bytes>): seq<Record> {
    if payloads == [] then []
    else Append(maxRunBytes, AppendAll(maxRunBytes, payloads[..|payloads| - 1]), payloads[|payloads| - 1])
  }

  lemma OneMore(maxRunBytes: Option<nat>, records: seq<Record>, r: Record)
    ensures FileOf(maxRunBytes, records + [r]) == FileOf(maxRunBytes, records) + LineOf(maxRunBytes, r)
    ensures HasLimit(records + [r]) <==> HasLimit(records) || r.LimitReached?
    ensures Payloads(records + [r]) == Payloads(records) + if r.Kept? then [r.payload] else []
  {
    hide LineOf;
    var more := records + [r];
    var lines := LinesOf(maxRunBytes, more);
    assert lines[..|lines| - 1] == LinesOf(maxRunBytes, records);
    assert more[..|more| - 1] == records;
    assert more[|records|] == r;
    assert forall i :: 0 <= i < |records| ==> more[i] == records[i];
  }

  /** `FrameLogger`: one open log file and its counters. */
  class FrameLogger {
    var file: Bytes
    var count: nat
    const maxRunBytes: Option<nat>
    var logTruncated: bool
    var limitRecordWritten: bool
    ghost var records: seq<Record>

    ghost predicate Valid()
      reads this
    {
      && file == FileOf(maxRunBytes, records)
      && count == |Payloads(records)|
      && limitRecordWritten == HasLimit(records)
      && (limitRecordWritten ==> logTruncated)
    }

    constructor (maxRunBytes: Option<nat>)
      ensures Valid() && records == [] && file == [] && this.maxRunBytes == maxRunBytes && !logTruncated
    {
      file, count := [], 0;
      this.maxRunBytes := maxRunBytes;
      logTruncated, limitRecordWritten := false, false;
      records := [];
    }

    method AppendSerialized(payload: Bytes)
      requires Valid()
      modifies this
      ensures Valid()
      ensures records == Append(maxRunBytes, old(records), payload)
      ensures maxRunBytes.None? || |old(file)| + |payload| + 1 <= maxRunBytes.value ==>
        && file == old(file) + payload + [NEWLINE] && count == old(count) + 1
        && logTruncated == old(logTruncated) && limitRecordWritten == old(limitRecordWritten)
      ensures maxRunBytes.Some? && |old(file)| + |payload| + 1 > maxRunBytes.value ==>
        && file == old(file) + (if old(limitRecordWritten) then [] else MarkerLine(maxRunBytes.value, |old(file)|))
        && count == old(count) && logTruncated && limitRecordWritten
    {
      hide FileOf, HasLimit, Payloads;
      var line := payload + [NEWLINE];
      if maxRunBytes.Some? {
        var currentSize := |file|;
        if currentSize + |line| > maxRunBytes.value {
          logTruncated := true;
          if !limitRecordWritten {
            OneMore(maxRunBytes, records, LimitReached(currentSize));
            file := file + MarkerLine(maxRunBytes.value, currentSize);
            limitRecordWritten := true;
            records := records + [LimitReached(currentSize)];
          }
          return;
        }
      }
      OneMore(maxRunBytes, records, Kept(payload));
      file := file + line;
      count := count + 1;
      records := records + [Kept(payload)];
    }
  }

  // ---------- what any sequence of appends keeps ----------

  ghost predicate OneLimit(records: seq<Record>) {
    forall i, j :: 0 <= i < |records| && 0 <= j < |records| && records[i].LimitReached? && records[j].LimitReached? ==>
      i == j
  }

  /** From an empty file, after any appends: within the budget, or within it plus one marker line;
      at most one marker, stating a size within the budget. */
  lemma {:induction false} BudgetHolds(max: nat, payloads: seq<Bytes>)
    ensures var records := AppendAll(Some(max), payloads);
      && |FileOf(Some(max), records)| <= max + (if HasLimit(records) then |MarkerLine(max, max)| else 0)
      && OneLimit(records)
      && forall i :: 0 <= i < |records| && records[i].LimitReached? ==> records[i].persisted <= max
  {
    hide FileOf, HasLimit;
    NothingWritten(Some(max));
    if payloads != [] {
      var n := |payloads| - 1;
      var before := AppendAll(Some(max), payloads[..n]);
      BudgetHolds(max, payloads[..n]);
      var size := |FileOf(Some(max), before)|;
      OneMore(Some(max), before, Kept(payloads[n]));
      OneMore(Some(max), before, LimitReached(size));
      LimitIsSeen(before);
      if size <= max { LongerNumbersAreLarger(size, max); }
    }
  }

  lemma NothingWritten(maxRunBytes: Option<nat>)
    ensures FileOf(maxRunBytes, []) == [] && !HasLimit([])
  {}

  lemma LimitIsSeen(records: seq<Record>)
    ensures !HasLimit(records) ==> forall i :: 0 <= i < |records| ==> !records[i].LimitReached?
  {}

  // ---------- exactly when frames are left out ----------

  /** What the frames take on disk, one newline each. */
  function SizeOf(payloads: seq<Bytes>): nat {
    if payloads == [] then 0 else SizeOf(payloads[..|payloads| - 1]) + |payloads[|payloads| - 1]| + 1
  }

  /** One append, on bytes: a frame that stays within the budget is written with its newline; one that does not leaves
      the marker, with the size so far, unless there is one. */
  lemma AppendOnDisk(maxRunBytes: Option<nat>, records: seq<Record>, payload: Bytes)
    ensures var before, after := FileOf(maxRunBytes, records), Append(maxRunBytes, records, payload);
      if maxRunBytes.None? || |before| + |payload| + 1 <= maxRunBytes.value then
        && FileOf(maxRunBytes, after) == before + payload + [NEWLINE]
        && Payloads(after) == Payloads(records) + [payload] && (HasLimit(after) <==> HasLimit(records))
      else
        && FileOf(maxRunBytes, after) == before + (if HasLimit(records) then [] else MarkerLine(maxRunBytes.value, |before|))
        && Payloads(after) == Payloads(records) && HasLimit(after)
  {
    hide FileOf, HasLimit, Payloads, MarkerLine;
    OneMore(maxRunBytes, records, Kept(payload));
    OneMore(maxRunBytes, records, LimitReached(|FileOf(maxRunBytes, records)|));
  }

  /** While the frames fit the budget all together, every one is written and there is no marker; from the first that
      exceeds it on, there is one. */
  lemma {:induction false} MarkerIff(max: nat, payloads: seq<Bytes>)
    ensures var records := AppendAll(Some(max), payloads);
      && (HasLimit(records) <==> SizeOf(payloads) > max)
      && (SizeOf(payloads) <= max ==> Accepted(Some(max), payloads) == payloads == Payloads(records)
                                      && |FileOf(Some(max), records)| == SizeOf(payloads))
  {
    hide FileOf, HasLimit, Payloads;
    NothingWritten(Some(max));
    if payloads != [] {
      var n := |payloads| - 1;
      MarkerIff(max, payloads[..n]);
      AppendOnDisk(Some(max), AppendAll(Some(max), payloads[..n]), payloads[n]);
      assert payloads == payloads[..n] + [payloads[n]];
    } else {
      NothingKept();
    }
  }

  lemma NothingKept()
    ensures Payloads([]) == []
  {}

  /** Without a budget every frame is written. */
  lemma {:induction false} UnlimitedKeepsAll(payloads: seq<Bytes>)
    ensures Accepted(None, payloads) == payloads == Payloads(AppendAll(None, payloads))
    ensures |FileOf(None, AppendAll(None, payloads))| == SizeOf(payloads)
  {
    hide FileOf, HasLimit, Payloads;
    NothingWritten(None);
    NothingKept();
    if payloads != [] {
      var n := |payloads| - 1;
      UnlimitedKeepsAll(payloads[..n]);
      AppendOnDisk(None, AppendAll(None, payloads[..n]), payloads[n]);
      assert payloads == payloads[..n] + [payloads[n]];
    }
  }

  /** The frames that got in, decided one append at a time; later and smaller frames may still fit
      after the marker. */
  function Accepted(maxRunBytes: Option<nat>, payloads: seq<Bytes>): seq<Bytes> {
    if payloads == [] then []
    else
      var n := |payloads| - 1;
      Accepted(maxRunBytes, payloads[..n])
      + if Fits(maxRunBytes, AppendAll(maxRunBytes, payloads[..n]), payloads[n]) then [payloads[n]] else []
  }

  lemma {:induction false} KeptAreAccepted(maxRunBytes: Option<nat>, payloads: seq<Bytes>)
    ensures Payloads(AppendAll(maxRunBytes, payloads)) == Accepted(maxRunBytes, payloads)
  {
    if payloads != [] {
      var n := |payloads| - 1;
      KeptAreAccepted(maxRunBytes, payloads[..n]);
      var before := AppendAll(maxRunBytes, payloads[..n]);
      OneMore(maxRunBytes, before, Kept(payloads[n]));
      OneMore(maxRunBytes, before, LimitReached(|FileOf(maxRunBytes, before)|));
      hide FileOf, HasLimit, Payloads;
    }
  }

  /** The marker is there exactly when some frame was left out. */
  lemma {:induction false} MarkerMeansLoss(max: nat, payloads: seq<Bytes>)
    ensures HasLimit(AppendAll(Some(max), payloads)) <==> Accepted(Some(max), payloads) != payloads
    ensures |Accepted(Some(max), payloads)| <= |payloads|
  {
    hide FileOf, HasLimit;
    NothingWritten(Some(max));
    if payloads != [] {
      var n := |payloads| - 1;
      var before := AppendAll(Some(max), payloads[..n]);
      MarkerMeansLoss(max, payloads[..n]);
      assert payloads == payloads[..n] + [payloads[n]];
      OneMore(Some(max), before, Kept(payloads[n]));
      OneMore(Some(max), before, LimitReached(|FileOf(Some(max), before)|));
    }
  }

  lemma {:induction false} RecordsAreLines(maxRunBytes: Option<nat>, payloads: seq<Bytes>)
    requires forall p :: p in payloads ==> NEWLINE !in p
    ensures forall l :: l in LinesOf(maxRunBytes, AppendAll(maxRunBytes, payloads)) ==> IsLine(l)
    ensures forall r :: r in AppendAll(maxRunBytes, payloads) && r.Kept? ==> r.payload in payloads
    ensures forall r :: r in AppendAll(maxRunBytes, payloads) && r.LimitReached? ==> maxRunBytes.Some?
  {
    hide FileOf, HasLimit, MarkerLine;
    if payloads != [] {
      var n := |payloads| - 1;
      RecordsAreLines(maxRunBytes, payloads[..n]);
      var before, records := AppendAll(maxRunBytes, payloads[..n]), AppendAll(maxRunBytes, payloads);
      var old_lines, lines := LinesOf(maxRunBytes, before), LinesOf(maxRunBytes, records);
      forall i | 0 <= i < |lines| ensures IsLine(lines[i]) {
        if i < |before| {
          assert lines[i] == old_lines[i] && old_lines[i] in old_lines;
        } else if records[i].Kept? {
          assert records[i].payload == payloads[n] && payloads[n] in payloads;
        }
      }
    }
  }
}

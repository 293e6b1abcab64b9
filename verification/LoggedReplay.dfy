/** The logger and the replay service together: replaying a log written under a
    byte budget returns exactly the frames the logger accepted.
  */
module LoggedReplay {
  import opened Prelude
  import opened LogLines
  import opened FrameLog
  import opened Replay

  /** The validator on what the logger writes: its marker is recognised, and the payloads are frames. */
  ghost predicate ReadsBack(decode: Decoder, maxRunBytes: Option<nat>, payloads: seq<Bytes>) {
    && (forall p :: p in payloads ==> NEWLINE !in p && decode(p + [NEWLINE]).FrameLine?)
    && (forall n: nat :: maxRunBytes.Some? ==> decode(MarkerLine(maxRunBytes.value, n)) == MarkerRecord)
  }

  function FramesIn(decode: Decoder, payloads: seq<Bytes>): (fs: seq<Frame>)
    requires forall p :: p in payloads ==> decode(p + [NEWLINE]).FrameLine?
    ensures |fs| == |payloads|
  {
    seq(|payloads|, i requires 0 <= i < |payloads| => decode(payloads[i] + [NEWLINE]).frame)
  }

  /** Every line the logger writes decodes to the frame it kept, or to the marker. */
  ghost predicate Decodes(decode: Decoder, maxRunBytes: Option<nat>, records: seq<Record>) {
    forall i :: 0 <= i < |records| ==>
      var d := decode(LineOf(maxRunBytes, records[i]));
      if records[i].Kept? then d.FrameLine? else d.MarkerRecord?
  }

  lemma {:induction false} RecordsDecode(decode: Decoder, maxRunBytes: Option<nat>, records: seq<Record>, k: nat)
    requires k <= |records| && Decodes(decode, maxRunBytes, records)
    ensures forall p :: p in Payloads(records[..k]) ==> decode(p + [NEWLINE]).FrameLine?
    ensures FramesUpTo(LinesOf(maxRunBytes, records), decode, k) == FramesIn(decode, Payloads(records[..k]))
  {
    hide MarkerLine;
    if k > 0 {
      var n := k - 1;
      RecordsDecode(decode, maxRunBytes, records, n);
      assert records[..k][..n] == records[..n];
      var d, before := decode(LineOf(maxRunBytes, records[n])), Payloads(records[..n]);
      assert LinesOf(maxRunBytes, records)[n] == LineOf(maxRunBytes, records[n]);
      hide LinesOf;
      if records[n].Kept? {
        assert Payloads(records[..k]) == before + [records[n].payload];
        hide Payloads;
        FramesInOneMore(decode, before, records[n].payload);
      }
    }
  }

  lemma FramesInOneMore(decode: Decoder, payloads: seq<Bytes>, payload: Bytes)
    requires forall p :: p in payloads ==> decode(p + [NEWLINE]).FrameLine?
    requires decode(payload + [NEWLINE]).FrameLine?
    ensures forall p :: p in payloads + [payload] ==> decode(p + [NEWLINE]).FrameLine?
    ensures FramesIn(decode, payloads + [payload])
         == FramesIn(decode, payloads) + [decode(payload + [NEWLINE]).frame]
  {}

  lemma {:induction false} NothingIsCorrupt(lines: seq<Bytes>, decode: Decoder, k: nat)
    requires k <= |lines| && forall i :: 0 <= i < |lines| ==> !decode(lines[i]).Corrupt?
    ensures FirstCorrupt(lines, decode, k).None?
    decreases |lines| - k
  {
    if k < |lines| { NothingIsCorrupt(lines, decode, k + 1); }
  }

  lemma LogDecodes(decode: Decoder, maxRunBytes: Option<nat>, payloads: seq<Bytes>)
    requires ReadsBack(decode, maxRunBytes, payloads)
    ensures Decodes(decode, maxRunBytes, AppendAll(maxRunBytes, payloads))
  {
    RecordsAreLines(maxRunBytes, payloads);
    hide AppendAll, MarkerLine, IsLine, LinesOf;
    var records := AppendAll(maxRunBytes, payloads);
    forall i | 0 <= i < |records|
      ensures var d := decode(LineOf(maxRunBytes, records[i]));
              if records[i].Kept? then d.FrameLine? else d.MarkerRecord?
    {
      var r := records[i];
      assert r in records;
      match r
      case Kept(payload) => assert payload in payloads;
      case LimitReached(persisted) => assert decode(MarkerLine(maxRunBytes.value, persisted)) == MarkerRecord;
    }
  }

  /** From an empty file: the log indexes without a corrupt line and holds exactly the accepted
      frames, in order, whether or not smaller frames were accepted after the marker. */
  lemma LogHoldsAccepted(decode: Decoder, maxRunBytes: Option<nat>, payloads: seq<Bytes>)
    requires ReadsBack(decode, maxRunBytes, payloads)
    ensures var file, accepted := FileOf(maxRunBytes, AppendAll(maxRunBytes, payloads)), Accepted(maxRunBytes, payloads);
      && FirstCorrupt(Lines(file), decode, 0).None?
      && (forall p :: p in accepted ==> decode(p + [NEWLINE]).FrameLine?)
      && FramesOf(file, decode) == FramesIn(decode, accepted)
  {
    var records := AppendAll(maxRunBytes, payloads);
    var lines := LinesOf(maxRunBytes, records);
    RecordsAreLines(maxRunBytes, payloads);
    LinesOfConcat(lines);
    LogDecodes(decode, maxRunBytes, payloads);
    RecordsDecode(decode, maxRunBytes, records, |records|);
    assert records[..|records|] == records;
    KeptAreAccepted(maxRunBytes, payloads);
    NothingIsCorrupt(lines, decode, 0);
  }

  /** The logger's counter is the number of frames an index finds. */
  lemma CountIsIndexed(logger: FrameLogger, decode: Decoder, payloads: seq<Bytes>)
    requires logger.Valid() && logger.records == AppendAll(logger.maxRunBytes, payloads)
    requires ReadsBack(decode, logger.maxRunBytes, payloads)
    ensures FirstCorrupt(Lines(logger.file), decode, 0).None?
    ensures |FramesOf(logger.file, decode)| == logger.count
  {
    LogHoldsAccepted(decode, logger.maxRunBytes, payloads);
    KeptAreAccepted(logger.maxRunBytes, payloads);
  }

  /** The logger only ever appends on a fresh line, so an index of an earlier file stays readable. */
  lemma {:induction false} LogGrowsByLines(maxRunBytes: Option<nat>, payloads: seq<Bytes>, k: nat)
    requires k <= |payloads|
    ensures IsLinePrefix(FileOf(maxRunBytes, AppendAll(maxRunBytes, payloads[..k])),
                         FileOf(maxRunBytes, AppendAll(maxRunBytes, payloads)))
    decreases |payloads|
  {
    hide FileOf, HasLimit, Payloads, LineOf, Fits;
    if k == |payloads| {
      assert payloads[..k] == payloads;
    } else {
      var n := |payloads| - 1;
      assert payloads[..n][..k] == payloads[..k];
      LogGrowsByLines(maxRunBytes, payloads[..n], k);
      var before := AppendAll(maxRunBytes, payloads[..n]);
      OneMore(maxRunBytes, before, Kept(payloads[n]));
      OneMore(maxRunBytes, before, LimitReached(|FileOf(maxRunBytes, before)|));
      FileEndsLine(maxRunBytes, payloads[..k]);
    }
  }

  lemma {:induction false} FileEndsLine(maxRunBytes: Option<nat>, payloads: seq<Bytes>)
    ensures EndsLine(FileOf(maxRunBytes, AppendAll(maxRunBytes, payloads)))
  {
    if payloads != [] {
      var n := |payloads| - 1;
      FileEndsLine(maxRunBytes, payloads[..n]);
      var before := AppendAll(maxRunBytes, payloads[..n]);
      OneMore(maxRunBytes, before, Kept(payloads[n]));
      OneMore(maxRunBytes, before, LimitReached(|FileOf(maxRunBytes, before)|));
      hide FileOf, HasLimit, Payloads, MarkerLine;
    }
  }

  lemma {:induction false} AllBetween(fs: seq<Frame>)
    requires forall f :: f in fs ==> f.simTime >= 0
    ensures Between(fs, 0.0, None) == fs
  {
    if fs != [] {
      AllBetween(fs[1..]);
      assert fs[0] in fs && fs == [fs[0]] + fs[1..];
    }
  }

  /** Replaying that log from time zero, unpaged, gives the accepted frames in stable time order,
      as many as were accepted. */
  lemma ReplayReturnsAccepted(decode: Decoder, maxRunBytes: Option<nat>, payloads: seq<Bytes>)
    requires ReadsBack(decode, maxRunBytes, payloads)
    requires forall p :: p in payloads ==> decode(p + [NEWLINE]).frame.simTime >= 0
    ensures var file, accepted := FileOf(maxRunBytes, AppendAll(maxRunBytes, payloads)), Accepted(maxRunBytes, payloads);
      && (forall p :: p in accepted ==> decode(p + [NEWLINE]).FrameLine?)
      && Replayed(file, decode, 0.0, None) == StableSort(FramesIn(decode, accepted))
      && |Replayed(file, decode, 0.0, None)| == |accepted|
  {
    LogHoldsAccepted(decode, maxRunBytes, payloads);
    AcceptedArePayloads(maxRunBytes, payloads);
    var fs := FramesIn(decode, Accepted(maxRunBytes, payloads));
    StableSortSorts(fs);
    var sorted := StableSort(fs);
    forall f | f in sorted ensures f.simTime >= 0 {
      assert f in multiset(sorted);
      assert f in fs;
    }
    AllBetween(sorted);
  }

  lemma {:induction false} AcceptedArePayloads(maxRunBytes: Option<nat>, payloads: seq<Bytes>)
    ensures forall p :: p in Accepted(maxRunBytes, payloads) ==> p in payloads
  {
    if payloads != [] { AcceptedArePayloads(maxRunBytes, payloads[..|payloads| - 1]); }
  }
}

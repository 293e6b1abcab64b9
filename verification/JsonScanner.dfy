/** The one-pass bracket scan over provider text, proved against a definition
    that mentions neither its registers nor its loop, and the law that JSON
    values printed inside prose come back exactly, in order.
  */
module JsonScanner {
  import opened JsonText

  /** A block occupies positions from..to, the end excluded. */
  datatype Span = Span(from: nat, to: nat)

  function TextOf(t: string, s: Span): string
    requires s.from <= s.to <= |t|
  {
    t[s.from..s.to]
  }

  ghost predicate Opens(t: string, i: nat) {
    i < |t| && IsOpener(t[i]) && QuoteAt(t, i) == Outside
  }

  ghost predicate NoOpens(t: string, lo: nat, hi: nat) {
    forall i :: lo <= i < hi ==> !Opens(t, i)
  }

  /** `s` starts at an opener and ends at the first return to the depth before it. */
  ghost predicate IsBlock(t: string, s: Span) {
    && s.from < s.to <= |t|
    && Opens(t, s.from)
    && Net(t, s.to) == Net(t, s.from)
    && forall j :: s.from < j < s.to ==> Net(t, j) > Net(t, s.from)
  }

  ghost predicate IsUnclosed(t: string, a: nat) {
    Opens(t, a) && forall j :: a < j <= |t| ==> Net(t, j) > Net(t, a)
  }

  /** Where the block before number `k` ends. */
  function EndBefore(spans: seq<Span>, k: nat): nat
    requires k <= |spans|
  {
    if k == 0 then 0 else spans[k - 1].to
  }

  function EndOf(spans: seq<Span>): nat { EndBefore(spans, |spans|) }

  ghost predicate StartsAfter(t: string, from: nat, s: Span) {
    from <= s.from && NoOpens(t, from, s.from)
  }

  /** Every block starts at the first opener after the previous one. */
  ghost predicate IsChain(t: string, spans: seq<Span>) {
    forall k :: 0 <= k < |spans| ==> IsBlock(t, spans[k]) && StartsAfter(t, EndBefore(spans, k), spans[k])
  }

  /** A complete scan: a chain after which no opener is left, or only one that never closes. */
  ghost predicate IsScan(t: string, spans: seq<Span>) {
    && IsChain(t, spans)
    && EndOf(spans) <= |t|
    && (|| NoOpens(t, EndOf(spans), |t|)
        || exists a :: EndOf(spans) <= a < |t| && NoOpens(t, EndOf(spans), a) && IsUnclosed(t, a))
  }

  lemma ChainGrows(t: string, spans: seq<Span>, s: Span)
    requires IsChain(t, spans) && IsBlock(t, s) && StartsAfter(t, EndOf(spans), s)
    ensures IsChain(t, spans + [s]) && EndOf(spans + [s]) == s.to
  {
    hide IsBlock, StartsAfter;
    var more := spans + [s];
    forall k | 0 <= k < |more| ensures IsBlock(t, more[k]) && StartsAfter(t, EndBefore(more, k), more[k]) {
      assert EndBefore(more, k) == EndBefore(spans, k);
    }
  }

  /** What the registers mean after `index` characters: `start` is the pending opener, or -1. */
  ghost predicate Scanning(t: string, index: nat, spans: seq<Span>, start: int, depth: int)
    requires index <= |t|
  {
    && IsChain(t, spans) && EndOf(spans) <= index
    && (start == -1 ==> depth == 0 && NoOpens(t, EndOf(spans), index))
    && (start != -1 ==>
          && EndOf(spans) <= start < index
          && NoOpens(t, EndOf(spans), start) && Opens(t, start)
          && depth == Net(t, index) - Net(t, start)
          && forall j :: start < j <= index ==> Net(t, j) > Net(t, start))
  }

  lemma ScanStarts(t: string)
    ensures Scanning(t, 0, [], -1, 0)
  {}

  /** A character that opens nothing, and closes nothing that is pending. */
  lemma ScanPasses(t: string, index: nat, spans: seq<Span>, start: int, depth: int)
    requires index < |t| && Scanning(t, index, spans, start, depth)
    requires !Opens(t, index)
    requires start != -1 ==> Weight(QuoteAt(t, index), t[index]) == 0
    ensures Scanning(t, index + 1, spans, start, depth)
  {
    hide IsChain;
    assert Net(t, index + 1) == Net(t, index) + Weight(QuoteAt(t, index), t[index]);
  }

  lemma ScanOpens(t: string, index: nat, spans: seq<Span>, start: int, depth: int)
    requires index < |t| && Scanning(t, index, spans, start, depth)
    requires Opens(t, index)
    ensures Scanning(t, index + 1, spans, if start == -1 then index else start, depth + 1)
  {
    hide IsChain;
    assert Net(t, index + 1) == Net(t, index) + 1;
  }

  lemma ScanCloses(t: string, index: nat, spans: seq<Span>, start: int, depth: int)
    requires index < |t| && Scanning(t, index, spans, start, depth)
    requires start != -1 && IsCloser(t[index]) && QuoteAt(t, index) == Outside
    ensures depth > 1 ==> Scanning(t, index + 1, spans, start, depth - 1)
    ensures depth <= 1 ==> depth == 1 && Scanning(t, index + 1, spans + [Span(start, index + 1)], -1, 0)
  {
    hide IsChain;
    assert Net(t, index + 1) == Net(t, index) - 1;
    if depth <= 1 {
      assert IsBlock(t, Span(start, index + 1));
      ChainGrows(t, spans, Span(start, index + 1));
    }
  }

  lemma ScanEnds(t: string, spans: seq<Span>, start: int, depth: int)
    requires Scanning(t, |t|, spans, start, depth)
    ensures IsScan(t, spans)
  {
    hide IsChain;
    if start != -1 { assert IsUnclosed(t, start); }
  }

  /** `_balanced_json_blocks`. */
  method BalancedBlocks(text: string) returns (spans: seq<Span>)
    ensures IsScan(text, spans)
  {
    hide IsChain, Net, NoOpens, IsScan;
    spans := [];
    var start: int := -1;
    var depth: int := 0;
    var inString, escaped := false, false;
    ScanStarts(text);
    for index := 0 to |text|
      invariant QuoteAt(text, index) == if !inString then Outside else if escaped then Escaped else Inside
      invariant !inString ==> !escaped
      invariant Scanning(text, index, spans, start, depth)
    {
      hide Scanning;
      var c := text[index];
      if inString {
        ScanPasses(text, index, spans, start, depth);
        if escaped {
          escaped := false;
        } else if c == '\\' {
          escaped := true;
        } else if c == '"' {
          inString := false;
        }
      } else if c == '"' {
        ScanPasses(text, index, spans, start, depth);
        inString := true;
      } else if IsOpener(c) {
        ScanOpens(text, index, spans, start, depth);
        if start == -1 {
          start := index;
        }
        depth := depth + 1;
      } else if IsCloser(c) && start != -1 {
        ScanCloses(text, index, spans, start, depth);
        depth := depth - 1;
        if depth == 0 {
          spans := spans + [Span(start, index + 1)];
          start := -1;
        }
      } else {
        ScanPasses(text, index, spans, start, depth);
      }
    }
    ScanEnds(text, spans, start, depth);
  }

  lemma LinkIsOrdered(t: string, spans: seq<Span>, k: nat)
    requires IsChain(t, spans) && k < |spans|
    ensures EndBefore(spans, k) <= spans[k].from < spans[k].to <= |t|
  {
    assert IsBlock(t, spans[k]) && StartsAfter(t, EndBefore(spans, k), spans[k]);
  }

  /** Blocks are disjoint and left to right. */
  lemma {:induction false} ChainIsOrdered(t: string, spans: seq<Span>, j: nat, k: nat)
    requires IsChain(t, spans) && j < k < |spans|
    ensures spans[j].from < spans[j].to <= spans[k].from < spans[k].to
    decreases k
  {
    hide IsChain;
    LinkIsOrdered(t, spans, j);
    LinkIsOrdered(t, spans, k);
    if j < k - 1 {
      ChainIsOrdered(t, spans, j, k - 1);
    }
  }

  lemma BlockIsDetermined(t: string, from: nat, s: Span, r: Span)
    requires IsBlock(t, s) && StartsAfter(t, from, s)
    requires IsBlock(t, r) && StartsAfter(t, from, r)
    ensures s == r
  {
    assert s.from == r.from;
    assert s.to == r.to;
  }

  lemma NothingFollowsAScan(t: string, scan: seq<Span>, s: Span)
    requires IsScan(t, scan) && IsBlock(t, s)
    ensures !StartsAfter(t, EndOf(scan), s)
  {
    hide QuoteAt, Net, IsChain;
    var from := EndOf(scan);
    if !NoOpens(t, from, |t|) {
      var a: nat :| from <= a < |t| && NoOpens(t, from, a) && IsUnclosed(t, a);
    }
  }

  /** A chain cannot leave a complete scan of the same text, nor go past its end. */
  lemma {:induction false} ChainFollowsScan(t: string, chain: seq<Span>, scan: seq<Span>, k: nat)
    requires IsChain(t, chain) && IsScan(t, scan)
    requires k < |chain|
    ensures k < |scan| && chain[k] == scan[k]
  {
    hide QuoteAt, Net, IsBlock, StartsAfter;
    if k > 0 { ChainFollowsScan(t, chain, scan, k - 1); }
    assert EndBefore(chain, k) == EndBefore(scan, k);
    assert IsBlock(t, chain[k]) && StartsAfter(t, EndBefore(chain, k), chain[k]);
    if k == |scan| { NothingFollowsAScan(t, scan, chain[k]); }
    BlockIsDetermined(t, EndBefore(chain, k), chain[k], scan[k]);
  }

  /** The definition of a scan leaves no freedom: a text has one. */
  lemma ScanIsUnique(t: string, s1: seq<Span>, s2: seq<Span>)
    requires IsScan(t, s1) && IsScan(t, s2)
    ensures s1 == s2
  {
    forall k | 0 <= k < |s1| ensures k < |s2| && s1[k] == s2[k] { ChainFollowsScan(t, s1, s2, k); }
    forall k | 0 <= k < |s2| ensures k < |s1| && s1[k] == s2[k] { ChainFollowsScan(t, s2, s1, k); }
  }

  // ---------- printed values inside prose ----------

  /** After `t` the scanner is idle: outside strings, nothing pending, and `spans` found. */
  ghost predicate IsIdle(t: string, spans: seq<Span>) {
    && IsChain(t, spans) && EndOf(spans) <= |t|
    && NoOpens(t, EndOf(spans), |t|)
    && QuoteAt(t, |t|) == Outside
  }

  lemma OpensInPrefix(t: string, more: string, i: nat)
    requires i < |t|
    ensures Opens(t + more, i) <==> Opens(t, i)
  {
    assert (t + more)[..i] == t[..i];
    SamePrefix(t + more, t, i);
  }

  lemma NetInPrefix(t: string, more: string, i: nat)
    requires i <= |t|
    ensures Net(t + more, i) == Net(t, i) && QuoteAt(t + more, i) == QuoteAt(t, i)
  {
    assert (t + more)[..i] == t[..i];
    SamePrefix(t + more, t, i);
  }

  /** What has been found stays found when text is added. */
  lemma ChainExtends(t: string, more: string, spans: seq<Span>)
    requires IsChain(t, spans)
    ensures IsChain(t + more, spans)
  {
    forall i | 0 <= i < |t| ensures Opens(t + more, i) <==> Opens(t, i) { OpensInPrefix(t, more, i); }
    forall i | 0 <= i <= |t| ensures Net(t + more, i) == Net(t, i) { NetInPrefix(t, more, i); }
    forall k | 0 <= k < |spans|
      ensures IsBlock(t + more, spans[k]) && StartsAfter(t + more, EndBefore(spans, k), spans[k])
    {
      assert IsBlock(t, spans[k]) && StartsAfter(t, EndBefore(spans, k), spans[k]);
    }
  }

  /** The positions of an enclosed text form a block wherever a literal is not open. */
  lemma EnclosedIsBlock(t: string, at: nat, p: string)
    requires at + |p| <= |t| && t[at..at + |p|] == p
    requires QuoteAt(t, at) == Outside && Enclosed(p)
    ensures IsBlock(t, Span(at, at + |p|)) && QuoteAt(t, at + |p|) == Outside
  {
    Embedding(t, at, p, |p|);
    assert t[at] == p[0];
    forall j | at < j < at + |p| ensures Net(t, j) > Net(t, at) {
      Embedding(t, at, p, j - at);
      assert Net(p, j - at) > 0;
    }
  }

  /** An idle scanner reads an enclosed text as one block, and bracket-free prose as nothing. */
  lemma IdleReadsEnclosed(t: string, p: string, spans: seq<Span>)
    requires IsIdle(t, spans) && Enclosed(p)
    ensures IsIdle(t + p, spans + [Span(|t|, |t| + |p|)])
  {
    hide IsBlock, Enclosed, Net, IsChain;
    var u, s := t + p, Span(|t|, |t| + |p|);
    ChainExtends(t, p, spans);
    NetInPrefix(t, p, |t|);
    EnclosedIsBlock(u, |t|, p);
    forall i | 0 <= i < |t| ensures Opens(u, i) <==> Opens(t, i) { OpensInPrefix(t, p, i); }
    assert StartsAfter(u, EndOf(spans), s);
    ChainGrows(u, spans, s);
  }

  lemma IdleReadsPlain(t: string, p: string, spans: seq<Span>)
    requires IsIdle(t, spans)
    requires forall i :: 0 <= i < |p| ==> p[i] != '"' && !IsOpener(p[i])
    ensures IsIdle(t + p, spans)
    decreases |p|
  {
    var u := t + p;
    ChainExtends(t, p, spans);
    NetInPrefix(t, p, |t|);
    StaysOutside(u, |t|);
    forall i | 0 <= i < |t| ensures Opens(u, i) <==> Opens(t, i) { OpensInPrefix(t, p, i); }
  }

  lemma {:induction false} StaysOutside(t: string, at: nat)
    requires at <= |t| && QuoteAt(t, at) == Outside
    requires forall i :: at <= i < |t| ==> t[i] != '"' && !IsOpener(t[i])
    ensures QuoteAt(t, |t|) == Outside
    decreases |t| - at
  {
    if at < |t| {
      assert QuoteAt(t, at + 1) == NextQuote(QuoteAt(t, at), t[at]);
      StaysOutside(t, at + 1);
    }
  }

  /** A piece of provider text: prose without quotes or openers, then one printed object or array. */
  datatype Piece = Piece(prose: string, value: Json, style: Style)

  ghost predicate IsPiece(p: Piece) {
    && p.value.IsContainer()
    && forall i :: 0 <= i < |p.prose| ==> p.prose[i] != '"' && !IsOpener(p.prose[i])
  }

  function Write(pieces: seq<Piece>): string {
    if pieces == [] then ""
    else
      var last := pieces[|pieces| - 1];
      Write(pieces[..|pieces| - 1]) + last.prose + Print(last.value, last.style)
  }

  function Places(pieces: seq<Piece>): (spans: seq<Span>)
    ensures |spans| == |pieces|
  {
    if pieces == [] then []
    else
      var last := pieces[|pieces| - 1];
      var front := Write(pieces[..|pieces| - 1]) + last.prose;
      Places(pieces[..|pieces| - 1]) + [Span(|front|, |front| + |Print(last.value, last.style)|)]
  }

  lemma IdleReadsPiece(t: string, spans: seq<Span>, p: Piece)
    requires IsIdle(t, spans) && IsPiece(p)
    ensures var printed := Print(p.value, p.style);
            IsIdle(t + p.prose + printed, spans + [Span(|t + p.prose|, |t + p.prose + printed|)])
  {
    hide IsIdle, Enclosed, Print;
    IdleReadsPlain(t, p.prose, spans);
    PrintIsBalanced(p.value, p.style);
    IdleReadsEnclosed(t + p.prose, Print(p.value, p.style), spans);
  }

  lemma {:induction false} WrittenTextIsIdle(pieces: seq<Piece>)
    requires forall p :: p in pieces ==> IsPiece(p)
    ensures IsIdle(Write(pieces), Places(pieces))
  {
    hide IsChain, NoOpens, IsPiece, Print;
    if pieces != [] {
      var front, last := pieces[..|pieces| - 1], pieces[|pieces| - 1];
      WrittenTextIsIdle(front);
      IdleReadsPiece(Write(front), Places(front), last);
    } else {
      NothingReadYet();
    }
  }

  lemma NothingReadYet()
    ensures IsIdle("", [])
  {}

  lemma {:induction false} PlacesHoldTheValues(pieces: seq<Piece>, suffix: string, k: nat)
    requires k < |pieces|
    ensures Places(pieces)[k].from <= Places(pieces)[k].to <= |Write(pieces)|
    ensures TextOf(Write(pieces) + suffix, Places(pieces)[k]) == Print(pieces[k].value, pieces[k].style)
  {
    hide Print;
    var n := |pieces| - 1;
    var front, last := pieces[..n], pieces[n];
    var text, printed := Write(front) + last.prose, Print(last.value, last.style);
    assert Write(pieces) + suffix == text + (printed + suffix);
    if k == n {
      assert (text + (printed + suffix))[|text|..|text| + |printed|] == printed;
    } else {
      PlacesHoldTheValues(front, last.prose + printed + suffix, k);
      assert Write(front) + (last.prose + printed + suffix) == Write(pieces) + suffix;
    }
  }

  /** Every object or array printed inside prose is yielded, exactly and in order, whatever
      its strings hold and whatever follows the last one. */
  lemma PrintedValuesAreYielded(pieces: seq<Piece>, suffix: string, spans: seq<Span>)
    requires forall p :: p in pieces ==> IsPiece(p)
    requires IsScan(Write(pieces) + suffix, spans)
    ensures forall k :: 0 <= k < |pieces| ==>
      && k < |spans| && spans[k].from <= spans[k].to <= |Write(pieces) + suffix|
      && TextOf(Write(pieces) + suffix, spans[k]) == Print(pieces[k].value, pieces[k].style)
  {
    var places := Places(pieces);
    hide IsChain, IsIdle, IsScan, Print;
    WrittenTextIsIdle(pieces);
    IdleIsChain(Write(pieces), suffix, places);
    forall k | 0 <= k < |pieces|
      ensures k < |spans| && spans[k] == places[k] && places[k].from <= places[k].to <= |Write(pieces) + suffix|
      ensures TextOf(Write(pieces) + suffix, places[k]) == Print(pieces[k].value, pieces[k].style)
    {
      ChainFollowsScan(Write(pieces) + suffix, places, spans, k);
      PlacesHoldTheValues(pieces, suffix, k);
    }
  }

  lemma IdleIsChain(t: string, suffix: string, spans: seq<Span>)
    requires IsIdle(t, spans)
    ensures IsChain(t + suffix, spans)
  {
    ChainExtends(t, suffix, spans);
  }

  /** The first block on prefix + print(v) + suffix is print(v), at its own place. */
  lemma FirstBlockIsThePrintedValue(prefix: string, v: Json, st: Style, suffix: string, spans: seq<Span>)
    requires IsPiece(Piece(prefix, v, st))
    requires IsScan(prefix + Print(v, st) + suffix, spans)
    ensures |spans| > 0 && spans[0] == Span(|prefix|, |prefix| + |Print(v, st)|)
    ensures TextOf(prefix + Print(v, st) + suffix, spans[0]) == Print(v, st)
  {
    hide IsChain, IsIdle, IsScan, Print;
    var piece := Piece(prefix, v, st);
    NothingReadYet();
    IdleReadsPiece("", [], piece);
    var places := [Span(|prefix|, |prefix + Print(v, st)|)];
    assert "" + prefix == prefix && [] + places == places;
    IdleIsChain(prefix + Print(v, st), suffix, places);
    ChainFollowsScan(prefix + Print(v, st) + suffix, places, spans, 0);
  }

  // ---------- exactly which prose lets a value through ----------

  /** What was found in a text before position |t| was found in `t` alone. */
  lemma ChainShrinks(t: string, more: string, spans: seq<Span>)
    requires IsChain(t + more, spans) && EndOf(spans) <= |t|
    ensures IsChain(t, spans)
  {
    hide IsBlock, StartsAfter;
    forall k | 0 <= k < |spans|
      ensures IsBlock(t, spans[k]) && StartsAfter(t, EndBefore(spans, k), spans[k])
    {
      LinkIsOrdered(t + more, spans, k);
      if k < |spans| - 1 { ChainIsOrdered(t + more, spans, k, |spans| - 1); }
      LinkShrinks(t, more, EndBefore(spans, k), spans[k]);
    }
  }

  lemma LinkShrinks(t: string, more: string, from: nat, s: Span)
    requires IsBlock(t + more, s) && StartsAfter(t + more, from, s) && s.to <= |t|
    ensures IsBlock(t, s) && StartsAfter(t, from, s)
  {
    hide QuoteAt, Net;
    forall i | 0 <= i < |t| ensures Opens(t + more, i) <==> Opens(t, i) { OpensInPrefix(t, more, i); }
    forall i | 0 <= i <= |t| ensures Net(t + more, i) == Net(t, i) { NetInPrefix(t, more, i); }
  }

  /** A block that begins right after `t` found the scanner idle there. */
  lemma BlockFindsIdle(t: string, more: string, spans: seq<Span>, k: nat)
    requires IsChain(t + more, spans) && k < |spans| && spans[k].from == |t|
    ensures IsIdle(t, spans[..k])
  {
    hide IsChain, Net, QuoteAt;
    LinkIsOrdered(t + more, spans, k);
    ChainTakes(t + more, spans, k);
    ChainShrinks(t, more, spans[..k]);
    NetInPrefix(t, more, |t|);
    forall i | 0 <= i < |t| ensures Opens(t + more, i) <==> Opens(t, i) { OpensInPrefix(t, more, i); }
  }

  lemma ChainTakes(t: string, spans: seq<Span>, k: nat)
    requires IsChain(t, spans) && k < |spans|
    ensures IsChain(t, spans[..k]) && EndOf(spans[..k]) == EndBefore(spans, k)
    ensures IsBlock(t, spans[k]) && StartsAfter(t, EndBefore(spans, k), spans[k])
  {
    hide IsBlock, StartsAfter;
    forall j | 0 <= j < k ensures EndBefore(spans[..k], j) == EndBefore(spans, j) {}
  }

  lemma IdleIsScan(t: string, spans: seq<Span>)
    requires IsIdle(t, spans)
    ensures IsScan(t, spans)
  {
    hide IsChain, NoOpens;
  }

  lemma IdleYields(pre: string, p: string, suffix: string, before: seq<Span>, spans: seq<Span>)
    requires Enclosed(p) && IsIdle(pre, before) && IsScan(pre + p + suffix, spans)
    ensures |before| < |spans| && spans[..|before| + 1] == before + [Span(|pre|, |pre| + |p|)]
  {
    hide IsScan, IsIdle, Enclosed, IsChain;
    var own := Span(|pre|, |pre| + |p|);
    IdleReadsEnclosed(pre, p, before);
    IdleIsChain(pre + p, suffix, before + [own]);
    ChainStartsScan(pre + p + suffix, before + [own], spans);
  }

  lemma YieldedFindsIdle(pre: string, more: string, before: seq<Span>, spans: seq<Span>, k: nat)
    requires IsScan(pre, before) && IsScan(pre + more, spans)
    requires k < |spans| && spans[k].from == |pre|
    ensures IsIdle(pre, before)
  {
    ScanIsChain(pre + more, spans);
    hide IsScan, IsIdle, IsChain;
    BlockFindsIdle(pre, more, spans, k);
    IdleIsScan(pre, spans[..k]);
    ScanIsUnique(pre, before, spans[..k]);
  }

  /** Whatever stands before and after a printed object or array: it is yielded as a block of its own if and
      only if the scan of the text before it ends outside strings with nothing open, and then the blocks of
      that text come first. */
  lemma YieldedIff(pre: string, v: Json, st: Style, suffix: string, before: seq<Span>, spans: seq<Span>)
    requires v.IsContainer() && IsScan(pre, before) && IsScan(pre + Print(v, st) + suffix, spans)
    ensures Span(|pre|, |pre| + |Print(v, st)|) in spans <==> IsIdle(pre, before)
    ensures IsIdle(pre, before) ==>
      |before| < |spans| && spans[..|before| + 1] == before + [Span(|pre|, |pre| + |Print(v, st)|)]
  {
    hide IsScan, IsIdle, Print, Enclosed, Balanced;
    var p := Print(v, st);
    var own := Span(|pre|, |pre| + |p|);
    assert pre + p + suffix == pre + (p + suffix);
    if IsIdle(pre, before) {
      PrintIsBalanced(v, st);
      IdleYields(pre, p, suffix, before, spans);
      assert own == (before + [own])[|before|] == spans[..|before| + 1][|before|];
    }
    if k :| 0 <= k < |spans| && spans[k] == own {
      YieldedFindsIdle(pre, p + suffix, before, spans, k);
    }
  }

  lemma ChainStartsScan(t: string, chain: seq<Span>, scan: seq<Span>)
    requires IsChain(t, chain) && IsScan(t, scan)
    ensures |chain| <= |scan| && scan[..|chain|] == chain
  {
    hide IsChain, IsScan;
    if chain != [] { ChainFollowsScan(t, chain, scan, |chain| - 1); }
    forall k | 0 <= k < |chain| ensures scan[k] == chain[k] { ChainFollowsScan(t, chain, scan, k); }
  }

  lemma ScanIsChain(t: string, spans: seq<Span>)
    requires IsScan(t, spans)
    ensures IsChain(t, spans)
  {}

  lemma {:induction false} StaysInside(t: string, at: nat, i: nat)
    requires at <= i <= |t| && QuoteAt(t, at) != Outside
    requires forall k :: at <= k < |t| ==> t[k] != '"'
    ensures QuoteAt(t, i) != Outside
  {
    if at < i { StaysInside(t, at, i - 1); }
  }

  /** After prose that opens a string and nothing else, quote-free text is not scanned at all. */
  lemma OpenQuoteSwallows(pre: string, more: string)
    requires NoOpens(pre, 0, |pre|) && QuoteAt(pre, |pre|) != Outside
    requires forall i :: 0 <= i < |more| ==> more[i] != '"'
    ensures IsScan(pre + more, [])
  {
    var t := pre + more;
    NetInPrefix(pre, more, |pre|);
    forall i | 0 <= i < |t| ensures !Opens(t, i) {
      if i < |pre| { OpensInPrefix(pre, more, i); } else { StaysInside(t, |pre|, i); }
    }
  }
}

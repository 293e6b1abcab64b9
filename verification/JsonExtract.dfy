/** Recovering a JSON value from a provider message: white space and one code
    fence are stripped, a text that parses as it stands wins, and otherwise the
    first balanced block that parses. The parser is an oracle.
  */
module JsonExtract {
  import opened Prelude
  import opened JsonText
  import opened JsonScanner

  type Loads<!V> = string -> Option<V>

  // ---------- str.strip, str.find ----------

  /** What `str.strip` removes. */
  predicate IsSpace(c: char) {
    var u := c as int;
    || 0x09 <= u <= 0x0d || 0x1c <= u <= 0x20 || u == 0x85 || u == 0xa0 || u == 0x1680
    || 0x2000 <= u <= 0x200a || u == 0x2028 || u == 0x2029 || u == 0x202f || u == 0x205f || u == 0x3000
  }

  function StripLeft(t: string): string {
    if t != [] && IsSpace(t[0]) then StripLeft(t[1..]) else t
  }

  function StripRight(t: string): string {
    if t != [] && IsSpace(t[|t| - 1]) then StripRight(t[..|t| - 1]) else t
  }

  function Strip(t: string): string { StripRight(StripLeft(t)) }

  predicate IsAt(t: string, key: string, i: nat) { i + |key| <= |t| && t[i..i + |key|] == key }

  /** First position at or after `from` where `key` occurs. */
  function Find(t: string, key: string, from: nat): (r: Option<nat>)
    ensures r.Some? ==> from <= r.value && IsAt(t, key, r.value) && forall i :: from <= i < r.value ==> !IsAt(t, key, i)
    ensures r.None? ==> forall i :: from <= i <= |t| ==> !IsAt(t, key, i)
    decreases |t| - from
  {
    if IsAt(t, key, from) then Some(from) else if from >= |t| then None else Find(t, key, from + 1)
  }

  const FENCE := "```"

  predicate StartsContainer(t: string) { t != [] && IsOpener(t[0]) }

  /** The text handed to the parser. */
  function Unfenced(content: string): string {
    var stripped := Strip(content);
    if !IsAt(stripped, FENCE, 0) then stripped
    else
      var closing := Find(stripped, FENCE, 3);
      var inner := Strip(stripped[3..if closing.Some? then closing.value else |stripped|]);
      WithoutTagLine(inner)
  }

  /** Inside a fence the optional tag line goes and the rest is stripped. */
  function WithoutTagLine(inner: string): string {
    var newline := Find(inner, "\n", 0);
    if newline.Some? && !StartsContainer(Strip(inner[..newline.value]))
    then Strip(inner[newline.value + 1..])
    else inner
  }

  predicate TriesDirectly(t: string) { t == [] || IsOpener(t[0]) || t[0] == '"' }

  /** The value of the first block, from number `k` on, that parses. */
  function FirstParsed<V>(t: string, spans: seq<Span>, loads: Loads<V>, k: nat): Option<V>
    requires k <= |spans|
    requires forall s :: s in spans ==> s.from <= s.to <= |t|
    decreases |spans| - k
  {
    if k == |spans| then None
    else if loads(TextOf(t, spans[k])).Some? then loads(TextOf(t, spans[k]))
    else FirstParsed(t, spans, loads, k + 1)
  }

  ghost predicate Recovers<V>(t: string, loads: Loads<V>, r: Option<V>) {
    exists spans :: IsScan(t, spans) && InText(t, spans) && r == FirstParsed(t, spans, loads, 0)
  }

  ghost predicate InText(t: string, spans: seq<Span>) {
    forall s :: s in spans ==> s.from <= s.to <= |t|
  }

  /** What `_extract_json_value` returns. */
  ghost predicate Extracts<V>(content: string, loads: Loads<V>, r: Option<V>) {
    var t := Unfenced(content);
    if Strip(content) == [] then r == None
    else if TriesDirectly(t) && loads(t).Some? then r == loads(t)
    else Recovers(t, loads, r)
  }

  /** `_extract_json_value`. */
  method ExtractJsonValue<V>(content: string, loads: Loads<V>) returns (r: Option<V>)
    ensures Extracts(content, loads, r)
  {
    hide IsScan;
    if Strip(content) == [] {
      return None;
    }
    var text := Unfenced(content);
    if TriesDirectly(text) {
      r := loads(text);
      if r.Some? { return; }
    }
    var spans := BalancedBlocks(text);
    ScanIsInText(text, spans);
    for k := 0 to |spans|
      invariant FirstParsed(text, spans, loads, 0) == FirstParsed(text, spans, loads, k)
    {
      r := loads(TextOf(text, spans[k]));
      if r.Some? { return; }
    }
    r := None;
  }

  lemma ScanIsInText(t: string, spans: seq<Span>)
    requires IsScan(t, spans)
    ensures InText(t, spans)
  {
    forall s | s in spans ensures s.from <= s.to <= |t| {
      var k :| 0 <= k < |spans| && spans[k] == s;
      assert IsBlock(t, spans[k]);
    }
  }

  // ---------- stripping around a piece that starts and ends with a visible character ----------

  predicate Blank(t: string) { forall i :: 0 <= i < |t| ==> IsSpace(t[i]) }

  lemma {:induction false} StripLeftStops(pre: string, x: string)
    requires x != [] && !IsSpace(x[0])
    ensures StripLeft(pre + x) == StripLeft(pre) + x
  {
    if pre == [] {
      assert pre + x == x;
    } else if IsSpace(pre[0]) {
      assert (pre + x)[1..] == pre[1..] + x;
      StripLeftStops(pre[1..], x);
    }
  }

  lemma {:induction false} StripRightStops(x: string, post: string)
    requires x != [] && !IsSpace(x[|x| - 1])
    ensures StripRight(x + post) == x + StripRight(post)
  {
    if post == [] {
      assert x + post == x;
    } else if IsSpace(post[|post| - 1]) {
      assert (x + post)[..|x + post| - 1] == x + post[..|post| - 1];
      StripRightStops(x, post[..|post| - 1]);
    }
  }

  lemma {:induction false} StripLeftOfBlank(t: string)
    ensures Blank(t) <==> StripLeft(t) == []
    ensures StripLeft(t) != [] ==> !IsSpace(StripLeft(t)[0])
    ensures |StripLeft(t)| <= |t| && StripLeft(t) == t[|t| - |StripLeft(t)|..]
  {
    if t != [] && IsSpace(t[0]) { StripLeftOfBlank(t[1..]); }
  }

  lemma {:induction false} StripRightKeepsPrefix(t: string)
    ensures |StripRight(t)| <= |t| && StripRight(t) == t[..|StripRight(t)|]
    ensures t != [] && !IsSpace(t[0]) ==> StripRight(t) != []
    ensures Blank(t) ==> StripRight(t) == []
    ensures StripRight(StripRight(t)) == StripRight(t)
  {
    if t != [] && IsSpace(t[|t| - 1]) { StripRightKeepsPrefix(t[..|t| - 1]); }
  }

  lemma StripAround(pre: string, x: string, post: string)
    requires x != [] && !IsSpace(x[0]) && !IsSpace(x[|x| - 1])
    ensures Strip(pre + x + post) == StripLeft(pre) + x + StripRight(post)
  {
    assert pre + x + post == pre + (x + post);
    StripLeftStops(pre, x + post);
    assert StripLeft(pre) + (x + post) == StripLeft(pre) + x + post;
    StripRightStops(StripLeft(pre) + x, post);
  }

  // ---------- the parser as an oracle ----------

  /** What `json.loads` does at one printed object or array: it reads it as `x`, and what it accepts behind
      it can only be trailing white space. */
  ghost predicate Reads<V(!new)>(loads: Loads<V>, printed: string, x: V) {
    && loads(printed) == Some(x)
    && forall more: string :: loads(printed + more) in {None, Some(x)}
  }

  /** Nothing that is not bracket-balanced is JSON. */
  ghost predicate RejectsUnbalanced<V>(loads: Loads<V>) {
    forall t :: loads(t).Some? ==> Balanced(t)
  }

  /** The two premises do not contradict each other: the reader of one printed value meets both. */
  lemma PremisesAreMet<V(!new)>(v: Json, st: Style, x: V)
    ensures exists loads: Loads<V> :: Reads(loads, Print(v, st), x) && RejectsUnbalanced(loads)
  {
    PrintIsBalanced(v, st);
    var p := Print(v, st);
    hide Print, Balanced;
    var loads: Loads<V> := t => if t == p then Some(x) else None;
    assert Reads(loads, p, x) && RejectsUnbalanced(loads);
  }

  /** A printed object or array is recovered from any prose around it that has no quotes or
      openers before it and does not start with a code fence. */
  lemma ProseIsStripped<V(!new)>(pre: string, v: Json, st: Style, post: string,
                                 loads: Loads<V>, x: V, r: Option<V>)
    requires IsPiece(Piece(pre, v, st)) && !IsAt(StripLeft(pre), FENCE, 0)
    requires Reads(loads, Print(v, st), x)
    requires Extracts(pre + Print(v, st) + post, loads, r)
    ensures r == Some(x)
  {
    hide IsScan, Balanced, Print, StripRight, StripLeft, Unfenced, Strip, IsAt, Recovers;
    var p, left, right := Print(v, st), StripLeft(pre), StripRight(post);
    PrintIsBalanced(v, st);
    UnfencedProse(pre, p, post);
    LeftIsProse(pre, v, st);
    assert loads(p) == Some(x);
    var t := left + p + right;
    if left == [] {
      assert t == p + right;
    } else {
      assert t[0] == left[0];
    }
    assert !(TriesDirectly(t) && loads(t).Some?) ==> Recovers(t, loads, r);
    if Recovers(t, loads, r) { BlockIsParsed(left, v, st, right, loads, r); }
  }

  lemma LeftIsProse(pre: string, v: Json, st: Style)
    requires IsPiece(Piece(pre, v, st))
    ensures IsPiece(Piece(StripLeft(pre), v, st))
    ensures StripLeft(pre) != [] ==> !TriesDirectly(StripLeft(pre))
  {
    StripLeftOfBlank(pre);
    hide StripLeft;
  }

  lemma BlockIsParsed<V>(left: string, v: Json, st: Style, right: string, loads: Loads<V>, r: Option<V>)
    requires IsPiece(Piece(left, v, st)) && loads(Print(v, st)).Some?
    requires Recovers(left + Print(v, st) + right, loads, r)
    ensures r == loads(Print(v, st))
  {
    hide IsScan, Print, IsPiece;
    var t := left + Print(v, st) + right;
    var spans :| IsScan(t, spans) && InText(t, spans) && r == FirstParsed(t, spans, loads, 0);
    FirstBlockIsThePrintedValue(left, v, st, right, spans);
  }

  /** Any prose whose scan ends outside strings with nothing open, exactly: what parses as it stands wins,
      then the first block of the prose itself that parses, and otherwise the printed value is recovered. */
  lemma IdleProse<V(!new)>(pre: string, v: Json, st: Style, post: string, before: seq<Span>,
                           loads: Loads<V>, x: V, r: Option<V>)
    requires v.IsContainer() && !IsAt(StripLeft(pre), FENCE, 0)
    requires IsIdle(StripLeft(pre), before) && InText(StripLeft(pre), before)
    requires Reads(loads, Print(v, st), x)
    requires Extracts(pre + Print(v, st) + post, loads, r)
    ensures var t, first := StripLeft(pre) + Print(v, st) + StripRight(post), FirstParsed(StripLeft(pre), before, loads, 0);
      r == if TriesDirectly(t) && loads(t).Some? then loads(t) else if first.Some? then first else Some(x)
  {
    hide IsScan, IsIdle, Balanced, Print, StripRight, StripLeft, Unfenced, Strip, IsAt, FirstParsed;
    var p, left, right := Print(v, st), StripLeft(pre), StripRight(post);
    PrintIsBalanced(v, st);
    UnfencedProse(pre, p, post);
    var t := left + p + right;
    if !(TriesDirectly(t) && loads(t).Some?) {
      var spans :| IsScan(t, spans) && InText(t, spans) && r == FirstParsed(t, spans, loads, 0);
      IdleIsScan(left, before);
      YieldedIff(left, v, st, right, before, spans);
      FirstOfMore(left, before, t, spans, loads, 0);
      assert spans[|before|] == Span(|left|, |left| + |p|);
      FirstAt(t, spans, loads, |before|);
      assert TextOf(t, spans[|before|]) == p;
    }
  }

  lemma FirstAt<V>(t: string, spans: seq<Span>, loads: Loads<V>, k: nat)
    requires k < |spans| && InText(t, spans) && loads(TextOf(t, spans[k])).Some?
    ensures FirstParsed(t, spans, loads, k) == loads(TextOf(t, spans[k]))
  {}

  /** When the first blocks of a longer text are those of `left`, they are tried first. */
  lemma {:induction false} FirstOfMore<V>(left: string, before: seq<Span>, t: string, spans: seq<Span>,
                                          loads: Loads<V>, k: nat)
    requires k <= |before| < |spans| && before == spans[..|before|] && left <= t
    requires InText(left, before) && InText(t, spans)
    ensures var first := FirstParsed(left, before, loads, k);
      FirstParsed(t, spans, loads, k) == if first.Some? then first else FirstParsed(t, spans, loads, |before|)
    decreases |before| - k
  {
    if k < |before| {
      assert spans[k] == before[k] && before[k] in before;
      assert TextOf(t, spans[k]) == TextOf(left, before[k]);
      FirstOfMore(left, before, t, spans, loads, k + 1);
    }
  }

  /** Prose that leaves a string open swallows a value without strings, whatever the parser. */
  lemma OpenQuoteLosesTheValue<V>(pre: string, p: string, post: string, loads: Loads<V>, r: Option<V>)
    requires p != [] && IsOpener(p[0]) && IsCloser(p[|p| - 1]) && !IsAt(StripLeft(pre), FENCE, 0)
    requires var left := StripLeft(pre);
      left != [] && !TriesDirectly(left) && NoOpens(left, 0, |left|) && QuoteAt(left, |left|) != Outside
    requires forall i :: 0 <= i < |p + StripRight(post)| ==> (p + StripRight(post))[i] != '"'
    requires Extracts(pre + p + post, loads, r)
    ensures r == None
  {
    hide StripRight, StripLeft, Unfenced, Strip, IsAt, IsScan, QuoteAt;
    UnfencedProse(pre, p, post);
    var left, right := StripLeft(pre), StripRight(post);
    var t := left + p + right;
    assert t == left + (p + right) && t[0] == left[0];
    OpenQuoteSwallows(left, p + right);
    var spans :| IsScan(t, spans) && InText(t, spans) && r == FirstParsed(t, spans, loads, 0);
    ScanIsUnique(t, spans, []);
  }

  /** An input: one inch mark in the prose before `[]`. */
  lemma LoneQuoteLosesTheValue<V>(loads: Loads<V>, r: Option<V>)
    requires Extracts("5\" " + Print(Arr([]), COMPACT) + "", loads, r)
    ensures r == None
  {
    hide Extracts, Strip;
    var pre := "5\" ";
    assert Print(Arr([]), COMPACT) == "[]";
    assert StripLeft(pre) == pre && StripRight("") == "" && "[]" + "" == "[]";
    assert QuoteAt(pre, 1) == Outside && QuoteAt(pre, 2) == Inside && QuoteAt(pre, 3) == Inside;
    assert pre[0] == '5';
    OpenQuoteLosesTheValue(pre, "[]", "", loads, r);
  }

  /** A reply without brackets that does not start with a quote yields nothing, even where the parser would read it as
      a number or a word. */
  lemma BareWordYieldsNothing<V>(content: string, loads: Loads<V>, r: Option<V>)
    requires var t := Unfenced(content); t != [] && t[0] != '"' && forall i :: 0 <= i < |t| ==> !IsOpener(t[i])
    requires Extracts(content, loads, r)
    ensures r == None
  {
    hide Unfenced, Strip, IsScan;
    var t := Unfenced(content);
    NothingOpens(t);
    if Strip(content) != [] {
      var spans :| IsScan(t, spans) && InText(t, spans) && r == FirstParsed(t, spans, loads, 0);
      ScanIsUnique(t, spans, []);
    }
  }

  lemma NothingOpens(t: string)
    requires forall i :: 0 <= i < |t| ==> !IsOpener(t[i])
    ensures IsScan(t, [])
  {}

  /** A reply that is one quoted string is read as it stands. */
  lemma QuotedStringIsRead<V>(content: string, loads: Loads<V>, r: Option<V>)
    requires Unfenced(content) != [] && Unfenced(content)[0] == '"' && Strip(content) != []
    requires loads(Unfenced(content)).Some? && Extracts(content, loads, r)
    ensures r == loads(Unfenced(content))
  {
    hide Unfenced, Strip, Recovers;
  }

  lemma UnfencedProse(pre: string, p: string, post: string)
    requires p != [] && IsOpener(p[0]) && IsCloser(p[|p| - 1]) && !IsAt(StripLeft(pre), FENCE, 0)
    ensures Unfenced(pre + p + post) == StripLeft(pre) + p + StripRight(post)
    ensures Strip(pre + p + post) != []
  {
    hide StripLeft, StripRight, Strip, IsAt, Find, WithoutTagLine;
    StripAround(pre, p, post);
    FenceNeedsBackticks(StripLeft(pre), p, StripRight(post));
  }

  lemma FenceNeedsBackticks(left: string, p: string, right: string)
    requires p != [] && IsOpener(p[0])
    ensures IsAt(left + p + right, FENCE, 0) ==> IsAt(left, FENCE, 0)
  {
    var t := left + p + right;
    assert t[|left|] == p[0];
    if IsAt(t, FENCE, 0) {
      assert forall i :: 0 <= i < 3 ==> t[i] == t[0..0 + |FENCE|][i] == '`';
      assert left[0..3] == t[0..3];
    }
  }

  // ---------- a fenced value ----------

  predicate IsTag(tag: string) {
    && !StartsContainer(Strip(tag))
    && forall i :: 0 <= i < |tag| ==> tag[i] != '\n' && tag[i] != '`'
  }

  lemma IsAtNewline(t: string, i: nat)
    ensures IsAt(t, "\n", i) <==> i < |t| && t[i] == '\n'
  {}

  lemma StripOfOpener(q: string)
    requires StartsContainer(q)
    ensures Strip(q) == StripRight(q) && StartsContainer(StripRight(q))
  {
    StripRightKeepsPrefix(q);
  }

  lemma NoTagLine(q: string)
    requires StartsContainer(q)
    ensures WithoutTagLine(StripRight(q)) == StripRight(q)
  {
    StripOfOpener(q);
    var inner := StripRight(q);
    forall n: nat | n <= |inner| && IsAt(inner, "\n", n) ensures StartsContainer(Strip(inner[..n])) {
      StripOfOpener(inner[..n]);
    }
  }

  lemma OneTagLine(tag: string, body: string)
    requires forall i :: 0 <= i < |tag| ==> tag[i] != '\n'
    requires !StartsContainer(Strip(tag))
    ensures WithoutTagLine(tag + "\n" + body) == Strip(body)
  {
    var inner := tag + "\n" + body;
    forall i: nat ensures IsAt(inner, "\n", i) <==> i < |inner| && inner[i] == '\n' { IsAtNewline(inner, i); }
    assert inner[|tag|] == '\n';
    assert forall i :: 0 <= i < |tag| ==> inner[i] == tag[i];
    assert Find(inner, "\n", 0) == Some(|tag|);
    assert inner[..|tag|] == tag && inner[|tag| + 1..] == body;
  }

  lemma TagLineGoes(tag: string, q: string)
    requires IsTag(tag) && StartsContainer(q)
    ensures WithoutTagLine(Strip(tag + "\n" + q)) == StripRight(q)
  {
    var line, body := tag + "\n", StripRight(q);
    var left := StripLeft(line);
    StripLeftStops(line, q);
    SplitRight(left, q);
    if left == [] {
      assert left + body == body;
      NoTagLine(q);
    } else {
      TagSurvives(tag);
      StripLeftOfBlank(tag);
      StripLeftTwice(tag);
      OneTagLine(StripLeft(tag), body);
      StripOfOpener(q);
      StripOfOpener(body);
      StripRightKeepsPrefix(q);
    }
  }

  lemma {:induction false} StripLeftTwice(t: string)
    ensures StripLeft(StripLeft(t)) == StripLeft(t)
  {
    if t != [] && IsSpace(t[0]) { StripLeftTwice(t[1..]); }
  }

  lemma {:induction false} SplitRight(x: string, q: string)
    requires StartsContainer(q)
    ensures StripRight(x + q) == x + StripRight(q)
  {
    if IsSpace(q[|q| - 1]) {
      assert (x + q)[..|x + q| - 1] == x + q[..|q| - 1];
      SplitRight(x, q[..|q| - 1]);
    }
  }

  lemma BareNewline()
    ensures StripLeft("\n") == []
  {
    assert StripLeft("\n"[1..]) == [];
  }

  lemma {:induction false} TagSurvives(tag: string)
    requires StripLeft(tag + "\n") != []
    ensures StripLeft(tag + "\n") == StripLeft(tag) + "\n"
  {
    BareNewline();
    assert tag == [] ==> tag + "\n" == "\n";
    if tag == [] {
    } else if IsSpace(tag[0]) {
      assert (tag + "\n")[1..] == tag[1..] + "\n";
      TagSurvives(tag[1..]);
    }
  }

  lemma FenceChars(t: string, i: nat)
    ensures IsAt(t, FENCE, i) <==> i + 3 <= |t| && t[i] == '`' && t[i + 1] == '`' && t[i + 2] == '`'
  {
    if i + 3 <= |t| { assert t[i..i + 3] == [t[i], t[i + 1], t[i + 2]]; }
  }

  lemma ClosingFence(front: string, q: string, rest: string)
    requires |front| >= 3 && forall i :: 3 <= i < |front| ==> front[i] != '`'
    requires forall i :: 0 <= i < |q| ==> !IsAt(q + FENCE, FENCE, i)
    ensures Find(front + q + FENCE + rest, FENCE, 3) == Some(|front| + |q|)
  {
    var t, at := front + q + FENCE + rest, |front| + |q|;
    FenceChars(t, at);
    forall i: nat | 3 <= i < at ensures !IsAt(t, FENCE, i) {
      FenceChars(t, i);
      if i >= |front| { FenceChars(q + FENCE, i - |front|); }
    }
  }

  lemma SliceBetween(front: string, q: string, right: string)
    requires |front| >= 3
    ensures (front + q + FENCE + right)[3..|front| + |q|] == front[3..] + q
  {}

  lemma FencedStrip(front: string, q: string, rest: string)
    requires |front| >= 3 && front[0] == '`'
    ensures Strip(front + q + FENCE + rest) == front + q + FENCE + StripRight(rest)
  {
    hide Strip, StripRight;
    var x := front + q + FENCE;
    assert "" + x + rest == x + rest && StripLeft("") + x == x;
    StripAround("", x, rest);
  }

  lemma UnfencedInside(content: string, stripped: string, closing: nat)
    requires Strip(content) == stripped && IsAt(stripped, FENCE, 0) && 3 <= closing <= |stripped|
    requires Find(stripped, FENCE, 3) == Some(closing)
    ensures Unfenced(content) == WithoutTagLine(Strip(stripped[3..closing]))
  {
    hide Strip, Find, WithoutTagLine;
  }

  lemma CutInside(front: string, q: string, rest: string)
    requires |front| >= 3 && forall i :: 0 <= i < |front| ==> (front[i] == '`' <==> i < 3)
    requires forall i :: 0 <= i < |q| ==> !IsAt(q + FENCE, FENCE, i)
    ensures Unfenced(front + q + FENCE + rest) == WithoutTagLine(Strip(front[3..] + q))
    ensures Strip(front + q + FENCE + rest) != []
  {
    hide StripRight, WithoutTagLine, Strip, Unfenced, Find, IsAt;
    var right := StripRight(rest);
    var stripped := front + q + FENCE + right;
    FencedStrip(front, q, rest);
    FenceChars(stripped, 0);
    ClosingFence(front, q, right);
    UnfencedInside(front + q + FENCE + rest, stripped, |front| + |q|);
    SliceBetween(front, q, right);
  }

  /** The text between the fences is cut at the first fence mark after the opening one. */
  lemma FenceIsCutAt(tag: string, q: string, rest: string)
    requires IsTag(tag) && StartsContainer(q)
    requires forall i :: 0 <= i < |q| ==> !IsAt(q + FENCE, FENCE, i)
    ensures Unfenced((FENCE + tag + "\n") + q + FENCE + rest) == StripRight(q)
    ensures Strip((FENCE + tag + "\n") + q + FENCE + rest) != []
  {
    TagLineGoes(tag, q);
    OpeningLine(tag);
    hide IsTag, StripRight, WithoutTagLine, Strip, Unfenced, Find, IsAt;
    var front := FENCE + tag + "\n";
    CutInside(front, q, rest);
  }

  lemma OpeningLine(tag: string)
    requires IsTag(tag)
    ensures var front := FENCE + tag + "\n";
      front[3..] == tag + "\n" && |front| >= 3 && forall i :: 0 <= i < |front| ==> (front[i] == '`' <==> i < 3)
  {}

  lemma Regroup(front: string, q: string, tail: string, more: string)
    ensures front + (q + FENCE + tail) + more == front + q + FENCE + (tail + more)
  {}

  /** A proper prefix of a printed object or array holds no block and is not JSON. */
  lemma CutValueIsLost<V>(p: string, d: nat, loads: Loads<V>, r: Option<V>)
    requires Enclosed(p) && 0 < d < |p|
    requires RejectsUnbalanced(loads)
    ensures loads(p[..d]) == None
    ensures Recovers(p[..d], loads, r) ==> r == None
  {
    var t := p[..d];
    UnbalancedPrefix(p, d);
    PrefixIsUnclosed(p, d);
    hide IsScan, Enclosed, Balanced;
    if Recovers(t, loads, r) {
      var spans: seq<Span> :| IsScan(t, spans) && InText(t, spans) && r == FirstParsed(t, spans, loads, 0);
      ScanIsUnique(t, spans, []);
    }
  }

  lemma PrefixIsUnclosed(p: string, d: nat)
    requires Enclosed(p) && 0 < d < |p|
    ensures IsScan(p[..d], [])
  {
    var t := p[..d];
    forall j | 0 <= j <= d ensures Net(t, j) == Net(p, j) {
      assert t[..j] == p[..j];
      SamePrefix(t, p, j);
    }
    assert Opens(t, 0) && IsUnclosed(t, 0);
  }

  lemma NoFenceBefore(p: string, gap: Gap)
    requires p != [] && IsCloser(p[|p| - 1]) && Find(p, FENCE, 0).None?
    ensures forall i :: 0 <= i < |p + gap| ==> !IsAt(p + gap + FENCE, FENCE, i)
  {
    hide Find;
    var q := p + gap;
    forall i | 0 <= i < |q| ensures !IsAt(q + FENCE, FENCE, i) {
      FenceChars(q + FENCE, i);
      FenceChars(p, i);
    }
  }

  lemma WholeValueIsKept(tag: string, p: string, gap: Gap, rest: string)
    requires IsTag(tag) && StartsContainer(p) && IsCloser(p[|p| - 1])
    requires Find(p, FENCE, 0).None?
    ensures var content := (FENCE + tag + "\n") + (p + gap) + FENCE + rest;
            Unfenced(content) == p && Strip(content) != []
  {
    var q := p + gap;
    NoFenceBefore(p, gap);
    hide IsTag, Unfenced, Strip, StripRight, IsAt, Find;
    FenceIsCutAt(tag, q, rest);
    StripRightStops(p, gap);
    StripRightKeepsPrefix(gap);
    assert p + "" == p;
  }

  lemma SplitAtFence(p: string, c: nat)
    requires c <= |p| && IsAt(p, FENCE, c)
    requires forall i :: 0 <= i < c ==> !IsAt(p, FENCE, i)
    ensures p == p[..c] + FENCE + p[c + 3..]
    ensures forall i :: 0 <= i < c ==> !IsAt(p[..c] + FENCE, FENCE, i)
  {
    FenceChars(p, c);
    forall i | 0 <= i < c ensures !IsAt(p[..c] + FENCE, FENCE, i) {
      FenceChars(p[..c] + FENCE, i);
      FenceChars(p, i);
    }
  }

  lemma ValueIsCut(tag: string, p: string, c: nat, more: string)
    requires IsTag(tag) && StartsContainer(p) && c < |p|
    requires Find(p, FENCE, 0) == Some(c)
    ensures var content := (FENCE + tag + "\n") + p + more;
            0 < |StripRight(p[..c])| < |p| && Unfenced(content) == p[..|StripRight(p[..c])|] && Strip(content) != []
  {
    hide IsTag, Unfenced, Strip, Find, StripRight, IsAt;
    FenceChars(p, 0);
    SplitAtFence(p, c);
    var q, tail := p[..c], p[c + 3..];
    StripRightKeepsPrefix(q);
    FenceIsCutAt(tag, q, tail + more);
    Regroup(FENCE + tag + "\n", q, tail, more);
  }

  lemma ValueIsRead<V>(content: string, loads: Loads<V>, r: Option<V>)
    requires Strip(content) != [] && StartsContainer(Unfenced(content))
    requires Extracts(content, loads, r)
    ensures loads(Unfenced(content)).Some? ==> r == loads(Unfenced(content))
    ensures loads(Unfenced(content)).None? ==> Recovers(Unfenced(content), loads, r)
  {
    hide Unfenced, Strip, Recovers;
  }

  /** The fence promise and its exact limit: a fenced object or array is recovered if and only if
      its own text holds no fence mark; otherwise nothing is recovered. */
  lemma FencedValue<V>(tag: string, v: Json, st: Style, gap: Gap, rest: string, loads: Loads<V>, x: V, r: Option<V>)
    requires IsTag(tag) && v.IsContainer()
    requires loads(Print(v, st)) == Some(x) && RejectsUnbalanced(loads)
    requires Extracts((FENCE + tag + "\n") + (Print(v, st) + gap) + FENCE + rest, loads, r)
    ensures r == if Find(Print(v, st), FENCE, 0).None? then Some(x) else None
  {
    PrintIsBalanced(v, st);
    FencedText(tag, Print(v, st), gap, rest, loads, r);
  }

  lemma FencedText<V>(tag: string, p: string, gap: Gap, rest: string, loads: Loads<V>, r: Option<V>)
    requires IsTag(tag) && Enclosed(p)
    requires loads(p).Some? && RejectsUnbalanced(loads)
    requires Extracts((FENCE + tag + "\n") + (p + gap) + FENCE + rest, loads, r)
    ensures r == if Find(p, FENCE, 0).None? then loads(p) else None
  {
    var content := (FENCE + tag + "\n") + (p + gap) + FENCE + rest;
    hide Unfenced, Balanced, Recovers, Strip, Extracts, IsTag, StripRight, RejectsUnbalanced;
    match Find(p, FENCE, 0)
    case None =>
      WholeValueIsKept(tag, p, gap, rest);
      ValueIsRead(content, loads, r);
    case Some(c) =>
      ValueIsCut(tag, p, c, gap + FENCE + rest);
      assert content == (FENCE + tag + "\n") + p + (gap + FENCE + rest);
      var d := |StripRight(p[..c])|;
      CutValueIsLost(p, d, loads, r);
      ValueIsRead(content, loads, r);
  }

  lemma UnbalancedPrefix(p: string, d: nat)
    requires Enclosed(p) && 0 < d < |p|
    ensures !Balanced(p[..d])
  {
    assert p[..d][..d] == p[..d];
    SamePrefix(p[..d], p, d);
  }

  const TICK := Raw('`')
  const TICKED := Obj([Member([Raw('a')], Str([TICK, TICK, TICK]))])

  lemma TickedText()
    ensures Print(TICKED, COMPACT) == "{\"a\":\"```\"}"
  {
    assert PrintUnits([TICK]) == "`";
    assert PrintUnits([TICK, TICK]) == "``";
    assert PrintUnits([TICK, TICK, TICK]) == "```";
    assert PrintUnits([Raw('a')]) == "a";
    assert Print(Str([TICK, TICK, TICK]), COMPACT) == "\"```\"";
    var member := Member([Raw('a')], Str([TICK, TICK, TICK]));
    assert PrintMembers([member], COMPACT) == "\"a\":\"```\"";
  }

  /** A concrete loss: a fenced object one of whose strings is three backticks. */
  lemma FenceInAStringLosesTheValue<V>(loads: Loads<V>, x: V, r: Option<V>)
    requires loads(Print(TICKED, COMPACT)) == Some(x) && RejectsUnbalanced(loads)
    requires Extracts((FENCE + "json" + "\n") + (Print(TICKED, COMPACT) + "\n") + FENCE + "", loads, r)
    ensures r == None
  {
    hide RejectsUnbalanced, Extracts, Print, Strip;
    TickedText();
    FenceChars(Print(TICKED, COMPACT), 6);
    TagJson();
    FencedValue("json", TICKED, COMPACT, "\n", "", loads, x, r);
  }

  lemma TagJson()
    ensures IsTag("json")
  {
    StripAround("", "json", "");
    assert "" + "json" + "" == "json";
  }
}

/** A frame log as bytes: its lines as a binary reader iterates them, and the
    offset at which each line starts.
  */
module LogLines {

  newtype Byte = b: int | 0 <= b < 256

  type Bytes = seq<Byte>

  const NEWLINE: Byte := 10

  /** Where the first line of `t` ends: after its newline, or at the end of the file. */
  function LineEnd(t: Bytes): (n: nat)
    requires t != []
    ensures 0 < n <= |t|
    ensures forall i :: 0 <= i < n - 1 ==> t[i] != NEWLINE
    ensures t[n - 1] == NEWLINE || n == |t|
  {
    if t[0] == NEWLINE || |t| == 1 then 1 else 1 + LineEnd(t[1..])
  }

  function Lines(t: Bytes): (lines: seq<Bytes>)
    ensures forall l :: l in lines ==> l != []
  {
    if t == [] then [] else [t[..LineEnd(t)]] + Lines(t[LineEnd(t)..])
  }

  /** `readline` after a seek. */
  function LineAt(t: Bytes, offset: nat): Bytes {
    if offset >= |t| then [] else t[offset..][..LineEnd(t[offset..])]
  }

  /** Bytes in the first `k` lines. */
  function OffsetOf(lines: seq<Bytes>, k: nat): nat
    requires k <= |lines|
  {
    if k == 0 then 0 else OffsetOf(lines, k - 1) + |lines[k - 1]|
  }

  /** From `offset` on, `t` holds the lines from number `k` on. */
  ghost predicate IsLineStart(t: Bytes, lines: seq<Bytes>, offset: nat, k: nat) {
    offset <= |t| && k <= |lines| && Lines(t[offset..]) == lines[k..]
  }

  lemma {:induction false} LinesFrom(t: Bytes, lines: seq<Bytes>, k: nat)
    requires lines == Lines(t) && k <= |lines|
    ensures IsLineStart(t, lines, OffsetOf(lines, k), k)
  {
    hide Lines, LineEnd;
    if k == 0 {
      assert t[0..] == t && lines[0..] == lines;
    } else {
      hide IsLineStart;
      LinesFrom(t, lines, k - 1);
      NextLine(t, lines, OffsetOf(lines, k - 1), k - 1);
    }
  }

  lemma NextLine(t: Bytes, lines: seq<Bytes>, offset: nat, k: nat)
    requires IsLineStart(t, lines, offset, k) && k < |lines|
    ensures IsLineStart(t, lines, offset + |lines[k]|, k + 1)
  {
    hide Lines, LineEnd;
    var u := t[offset..];
    FirstLine(u);
    var n := LineEnd(u);
    hide IsLineStart;
    var later := Lines(u[n..]);
    HeadOfRest(lines, k, u[..n], later);
    SliceTwice(t, offset, n);
    StartsHere(t, lines, offset + n, k + 1);
  }

  lemma StartsHere(t: Bytes, lines: seq<Bytes>, offset: nat, k: nat)
    requires offset <= |t| && k <= |lines| && Lines(t[offset..]) == lines[k..]
    ensures IsLineStart(t, lines, offset, k)
  {
    hide Lines;
  }

  lemma HeadOfRest<T>(lines: seq<T>, k: nat, first: T, rest: seq<T>)
    requires k < |lines| && lines[k..] == [first] + rest
    ensures lines[k] == first && lines[k + 1..] == rest
  {
    assert lines[k] == lines[k..][0];
    assert lines[k + 1..] == lines[k..][1..];
  }

  lemma SliceTwice<T>(t: seq<T>, n: nat, k: nat)
    requires n + k <= |t|
    ensures t[n + k..] == t[n..][k..]
  {}

  lemma FirstLine(t: Bytes)
    requires Lines(t) != []
    ensures t != [] && Lines(t) == [t[..LineEnd(t)]] + Lines(t[LineEnd(t)..])
  {}

  /** Seeking to the offset of a line and reading gives that line back. */
  lemma OffsetReadsBack(t: Bytes, k: nat)
    requires k < |Lines(t)|
    ensures LineAt(t, OffsetOf(Lines(t), k)) == Lines(t)[k]
  {
    var lines := Lines(t);
    LinesFrom(t, lines, k);
    FirstLine(t[OffsetOf(lines, k)..]);
    hide Lines, LineEnd;
    var u := t[OffsetOf(lines, k)..];
    HeadOfRest(lines, k, u[..LineEnd(u)], Lines(u[LineEnd(u)..]));
  }

  predicate EndsLine(t: Bytes) { t == [] || t[|t| - 1] == NEWLINE }

  /** `t` became `u` by appends that begin on a fresh line. */
  predicate IsLinePrefix(t: Bytes, u: Bytes) { t <= u && (t == u || EndsLine(t)) }

  /** Such appends do not disturb the lines that are there. */
  lemma LineStaysPut(t: Bytes, u: Bytes, offset: nat)
    requires IsLinePrefix(t, u) && offset < |t|
    ensures LineAt(u, offset) == LineAt(t, offset)
  {
    hide LineEnd;
    var a, b := t[offset..], u[offset..];
    if t != u {
      assert a[|a| - 1] == t[|t| - 1] == NEWLINE;
      assert forall i :: 0 <= i < |a| ==> a[i] == b[i];
      assert LineEnd(a) == LineEnd(b);
    }
  }

  predicate IsLine(l: Bytes) {
    l != [] && l[|l| - 1] == NEWLINE && forall i :: 0 <= i < |l| - 1 ==> l[i] != NEWLINE
  }

  function Concat(lines: seq<Bytes>): Bytes {
    if lines == [] then [] else Concat(lines[..|lines| - 1]) + lines[|lines| - 1]
  }

  lemma FirstLineOfConcat(l: Bytes, more: Bytes)
    requires IsLine(l)
    ensures LineEnd(l + more) == |l|
  {
    assert (l + more)[|l| - 1] == l[|l| - 1];
    assert forall i :: 0 <= i < |l| - 1 ==> (l + more)[i] == l[i];
  }

  lemma {:induction false} ConcatFront(l: Bytes, lines: seq<Bytes>)
    ensures Concat([l] + lines) == l + Concat(lines)
  {
    if lines == [] {
      assert [l] + lines == [l] && [l][..0] == [];
    } else {
      var n := |lines| - 1;
      ConcatFront(l, lines[..n]);
      assert ([l] + lines)[..n + 1] == [l] + lines[..n];
    }
  }

  /** Writing whole lines one after the other and iterating the file gives the lines back. */
  lemma {:induction false} LinesOfConcat(lines: seq<Bytes>)
    requires forall l :: l in lines ==> IsLine(l)
    ensures Lines(Concat(lines)) == lines
  {
    if lines != [] {
      var l, rest := lines[0], lines[1..];
      assert lines == [l] + rest;
      ConcatFront(l, rest);
      FirstLineOfConcat(l, Concat(rest));
      LinesOfConcat(rest);
      assert (l + Concat(rest))[|l|..] == Concat(rest);
    }
  }
}

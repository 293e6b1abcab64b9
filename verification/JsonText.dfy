/** JSON text seen as characters: the quote automaton that decides which
    characters lie inside a string literal, the bracket depth outside literals,
    and a printer for JSON values (RFC 8259, sections 2 to 7) whose every output
    is bracket-balanced however its strings are spelled.
  */
module JsonText {
  import opened Prelude

  // ---------- characters ----------

  predicate IsOpener(c: char) { c == '{' || c == '[' }

  predicate IsCloser(c: char) { c == '}' || c == ']' }

  predicate IsPlain(c: char) { c != '"' && !IsOpener(c) && !IsCloser(c) }

  predicate AllPlain(t: string) { forall i :: 0 <= i < |t| ==> IsPlain(t[i]) }

  // ---------- quote state and depth ----------

  datatype Quote = Outside | Inside | Escaped

  function NextQuote(q: Quote, c: char): Quote {
    match q
    case Escaped => Inside
    case Inside => if c == '\\' then Escaped else if c == '"' then Outside else Inside
    case Outside => if c == '"' then Inside else Outside
  }

  /** The quote state just before position `i` of `t`. */
  function QuoteAt(t: string, i: nat): Quote
    requires i <= |t|
  {
    if i == 0 then Outside else NextQuote(QuoteAt(t, i - 1), t[i - 1])
  }

  function Weight(q: Quote, c: char): int {
    if q != Outside then 0 else if IsOpener(c) then 1 else if IsCloser(c) then -1 else 0
  }

  /** Openers minus closers outside string literals among the first `i` characters. */
  function Net(t: string, i: nat): int
    requires i <= |t|
  {
    if i == 0 then 0 else Net(t, i - 1) + Weight(QuoteAt(t, i - 1), t[i - 1])
  }

  /** Starting outside a literal, `t` ends outside one, at depth zero, and never dips below zero. */
  ghost predicate Balanced(t: string) {
    && QuoteAt(t, |t|) == Outside
    && Net(t, |t|) == 0
    && forall j :: 0 <= j <= |t| ==> Net(t, j) >= 0
  }

  /** A balanced text that returns to depth zero only at its very end. */
  ghost predicate Enclosed(t: string) {
    && |t| >= 2
    && IsOpener(t[0]) && IsCloser(t[|t| - 1])
    && Balanced(t)
    && forall j :: 0 < j < |t| ==> Net(t, j) > 0
  }

  /** A piece of text that starts outside a literal behaves inside any larger text as it does alone. */
  lemma {:induction false} Embedding(t: string, at: nat, p: string, j: nat)
    requires at + |p| <= |t| && t[at..at + |p|] == p
    requires QuoteAt(t, at) == Outside
    requires j <= |p|
    ensures QuoteAt(t, at + j) == QuoteAt(p, j)
    ensures Net(t, at + j) == Net(t, at) + Net(p, j)
  {
    if j > 0 {
      Embedding(t, at, p, j - 1);
      assert p[j - 1] == t[at..at + |p|][j - 1] == t[at + j - 1];
    }
  }

  lemma {:induction false} SamePrefix(t: string, u: string, i: nat)
    requires i <= |t| && i <= |u| && t[..i] == u[..i]
    ensures QuoteAt(t, i) == QuoteAt(u, i) && Net(t, i) == Net(u, i)
  {
    if i > 0 {
      assert t[..i - 1] == t[..i][..i - 1] && u[..i - 1] == u[..i][..i - 1];
      assert t[i - 1] == t[..i][i - 1] && u[i - 1] == u[..i][i - 1];
      SamePrefix(t, u, i - 1);
    }
  }

  lemma {:induction false} PlainIsFlat(t: string, i: nat)
    requires AllPlain(t) && i <= |t|
    ensures QuoteAt(t, i) == Outside && Net(t, i) == 0
  {
    if i > 0 { PlainIsFlat(t, i - 1); }
  }

  lemma PlainIsBalanced(t: string)
    requires AllPlain(t)
    ensures Balanced(t)
  {
    forall j | 0 <= j <= |t| ensures QuoteAt(t, j) == Outside && Net(t, j) == 0 {
      PlainIsFlat(t, j);
    }
  }

  lemma BalancedConcat(a: string, b: string)
    requires Balanced(a) && Balanced(b)
    ensures Balanced(a + b)
  {
    hide QuoteAt, Net;
    forall j | 0 <= j <= |a + b|
      ensures j <= |a| ==> QuoteAt(a + b, j) == QuoteAt(a, j) && Net(a + b, j) == Net(a, j)
      ensures |a| <= j ==> QuoteAt(a + b, j) == QuoteAt(b, j - |a|) && Net(a + b, j) == Net(b, j - |a|)
    {
      SamePrefix(a + b, a, if j <= |a| then j else |a|);
      if |a| <= j { Embedding(a + b, |a|, b, j - |a|); }
    }
  }

  lemma Wrap(open: char, body: string, close: char)
    requires IsOpener(open) && IsCloser(close) && Balanced(body)
    ensures Enclosed([open] + body + [close])
  {
    var t := [open] + body + [close];
    assert QuoteAt(t, 1) == NextQuote(QuoteAt(t, 0), t[0]) && Net(t, 1) == Net(t, 0) + 1;
    forall j | 0 <= j <= |body|
      ensures QuoteAt(t, 1 + j) == QuoteAt(body, j) && Net(t, 1 + j) == 1 + Net(body, j)
    {
      Embedding(t, 1, body, j);
    }
    assert t[|t| - 1] == close;
    assert Net(t, |t|) == Net(t, 1 + |body|) - 1;
    forall j | 0 < j < |t| ensures Net(t, j) > 0 {
      assert Net(t, 1 + (j - 1)) == 1 + Net(body, j - 1);
    }
  }

  // ---------- JSON values ----------

  /** One spelled unit of a string literal: a character written as itself, a two-character
      escape, or a \u escape with four hexadecimal digits. */
  datatype Unit =
    | Raw(c: RawChar)
    | Short(e: EscapeChar)
    | Hex(h0: HexChar, h1: HexChar, h2: HexChar, h3: HexChar)

  type RawChar = c: char | c != '"' && c != '\\' && c >= ' ' witness 'a'
  type EscapeChar = c: char | c in ['"', '\\', '/', 'b', 'f', 'n', 'r', 't'] witness 'n'
  type HexChar = c: char | '0' <= c <= '9' || 'a' <= c <= 'f' || 'A' <= c <= 'F' witness '0'

  type Digits = s: string | s != [] && forall i :: 0 <= i < |s| ==> '0' <= s[i] <= '9' witness "0"

  /** The integer part of a number: no leading zero. */
  type Whole = s: Digits | s[0] == '0' ==> |s| == 1 witness "0"

  datatype Exponent = Exponent(upper: bool, sign: Sign, digits: Digits)

  datatype Sign = NoSign | Plus | Minus

  /** A number as section 6 of RFC 8259 spells it. */
  datatype Numeral = Numeral(negative: bool, whole: Whole, fraction: Option<Digits>, exponent: Option<Exponent>)

  type Gap = s: string | forall i :: 0 <= i < |s| ==> s[i] in " \t\n\r" witness ""

  datatype Json =
    | Null
    | Bool(b: bool)
    | Number(numeral: Numeral)
    | Str(units: seq<Unit>)
    | Arr(items: seq<Json>)
    | Obj(members: seq<Member>)
  {
    predicate IsContainer() { Arr? || Obj? }
  }

  datatype Member = Member(key: seq<Unit>, value: Json)

  /** Where white space goes: all gaps empty is the compact form. */
  datatype Style = Style(afterOpen: Gap, beforeClose: Gap, afterComma: Gap, afterColon: Gap)

  const COMPACT := Style("", "", "", "")

  function PrintExponent(e: Exponent): string {
    var sign := match e.sign case NoSign => "" case Plus => "+" case Minus => "-";
    (if e.upper then "E" else "e") + sign + e.digits
  }

  function PrintNumeral(n: Numeral): string {
    (if n.negative then "-" else "") + n.whole
    + (if n.fraction.Some? then "." + n.fraction.value else "")
    + (if n.exponent.Some? then PrintExponent(n.exponent.value) else "")
  }

  function PrintUnit(u: Unit): string {
    match u
    case Raw(c) => [c]
    case Short(e) => ['\\', e]
    case Hex(h0, h1, h2, h3) => ['\\', 'u', h0, h1, h2, h3]
  }

  function PrintUnits(units: seq<Unit>): string {
    if units == [] then "" else PrintUnit(units[0]) + PrintUnits(units[1..])
  }

  function PrintString(units: seq<Unit>): string { ['"'] + PrintUnits(units) + ['"'] }

  function Print(v: Json, st: Style): string
    decreases v, 1
  {
    match v
    case Null => "null"
    case Bool(b) => if b then "true" else "false"
    case Number(numeral) => PrintNumeral(numeral)
    case Str(units) => PrintString(units)
    case Arr(items) => ['['] + (st.afterOpen + PrintItems(items, st) + st.beforeClose) + [']']
    case Obj(members) => ['{'] + (st.afterOpen + PrintMembers(members, st) + st.beforeClose) + ['}']
  }

  function PrintItems(items: seq<Json>, st: Style): string
    decreases items, 0
  {
    if items == [] then ""
    else if |items| == 1 then Print(items[0], st)
    else Print(items[0], st) + (([','] + st.afterComma) + PrintItems(items[1..], st))
  }

  function PrintMembers(members: seq<Member>, st: Style): string
    decreases members, 0
  {
    if members == [] then ""
    else
      var Member(key, v) := members[0];
      var first := PrintString(key) + (([':'] + st.afterColon) + Print(v, st));
      if |members| == 1 then first
      else first + (([','] + st.afterComma) + PrintMembers(members[1..], st))
  }

  // ---------- every printed value is balanced ----------

  lemma OneInside(t: string, i: nat)
    requires i < |t| && QuoteAt(t, i) == Inside && t[i] != '"' && t[i] != '\\'
    ensures QuoteAt(t, i + 1) == Inside && Net(t, i + 1) == Net(t, i)
  {}

  lemma OneEscape(t: string, i: nat)
    requires i + 1 < |t| && QuoteAt(t, i) == Inside && t[i] == '\\'
    ensures QuoteAt(t, i + 2) == Inside && Net(t, i + 2) == Net(t, i + 1) == Net(t, i)
  {
    assert QuoteAt(t, i + 1) == Escaped;
  }

  lemma UnitStaysInside(t: string, at: nat, u: Unit)
    requires at + |PrintUnit(u)| <= |t| && t[at..at + |PrintUnit(u)|] == PrintUnit(u)
    requires QuoteAt(t, at) == Inside
    ensures QuoteAt(t, at + |PrintUnit(u)|) == Inside
    ensures forall i :: at <= i <= at + |PrintUnit(u)| ==> Net(t, i) == Net(t, at)
  {
    hide QuoteAt, Net;
    var p := PrintUnit(u);
    forall j | 0 <= j < |p| ensures t[at + j] == p[j] { assert t[at..at + |p|][j] == p[j]; }
    match u
    case Raw(c) => OneInside(t, at);
    case Short(e) => OneEscape(t, at);
    case Hex(h0, h1, h2, h3) =>
      OneEscape(t, at);
      OneInside(t, at + 2);
      OneInside(t, at + 3);
      OneInside(t, at + 4);
      OneInside(t, at + 5);
  }

  lemma SplitSlice(t: string, at: nat, p: string, rest: string)
    requires at + |p| + |rest| <= |t| && t[at..at + |p| + |rest|] == p + rest
    ensures t[at..at + |p|] == p && t[at + |p|..at + |p| + |rest|] == rest
  {
    var whole := t[at..at + |p| + |rest|];
    assert t[at..at + |p|] == whole[..|p|];
    assert t[at + |p|..at + |p| + |rest|] == whole[|p|..];
  }

  lemma {:induction false} UnitsStayInside(t: string, at: nat, units: seq<Unit>)
    requires at + |PrintUnits(units)| <= |t| && t[at..at + |PrintUnits(units)|] == PrintUnits(units)
    requires QuoteAt(t, at) == Inside
    ensures QuoteAt(t, at + |PrintUnits(units)|) == Inside
    ensures forall i :: at <= i <= at + |PrintUnits(units)| ==> Net(t, i) == Net(t, at)
    decreases |units|
  {
    hide QuoteAt, Net, PrintUnit;
    if units != [] {
      var p, rest := PrintUnit(units[0]), PrintUnits(units[1..]);
      assert PrintUnits(units) == p + rest;
      SplitSlice(t, at, p, rest);
      UnitStaysInside(t, at, units[0]);
      UnitsStayInside(t, at + |p|, units[1..]);
    }
  }

  lemma StringIsBalanced(units: seq<Unit>)
    ensures Balanced(PrintString(units))
  {
    var t, body := PrintString(units), PrintUnits(units);
    assert QuoteAt(t, 1) == NextQuote(QuoteAt(t, 0), t[0]) && Net(t, 1) == Net(t, 0);
    assert t[1..1 + |body|] == body;
    UnitsStayInside(t, 1, units);
    assert t[|t| - 1] == '"';
    assert QuoteAt(t, |t|) == NextQuote(QuoteAt(t, 1 + |body|), '"');
    assert Net(t, |t|) == Net(t, 1 + |body|) + Weight(QuoteAt(t, 1 + |body|), '"');
  }

  lemma NumeralIsPlain(n: Numeral)
    ensures AllPlain(PrintNumeral(n))
  {
    if n.exponent.Some? { ExponentIsPlain(n.exponent.value); }
  }

  lemma ExponentIsPlain(e: Exponent)
    ensures AllPlain(PrintExponent(e))
  {}

  /** The nesting law: whatever escapes, quotes or brackets the strings of `v` hold, the printed
      text is balanced, and a printed object or array closes only at its last character. */
  lemma {:induction false} PrintIsBalanced(v: Json, st: Style)
    ensures Balanced(Print(v, st))
    ensures v.IsContainer() ==> Enclosed(Print(v, st))
    decreases v, 1
  {
    match v
    case Null => PlainIsBalanced("null");
    case Bool(b) => PlainIsBalanced(Print(v, st));
    case Number(numeral) =>
      NumeralIsPlain(numeral);
      PlainIsBalanced(PrintNumeral(numeral));
    case Str(units) => StringIsBalanced(units);
    case Arr(items) =>
      ItemsAreBalanced(items, st);
      Padded(PrintItems(items, st), st);
      Wrap('[', st.afterOpen + PrintItems(items, st) + st.beforeClose, ']');
    case Obj(members) =>
      MembersAreBalanced(members, st);
      Padded(PrintMembers(members, st), st);
      Wrap('{', st.afterOpen + PrintMembers(members, st) + st.beforeClose, '}');
  }

  lemma Padded(body: string, st: Style)
    requires Balanced(body)
    ensures Balanced(st.afterOpen + body + st.beforeClose)
  {
    PlainIsBalanced(st.afterOpen);
    PlainIsBalanced(st.beforeClose);
    BalancedConcat(st.afterOpen, body);
    BalancedConcat(st.afterOpen + body, st.beforeClose);
  }

  lemma Separated(a: string, mark: char, gap: Gap, b: string)
    requires Balanced(a) && Balanced(b) && IsPlain(mark)
    ensures Balanced(a + (([mark] + gap) + b))
  {
    PlainIsBalanced([mark] + gap);
    BalancedConcat([mark] + gap, b);
    BalancedConcat(a, ([mark] + gap) + b);
  }

  lemma {:induction false} ItemsAreBalanced(items: seq<Json>, st: Style)
    ensures Balanced(PrintItems(items, st))
    decreases items, 0
  {
    if items == [] {
      PlainIsBalanced("");
    } else {
      PrintIsBalanced(items[0], st);
      if |items| > 1 {
        ItemsAreBalanced(items[1..], st);
        Separated(Print(items[0], st), ',', st.afterComma, PrintItems(items[1..], st));
      }
    }
  }

  lemma {:induction false} MembersAreBalanced(members: seq<Member>, st: Style)
    ensures Balanced(PrintMembers(members, st))
    decreases members, 0
  {
    if members == [] {
      PlainIsBalanced("");
    } else {
      var Member(key, v) := members[0];
      StringIsBalanced(key);
      PrintIsBalanced(v, st);
      Separated(PrintString(key), ':', st.afterColon, Print(v, st));
      if |members| > 1 {
        MembersAreBalanced(members[1..], st);
        Separated(PrintString(key) + (([':'] + st.afterColon) + Print(v, st)), ',', st.afterComma,
                  PrintMembers(members[1..], st));
      }
    }
  }
}

/** Citation markers in an answer: finding them outside code and quotes, and removing
  * those whose source was never read. Texts are sequences of UTF-16 code units. */
module Citations {
  import opened Records

  type Text = seq<int>

  const TAB := 9
  const NEWLINE := 10
  const RETURN := 13
  const SPACE := 32
  const OPEN_PAREN := 40
  const COLON := 58
  const GREATER := 62
  const OPEN_BRACKET := 91
  const CLOSE_BRACKET := 93
  const TICK := 96
  const TILDE := 126

  predicate IsDigit(u: int) { 48 <= u <= 57 }

  /** The class `\s` of regular expressions. */
  predicate IsSpace(u: int) {
    9 <= u <= 13 || u == SPACE || u == 0xA0 || u == 0x1680 || 0x2000 <= u <= 0x200A || u == 0x2028 || u == 0x2029
    || u == 0x202F || u == 0x205F || u == 0x3000 || u == 0xFEFF
  }

  /** Where `.` stops and the multiline anchors match. */
  predicate IsTerminator(u: int) { u == NEWLINE || u == RETURN || u == 0x2028 || u == 0x2029 }

  // ---------- masking ----------

  /** Blank out the marked units, except newlines. */
  function MaskWhere(t: Text, marked: seq<bool>): (masked: Text)
    requires |marked| == |t|
    ensures |masked| == |t|
    ensures forall i :: 0 <= i < |t| ==> masked[i] == if marked[i] && t[i] != NEWLINE then SPACE else t[i]
  {
    seq(|t|, i requires 0 <= i < |t| => if marked[i] && t[i] != NEWLINE then SPACE else t[i])
  }

  /** The length of the run of `u` that starts at `i`. */
  function RunLength(t: Text, i: nat, u: int): (n: nat)
    requires i <= |t|
    ensures i + n <= |t|
    decreases |t| - i
  {
    if i < |t| && t[i] == u then 1 + RunLength(t, i + 1, u) else 0
  }

  /** The length of the first line, its newline included. */
  function LineLength(t: Text): (n: nat)
    requires t != []
    ensures 1 <= n <= |t|
    ensures forall i :: 0 <= i < n - 1 ==> t[i] != NEWLINE
    ensures n < |t| ==> t[n - 1] == NEWLINE
  {
    if t[0] == NEWLINE || |t| == 1 then 1 else 1 + LineLength(t[1..])
  }

  function Content(line: Text): Text {
    if |line| >= 2 && line[|line| - 2] == RETURN && line[|line| - 1] == NEWLINE then line[..|line| - 2]
    else if |line| >= 1 && line[|line| - 1] == NEWLINE then line[..|line| - 1]
    else line
  }

  datatype Fence = Fence(unit: int, length: nat)

  predicate BlankFrom(t: Text, i: nat) { forall k :: i <= k < |t| ==> t[k] == SPACE || t[k] == TAB }

  predicate Closes(content: Text, fence: Fence) {
    var indent := RunLength(content, 0, SPACE);
    var run := RunLength(content, indent, fence.unit);
    indent <= 3 && run >= fence.length && BlankFrom(content, indent + run)
  }

  function Opens(content: Text): Option<Fence> {
    var indent := RunLength(content, 0, SPACE);
    if indent > 3 || indent >= |content| || (content[indent] != TICK && content[indent] != TILDE) then None
    else
      var unit := content[indent];
      var run := RunLength(content, indent, unit);
      var info := content[indent + run..];
      if run < 3 || (exists k :: 0 <= k < |info| && IsTerminator(info[k])) then None
      else if unit == TICK && TICK in info then None
      else Some(Fence(unit, run))
  }

  predicate Indented(content: Text) {
    RunLength(content, 0, SPACE) >= 4 || (|content| > 0 && content[0] == TAB)
  }

  /** The fence after a line, and whether the line is code. */
  function NextLine(content: Text, fence: Option<Fence>): (Option<Fence>, bool) {
    if fence.Some? then (if Closes(content, fence.value) then None else fence, true)
    else if Opens(content).Some? then (Opens(content), true)
    else (None, Indented(content))
  }

  // What the regular expressions for fences say, unit by unit.

  predicate AllAre(t: Text, i: nat, j: nat, u: int)
    requires j <= |t|
  {
    forall k :: i <= k < j ==> t[k] == u
  }

  lemma {:induction false} RunIsMaximal(t: Text, i: nat, u: int)
    requires i <= |t|
    ensures AllAre(t, i, i + RunLength(t, i, u), u)
    ensures i + RunLength(t, i, u) < |t| ==> t[i + RunLength(t, i, u)] != u
    decreases |t| - i
  {
    if i < |t| && t[i] == u { RunIsMaximal(t, i + 1, u); }
  }

  /** A run that ends at `j`, because the text or the run does, has that length. */
  lemma {:induction false} RunEnds(t: Text, i: nat, j: nat, u: int)
    requires i <= j <= |t| && AllAre(t, i, j, u) && (j < |t| ==> t[j] != u)
    ensures RunLength(t, i, u) == j - i
    decreases j - i
  {
    if i < j { RunEnds(t, i + 1, j, u); }
  }

  /** Up to three spaces, then three or more ticks or tildes, and no tick after ticks. */
  ghost predicate OpensAt(content: Text, fence: Fence, indent: nat) {
    && indent <= 3 && fence.length >= 3 && indent + fence.length <= |content|
    && (fence.unit == TICK || fence.unit == TILDE)
    && AllAre(content, 0, indent, SPACE) && AllAre(content, indent, indent + fence.length, fence.unit)
    && (indent + fence.length < |content| ==> content[indent + fence.length] != fence.unit)
    && (forall k :: indent + fence.length <= k < |content| ==>
          !IsTerminator(content[k]) && (fence.unit == TICK ==> content[k] != TICK))
  }

  lemma OpensThere(content: Text, fence: Fence)
    requires Opens(content) == Some(fence)
    ensures OpensAt(content, fence, RunLength(content, 0, SPACE))
  {
    var indent := RunLength(content, 0, SPACE);
    RunIsMaximal(content, 0, SPACE);
    RunIsMaximal(content, indent, fence.unit);
    var info := content[indent + fence.length..];
    forall k | indent + fence.length <= k < |content|
      ensures !IsTerminator(content[k]) && (fence.unit == TICK ==> content[k] != TICK)
    {
      assert content[k] == info[k - (indent + fence.length)];
    }
  }

  lemma FenceOpens(content: Text, fence: Fence)
    ensures Opens(content) == Some(fence) <==> exists indent: nat :: OpensAt(content, fence, indent)
  {
    if Opens(content) == Some(fence) { OpensThere(content, fence); }
    if i: nat :| OpensAt(content, fence, i) {
      RunEnds(content, 0, i, SPACE);
      RunEnds(content, i, i + fence.length, fence.unit);
    }
  }

  /** Up to three spaces, at least as many units as opened it, then spaces and tabs only. */
  ghost predicate ClosesAt(content: Text, fence: Fence, indent: nat, end: nat) {
    && indent <= 3 && indent + fence.length <= end <= |content|
    && AllAre(content, 0, indent, SPACE) && AllAre(content, indent, end, fence.unit)
    && forall k :: end <= k < |content| ==> content[k] == SPACE || content[k] == TAB
  }

  lemma FenceCloses(content: Text, fence: Fence)
    requires fence.length >= 3 && (fence.unit == TICK || fence.unit == TILDE)
    ensures Closes(content, fence) <==> exists indent: nat, end: nat :: ClosesAt(content, fence, indent, end)
  {
    var indent := RunLength(content, 0, SPACE);
    RunIsMaximal(content, 0, SPACE);
    if Closes(content, fence) {
      RunIsMaximal(content, indent, fence.unit);
      assert ClosesAt(content, fence, indent, indent + RunLength(content, indent, fence.unit));
    }
    if i: nat, j: nat :| ClosesAt(content, fence, i, j) {
      assert content[i] == fence.unit;
      RunEnds(content, 0, i, SPACE);
      RunEnds(content, i, j, fence.unit);
    }
  }

  function InCode(t: Text, fence: Option<Fence>): (marked: seq<bool>)
    ensures |marked| == |t|
    decreases |t|
  {
    if t == [] then []
    else
      var n := LineLength(t);
      var (after, code) := NextLine(Content(t[..n]), fence);
      seq(n, _ => code) + InCode(t[n..], after)
  }

  function Shown(line: Text, code: bool): Text {
    if code then MaskWhere(line, seq(|line|, _ => true)) else line
  }

  lemma MaskConcat(a: Text, b: Text, ma: seq<bool>, mb: seq<bool>)
    requires |ma| == |a| && |mb| == |b|
    ensures MaskWhere(a + b, ma + mb) == MaskWhere(a, ma) + MaskWhere(b, mb)
  {
  }

  lemma ShownIsMasked(line: Text, code: bool)
    ensures Shown(line, code) == MaskWhere(line, seq(|line|, _ => code))
  {
  }

  /** The text with its code blanked out, `fence` being open when it starts. */
  ghost function MaskedFrom(t: Text, fence: Option<Fence>): (masked: Text)
    ensures |masked| == |t|
  {
    MaskWhere(t, InCode(t, fence))
  }

  lemma FirstLineInCode(t: Text, fence: Option<Fence>)
    requires t != []
    ensures var n := LineLength(t);
            var (after, code) := NextLine(Content(t[..n]), fence);
            InCode(t, fence) == seq(n, _ => code) + InCode(t[n..], after)
  {
  }

  lemma MaskLine(t: Text, n: nat, code: bool, rest: seq<bool>)
    requires n <= |t| && |rest| == |t| - n
    ensures MaskWhere(t, seq(n, _ => code) + rest) == Shown(t[..n], code) + MaskWhere(t[n..], rest)
  {
    MaskConcat(t[..n], t[n..], seq(n, _ => code), rest);
    assert t == t[..n] + t[n..];
    ShownIsMasked(t[..n], code);
  }

  lemma MaskedLineByLine(t: Text, fence: Option<Fence>)
    requires t != []
    ensures var n := LineLength(t);
            var (after, code) := NextLine(Content(t[..n]), fence);
            MaskedFrom(t, fence) == Shown(t[..n], code) + MaskedFrom(t[n..], after)
  {
    var n := LineLength(t);
    var (after, code) := NextLine(Content(t[..n]), fence);
    FirstLineInCode(t, fence);
    MaskLine(t, n, code, InCode(t[n..], after));
  }

  lemma Reassociate(a: Text, b: Text, c: Text)
    ensures a + (b + c) == a + b + c
  {
  }

  /** Four spaces or a tab. */
  predicate StartsIndented(content: Text) {
    (|content| >= 4 && AllAre(content, 0, 4, SPACE)) || (|content| >= 1 && content[0] == TAB)
  }

  lemma IndentedIs(content: Text)
    ensures Indented(content) <==> StartsIndented(content)
  {
    RunIsMaximal(content, 0, SPACE);
    if |content| >= 4 && AllAre(content, 0, 4, SPACE) { RunAtLeast(content, 0, 4, SPACE); }
  }

  lemma {:induction false} RunAtLeast(t: Text, i: nat, j: nat, u: int)
    requires i <= j <= |t| && AllAre(t, i, j, u)
    ensures RunLength(t, i, u) >= j - i
    decreases j - i
  {
    if i < j { RunAtLeast(t, i + 1, j, u); }
  }

  ghost predicate OpensFence(content: Text, fence: Fence) { exists indent: nat :: OpensAt(content, fence, indent) }

  ghost predicate ClosesFence(content: Text, fence: Fence) {
    exists indent: nat, end: nat :: ClosesAt(content, fence, indent, end)
  }

  predicate Fencing(fence: Option<Fence>) {
    fence.Some? ==> fence.value.length >= 3 && (fence.value.unit == TICK || fence.value.unit == TILDE)
  }

  /** A line is code in an open fence, when it opens one, and when it is indented; the next one
    * finds the fence still open unless the line closes it, or finds the one that it opens. */
  lemma NextLineIs(content: Text, fence: Option<Fence>)
    requires Fencing(fence)
    ensures var (after, code) := NextLine(content, fence);
            && Fencing(after)
            && (code <==> fence.Some? || (exists f :: OpensFence(content, f)) || StartsIndented(content))
            && (fence.Some? ==> after == if ClosesFence(content, fence.value) then None else fence)
            && (fence.None? ==> forall f :: after == Some(f) <==> OpensFence(content, f))
  {
    IndentedIs(content);
    forall f ensures Opens(content) == Some(f) <==> OpensFence(content, f) { FenceOpens(content, f); }
    if fence.Some? { FenceCloses(content, fence.value); }
    if Opens(content).Some? { assert OpensFence(content, Opens(content).value); }
  }

  /** The first line and what stands before its end. */
  lemma FirstLine(t: Text) returns (n: nat, content: Text)
    requires t != []
    ensures n == LineLength(t) && content == Content(t[..n])
    ensures 1 <= n <= |t| && (forall i :: 0 <= i < n - 1 ==> t[i] != NEWLINE) && (n < |t| ==> t[n - 1] == NEWLINE)
    ensures content == t[..if t[n - 1] != NEWLINE then n else if n >= 2 && t[n - 2] == RETURN then n - 2 else n - 1]
  {
    n := LineLength(t);
    content := Content(t[..n]);
  }

  /** Code is marked line by line: the first line as a whole, then the rest of the text. */
  lemma CodeByLine(t: Text, fence: Option<Fence>, i: nat)
    requires i < |t|
    ensures var n := LineLength(t);
            var (after, code) := NextLine(Content(t[..n]), fence);
            InCode(t, fence)[i] == if i < n then code else InCode(t[n..], after)[i - n]
  {
    FirstLineInCode(t, fence);
  }

  /** Line by line, as the source does it. */
  method MaskMarkdownCode(text: Text) returns (masked: Text)
    ensures masked == MaskWhere(text, InCode(text, None))
  {
    masked := [];
    var fence: Option<Fence> := None;
    var position := 0;
    assert text[0..] == text;
    while position < |text|
      invariant position <= |text|
      invariant masked + MaskedFrom(text[position..], fence) == MaskedFrom(text, None)
    {
      var rest := text[position..];
      var n := LineLength(rest);
      var (after, code) := NextLine(Content(rest[..n]), fence);
      MaskedLineByLine(rest, fence);
      Reassociate(masked, Shown(rest[..n], code), MaskedFrom(rest[n..], after));
      assert text[position + n..] == rest[n..];
      masked := masked + Shown(rest[..n], code);
      fence := after;
      position := position + n;
    }
  }

  /** The next tick or newline from `i`, or the end. */
  function TickOrLine(t: Text, i: nat): (j: nat)
    requires i <= |t|
    ensures i <= j <= |t|
    decreases |t| - i
  {
    if i == |t| || t[i] == TICK || t[i] == NEWLINE then i else TickOrLine(t, i + 1)
  }

  /** Where the tick at `i` is paired off, or the end if it is not, or there is none. */
  function PairEnd(t: Text, i: nat): (close: nat)
    requires i < |t|
    ensures close <= |t| && (close < |t| ==> i < close)
  {
    if t[i] != TICK then |t|
    else
      var j := TickOrLine(t, i + 1);
      if j < |t| && t[j] == TICK then j else |t|
  }

  /** Inline code, scanned from `start`: leftmost ticks paired on one line. */
  function InTicksFrom(t: Text, start: nat, i: nat): bool
    requires start <= i < |t|
    decreases |t| - start
  {
    var close := PairEnd(t, start);
    if close < |t| then i <= close || InTicksFrom(t, close + 1, i)
    else start < i && InTicksFrom(t, start + 1, i)
  }

  function InTicks(t: Text): seq<bool> { seq(|t|, i requires 0 <= i < |t| => InTicksFrom(t, 0, i)) }

  /** How many ticks stand on the line before `i`. */
  function TicksBefore(t: Text, i: nat): nat
    requires i <= |t|
  {
    if i == 0 || t[i - 1] == NEWLINE then 0
    else TicksBefore(t, i - 1) + if t[i - 1] == TICK then 1 else 0
  }

  /** A tick stands on the line at `i` or after. */
  ghost predicate TickAhead(t: Text, i: nat) {
    exists k :: i <= k < |t| && t[k] == TICK && SameLine(t, i, k)
  }

  predicate SameLine(t: Text, i: nat, k: nat)
    requires k <= |t|
  {
    forall j :: i <= j < k ==> t[j] != NEWLINE
  }

  /** Inline code, counted: behind an odd number of ticks with another one to come, or such a tick. */
  ghost predicate Paired(t: Text, i: nat)
    requires i < |t|
  {
    if t[i] == TICK then TicksBefore(t, i) % 2 == 1 || TickAhead(t, i + 1)
    else t[i] != NEWLINE && TicksBefore(t, i) % 2 == 1 && TickAhead(t, i + 1)
  }

  lemma {:induction false} TickOrLineStops(t: Text, i: nat)
    requires i <= |t|
    ensures var j := TickOrLine(t, i);
            && (forall k :: i <= k < j ==> t[k] != TICK && t[k] != NEWLINE)
            && (j < |t| ==> t[j] == TICK || t[j] == NEWLINE)
    decreases |t| - i
  {
    if i < |t| && t[i] != TICK && t[i] != NEWLINE { TickOrLineStops(t, i + 1); }
  }

  lemma AheadMoves(t: Text, i: nat)
    requires i < |t|
    ensures t[i] == TICK ==> TickAhead(t, i)
    ensures t[i] == NEWLINE ==> !TickAhead(t, i)
    ensures t[i] != TICK && t[i] != NEWLINE ==> (TickAhead(t, i) <==> TickAhead(t, i + 1))
  {
    if t[i] == TICK { assert SameLine(t, i, i); }
    if t[i] != TICK && t[i] != NEWLINE && TickAhead(t, i + 1) {
      var k :| i + 1 <= k < |t| && t[k] == TICK && SameLine(t, i + 1, k);
      assert SameLine(t, i, k);
    }
    if t[i] != TICK && TickAhead(t, i) {
      var k :| i <= k < |t| && t[k] == TICK && SameLine(t, i, k);
      assert t[i] != NEWLINE && SameLine(t, i + 1, k);
    }
  }

  /** Between two ticks without a newline in between. */
  lemma {:induction false} Between(t: Text, open: nat, close: nat, i: nat)
    requires open < i <= close < |t| && t[open] == TICK && t[close] == TICK
    requires forall k :: open < k < close ==> t[k] != TICK && t[k] != NEWLINE
    ensures TicksBefore(t, i) == TicksBefore(t, open) + 1 && TickAhead(t, i)
    decreases i
  {
    assert SameLine(t, i, close);
    if i > open + 1 { Between(t, open, close, i - 1); }
  }

  ghost predicate EvenOrLast(t: Text, i: nat)
    requires i <= |t|
  {
    TicksBefore(t, i) % 2 == 0 || !TickAhead(t, i)
  }

  lemma PairIsPaired(t: Text, open: nat, close: nat, i: nat)
    requires open <= i <= close < |t| && open < close && t[open] == TICK && t[close] == TICK
    requires forall k :: open < k < close ==> t[k] != TICK && t[k] != NEWLINE
    requires EvenOrLast(t, open)
    ensures Paired(t, i) && EvenOrLast(t, close + 1)
  {
    AheadMoves(t, open);
    Between(t, open, close, open + 1);
    Between(t, open, close, close);
    if open < i < close {
      Between(t, open, close, i);
      Between(t, open, close, i + 1);
    }
  }

  lemma LoneIsUnpaired(t: Text, i: nat)
    requires i < |t| && EvenOrLast(t, i) && (t[i] == TICK ==> !TickAhead(t, i + 1))
    ensures !Paired(t, i) && EvenOrLast(t, i + 1)
  {
    AheadMoves(t, i);
  }

  lemma NoTickAhead(t: Text, i: nat)
    requires i <= |t| && (TickOrLine(t, i) == |t| || t[TickOrLine(t, i)] != TICK)
    ensures !TickAhead(t, i)
  {
    var j := TickOrLine(t, i);
    TickOrLineStops(t, i);
    forall k | i <= k < |t| && t[k] == TICK ensures !SameLine(t, i, k) {
      assert j < k && t[j] == NEWLINE;
    }
  }

  lemma PairEndIs(t: Text, i: nat)
    requires i < |t| && EvenOrLast(t, i)
    ensures var close := PairEnd(t, i);
            && (close < |t| ==> t[i] == TICK && t[close] == TICK && forall k :: i < k < close ==> t[k] != TICK && t[k] != NEWLINE)
            && (close == |t| && t[i] == TICK ==> !TickAhead(t, i + 1))
  {
    if t[i] == TICK {
      TickOrLineStops(t, i + 1);
      if PairEnd(t, i) == |t| { NoTickAhead(t, i + 1); }
    }
  }

  lemma {:induction false} TicksPairFrom(t: Text, start: nat, i: nat)
    requires start <= i < |t| && EvenOrLast(t, start)
    ensures InTicksFrom(t, start, i) <==> Paired(t, i)
    decreases |t| - start
  {
    var close := PairEnd(t, start);
    PairEndIs(t, start);
    if close < |t| {
      PairIsPaired(t, start, close, if i <= close then i else close);
      if close < i { TicksPairFrom(t, close + 1, i); }
    } else {
      LoneIsUnpaired(t, start);
      if start < i { TicksPairFrom(t, start + 1, i); }
    }
  }

  /** Ticks pair up from the left on every line. */
  lemma TicksPairUp(t: Text, i: nat)
    requires i < |t|
    ensures InTicks(t)[i] <==> Paired(t, i)
  {
    TicksPairFrom(t, 0, i);
  }

  function LineStart(t: Text, i: nat): (start: nat)
    requires i <= |t|
    ensures start <= i
  {
    if i == 0 || IsTerminator(t[i - 1]) then i else LineStart(t, i - 1)
  }

  /** Block quotes: lines that begin with `>`. */
  function InQuotes(t: Text): seq<bool> {
    seq(|t|, i requires 0 <= i < |t| => !IsTerminator(t[i]) && t[LineStart(t, i)] == GREATER)
  }

  /** The line of `i` begins at `start`. */
  predicate StartsLine(t: Text, start: nat, i: nat)
    requires i < |t|
  {
    && start <= i && (start == 0 || IsTerminator(t[start - 1]))
    && forall k :: start <= k < i ==> !IsTerminator(t[k])
  }

  lemma {:induction false} LineStartIs(t: Text, start: nat, i: nat)
    requires i < |t|
    ensures LineStart(t, i) == start <==> StartsLine(t, start, i)
    decreases i
  {
    if i > 0 && !IsTerminator(t[i - 1]) {
      LineStartIs(t, start, i - 1);
      assert start == i ==> !StartsLine(t, start, i);
    }
  }

  /** A block quote is a line that begins with `>`. */
  lemma QuotesAreLines(t: Text, i: nat)
    requires i < |t|
    ensures InQuotes(t)[i] <==> !IsTerminator(t[i]) && exists start: nat :: StartsLine(t, start, i) && t[start] == GREATER
  {
    LineStartIs(t, LineStart(t, i), i);
    if start: nat :| StartsLine(t, start, i) && t[start] == GREATER { LineStartIs(t, start, i); }
  }

  function Visible(text: Text): (visible: Text)
    ensures |visible| == |text|
  {
    var noCode := MaskWhere(text, InCode(text, None));
    var noTicks := MaskWhere(noCode, InTicks(noCode));
    MaskWhere(noTicks, InQuotes(noTicks))
  }

  /** Masking keeps length, newlines and every unit that it does not turn into a space. */
  lemma VisibleShowsText(text: Text, i: nat)
    requires i < |text|
    ensures Visible(text)[i] == text[i] || (Visible(text)[i] == SPACE && text[i] != NEWLINE)
    ensures text[i] == NEWLINE ==> Visible(text)[i] == NEWLINE
    ensures InCode(text, None)[i] && text[i] != NEWLINE ==> Visible(text)[i] == SPACE
  {
  }

  /** What is hidden: fenced and indented code, then ticks that pair up in what is left of it,
    * then lines that begin with `>` in what is left of that. */
  lemma WhatIsHidden(text: Text, i: nat)
    requires i < |text|
    ensures var noCode := MaskWhere(text, InCode(text, None));
            var noTicks := MaskWhere(noCode, InTicks(noCode));
            Visible(text)[i] == if text[i] != NEWLINE
                                   && (|| InCode(text, None)[i] || Paired(noCode, i)
                                       || (!IsTerminator(noTicks[i])
                                           && exists start: nat :: StartsLine(noTicks, start, i) && noTicks[start] == GREATER))
                                then SPACE else text[i]
  {
    var noCode := MaskWhere(text, InCode(text, None));
    TicksPairUp(noCode, i);
    QuotesAreLines(MaskWhere(noCode, InTicks(noCode)), i);
  }

  // ---------- markers ----------

  datatype Occurrence = Occurrence(id: nat, start: nat, end: nat)

  function DigitsEnd(t: Text, i: nat): (j: nat)
    requires i <= |t|
    ensures i <= j <= |t|
    ensures forall k :: i <= k < j ==> IsDigit(t[k])
    decreases |t| - i
  {
    if i < |t| && IsDigit(t[i]) then DigitsEnd(t, i + 1) else i
  }

  function Number(t: Text, i: nat, j: nat): nat
    requires i <= j <= |t| && forall k :: i <= k < j ==> IsDigit(t[k])
  {
    if i == j then 0 else assert IsDigit(t[j - 1]); 10 * Number(t, i, j - 1) + (t[j - 1] - 48)
  }

  function SkipSpace(t: Text, i: nat): (j: nat)
    requires i <= |t|
    ensures i <= j <= |t|
    decreases |t| - i
  {
    if i < |t| && IsSpace(t[i]) then SkipSpace(t, i + 1) else i
  }

  /** A marker at `i`: bracketed digits that do not begin a link or a definition. */
  function MarkerAt(t: Text, i: nat): Option<Occurrence>
    requires i < |t|
  {
    if t[i] != OPEN_BRACKET then None
    else
      var j := DigitsEnd(t, i + 1);
      if j == i + 1 || j == |t| || t[j] != CLOSE_BRACKET then None
      else
        var next := SkipSpace(t, j + 1);
        if next < |t| && (t[next] == OPEN_PAREN || t[next] == COLON) then None
        else Some(Occurrence(Number(t, i + 1, j), i, j + 1))
  }

  function Markers(t: Text, i: nat): seq<Occurrence>
    requires i <= |t|
    decreases |t| - i
  {
    if i == |t| then []
    else
      var found := MarkerAt(t, i);
      if found.Some? then [found.value] + Markers(t, found.value.end) else Markers(t, i + 1)
  }

  /** `o` is literally bracketed digits in `t`. */
  predicate IsMarker(t: Text, o: Occurrence) {
    && o.start + 3 <= o.end <= |t|
    && t[o.start] == OPEN_BRACKET && t[o.end - 1] == CLOSE_BRACKET
    && (forall k :: o.start < k < o.end - 1 ==> IsDigit(t[k]))
    && o.id == Number(t, o.start + 1, o.end - 1)
  }

  /** In order and apart, from `from` on. */
  predicate Apart(os: seq<Occurrence>, start: nat) {
    && (forall i :: 0 <= i < |os| ==> start <= os[i].start < os[i].end)
    && (forall i, j :: 0 <= i < j < |os| ==> os[i].end <= os[j].start)
  }

  lemma MarkerAtIsMarker(t: Text, i: nat)
    requires i < |t| && MarkerAt(t, i).Some?
    ensures IsMarker(t, MarkerAt(t, i).value) && MarkerAt(t, i).value.start == i
  {
  }

  lemma OneMoreMarker(t: Text, o: Occurrence, rest: seq<Occurrence>)
    requires IsMarker(t, o) && Apart(rest, o.end)
    requires forall k :: 0 <= k < |rest| ==> IsMarker(t, rest[k])
    ensures Apart([o] + rest, o.start)
    ensures forall k :: 0 <= k < |[o] + rest| ==> IsMarker(t, ([o] + rest)[k])
  {
  }

  lemma {:induction false} MarkersAreMarkers(t: Text, i: nat)
    requires i <= |t|
    ensures Apart(Markers(t, i), i)
    ensures forall k :: 0 <= k < |Markers(t, i)| ==> IsMarker(t, Markers(t, i)[k])
    decreases |t| - i
  {
    if i < |t| {
      var found := MarkerAt(t, i);
      if found.Some? {
        MarkerAtIsMarker(t, i);
        var end := found.value.end;
        MarkersAreMarkers(t, end);
        OneMoreMarker(t, found.value, Markers(t, end));
      } else {
        MarkersAreMarkers(t, i + 1);
      }
    }
  }

  lemma {:induction false} SameNumber(a: Text, b: Text, i: nat, j: nat)
    requires i <= j <= |a| && |a| == |b|
    requires forall k :: i <= k < j ==> IsDigit(a[k]) && a[k] == b[k]
    ensures Number(a, i, j) == Number(b, i, j)
  {
    if i < j { SameNumber(a, b, i, j - 1); }
  }

  lemma UnmaskedMarkersAreReal(text: Text, visible: Text, o: Occurrence)
    requires |visible| == |text| && IsMarker(visible, o)
    requires forall i :: 0 <= i < |text| ==> visible[i] == text[i] || visible[i] == SPACE
    ensures IsMarker(text, o)
    ensures forall i :: o.start <= i < o.end ==> text[i] == visible[i] && visible[i] != SPACE && visible[i] != NEWLINE
  {
    forall k | o.start < k < o.end - 1 ensures IsDigit(text[k]) && text[k] == visible[k] {
      assert IsDigit(visible[k]);
    }
    SameNumber(visible, text, o.start + 1, o.end - 1);
  }

  /** A marker in the visible text stands at the same offsets of the original, outside code. */
  lemma VisibleMarkersAreReal(text: Text, o: Occurrence)
    requires IsMarker(Visible(text), o)
    ensures IsMarker(text, o)
    ensures forall i :: o.start <= i < o.end ==> !InCode(text, None)[i]
  {
    forall i | 0 <= i < |text| ensures Visible(text)[i] == text[i] || Visible(text)[i] == SPACE {
      VisibleShowsText(text, i);
    }
    UnmaskedMarkersAreReal(text, Visible(text), o);
    forall i | o.start <= i < o.end ensures !InCode(text, None)[i] {
      VisibleShowsText(text, i);
    }
  }

  /** A citation: a marker that does not begin a link or a definition, white space aside. */
  ghost predicate IsCitation(t: Text, o: Occurrence) {
    IsMarker(t, o) && !exists n: nat :: NextUnit(t, o.end, n) && (t[n] == OPEN_PAREN || t[n] == COLON)
  }

  /** `n` is the first unit from `i` on that is not white space. */
  predicate NextUnit(t: Text, i: nat, n: nat) {
    i <= n < |t| && !IsSpace(t[n]) && forall k :: i <= k < n ==> IsSpace(t[k])
  }

  lemma {:induction false} SkipSpaceStops(t: Text, i: nat)
    requires i <= |t|
    ensures forall k :: i <= k < SkipSpace(t, i) ==> IsSpace(t[k])
    ensures SkipSpace(t, i) < |t| ==> NextUnit(t, i, SkipSpace(t, i))
    decreases |t| - i
  {
    if i < |t| && IsSpace(t[i]) { SkipSpaceStops(t, i + 1); }
  }

  lemma {:induction false} DigitsStop(t: Text, i: nat, j: nat)
    requires i <= j < |t| && (forall k :: i <= k < j ==> IsDigit(t[k])) && !IsDigit(t[j])
    ensures DigitsEnd(t, i) == j
    decreases j - i
  {
    if i < j { DigitsStop(t, i + 1, j); }
  }

  /** The marker at an offset is the citation there, if there is one. */
  lemma MarkerAtIsCitation(t: Text, o: Occurrence)
    requires o.start < |t|
    ensures MarkerAt(t, o.start) == Some(o) <==> IsCitation(t, o)
  {
    if IsMarker(t, o) { DigitsStop(t, o.start + 1, o.end - 1); }
    if MarkerAt(t, o.start) == Some(o) || IsMarker(t, o) { SkipSpaceStops(t, o.end); }
  }

  /** The scan finds all citations from `i` on, and nothing else. */
  lemma {:induction false} MarkersAreCitations(t: Text, i: nat, o: Occurrence)
    requires i <= |t|
    ensures o in Markers(t, i) <==> i <= o.start && IsCitation(t, o)
    decreases |t| - i
  {
    if i < |t| {
      var found := MarkerAt(t, i);
      if o.start == i { MarkerAtIsCitation(t, o); }
      if found.Some? {
        MarkerAtIsCitation(t, found.value);
        MarkersAreCitations(t, found.value.end, o);
        if IsMarker(t, o) { assert t[o.start] == OPEN_BRACKET; }
      } else {
        MarkersAreCitations(t, i + 1, o);
      }
    }
  }

  // ---------- removing unread markers ----------

  datatype Range = Range(start: nat, end: nat)

  /** The marker with the whitespace before it, or else the whitespace after it. */
  function Widen(text: Text, o: Occurrence, position: nat): Range
    requires position <= o.start <= o.end <= |text|
  {
    if o.start > position && IsSpace(text[o.start - 1]) then Range(o.start - 1, o.end)
    else if o.end < |text| && IsSpace(text[o.end]) then Range(o.start, o.end + 1)
    else Range(o.start, o.end)
  }

  function Unread(os: seq<Occurrence>, valid: set<nat>): seq<Occurrence> {
    if os == [] then []
    else if os[0].id in valid then Unread(os[1..], valid)
    else [os[0]] + Unread(os[1..], valid)
  }

  ghost predicate MarkersOf(text: Text, os: seq<Occurrence>, start: nat) {
    Apart(os, start) && forall i :: 0 <= i < |os| ==> IsMarker(text, os[i])
  }

  lemma NextMarkerIsFarther(text: Text, os: seq<Occurrence>, position: nat)
    requires MarkersOf(text, os, position) && os != []
    ensures position <= os[0].start && os[0].end <= |text|
    ensures MarkersOf(text, os[1..], Widen(text, os[0], position).end)
    ensures Widen(text, os[0], position).end <= |text|
  {
    var rest, end := os[1..], Widen(text, os[0], position).end;
    forall i | 0 <= i < |rest| ensures end <= rest[i].start < rest[i].end && IsMarker(text, rest[i]) {
      assert rest[i] == os[i + 1] && IsMarker(text, os[i + 1]);
      assert text[rest[i].start] == OPEN_BRACKET;
    }
  }

  /** What the loop of `stripUnreadMarkers` cuts out, left to right. */
  ghost function Cuts(text: Text, os: seq<Occurrence>, position: nat): seq<Range>
    requires MarkersOf(text, os, position)
  {
    if os == [] then []
    else
      NextMarkerIsFarther(text, os, position);
      var cut := Widen(text, os[0], position);
      [cut] + Cuts(text, os[1..], cut.end)
  }

  ghost predicate CutsApart(text: Text, cuts: seq<Range>, start: nat) {
    && (forall i :: 0 <= i < |cuts| ==> start <= cuts[i].start < cuts[i].end <= |text|)
    && (forall i, j :: 0 <= i < j < |cuts| ==> cuts[i].end <= cuts[j].start)
  }

  /** The text minus the cuts. */
  ghost function Without(text: Text, cuts: seq<Range>, position: nat): Text
    requires position <= |text| && CutsApart(text, cuts, position)
  {
    if cuts == [] then text[position..]
    else text[position..cuts[0].start] + Without(text, cuts[1..], cuts[0].end)
  }

  /** A cut is its marker plus at most one whitespace unit, before or after. */
  predicate CutFits(text: Text, cut: Range, o: Occurrence)
    requires o.start < o.end <= |text|
  {
    || cut == Range(o.start, o.end)
    || (o.start > 0 && cut == Range(o.start - 1, o.end) && IsSpace(text[o.start - 1]))
    || (cut == Range(o.start, o.end + 1) && o.end < |text| && IsSpace(text[o.end]))
  }

  lemma {:induction false} CutsFit(text: Text, os: seq<Occurrence>, position: nat)
    requires MarkersOf(text, os, position) && position <= |text|
    ensures |Cuts(text, os, position)| == |os|
    ensures CutsApart(text, Cuts(text, os, position), position)
    ensures forall i :: 0 <= i < |os| ==> os[i].end <= |text| && CutFits(text, Cuts(text, os, position)[i], os[i])
  {
    if os != [] {
      NextMarkerIsFarther(text, os, position);
      var cut := Widen(text, os[0], position);
      CutsFit(text, os[1..], cut.end);
      var cuts := Cuts(text, os, position);
      assert cuts == [cut] + Cuts(text, os[1..], cut.end);
      forall i | 0 <= i < |os| ensures os[i].end <= |text| && CutFits(text, cuts[i], os[i]) {
        if i > 0 { assert os[i] == os[1..][i - 1]; }
      }
    }
  }

  lemma TailOfMarkers(text: Text, os: seq<Occurrence>, start: nat)
    requires MarkersOf(text, os, start) && os != []
    ensures MarkersOf(text, os[1..], os[0].end)
    ensures forall i :: 1 <= i < |os| ==> os[0].end <= os[i].start
  {
    forall i | 0 <= i < |os[1..]| ensures os[0].end <= os[1..][i].start < os[1..][i].end && IsMarker(text, os[1..][i]) {
      assert os[1..][i] == os[i + 1] && IsMarker(text, os[i + 1]);
    }
  }

  lemma ConsMarkers(text: Text, o: Occurrence, rest: seq<Occurrence>, start: nat)
    requires IsMarker(text, o) && start <= o.start && MarkersOf(text, rest, o.end)
    ensures MarkersOf(text, [o] + rest, start)
  {
    var os := [o] + rest;
    forall i | 0 <= i < |os| ensures start <= os[i].start < os[i].end && IsMarker(text, os[i]) {
      if i > 0 { assert os[i] == rest[i - 1] && IsMarker(text, rest[i - 1]); }
    }
  }

  lemma {:induction false} UnreadAreMarkers(text: Text, os: seq<Occurrence>, valid: set<nat>, start: nat)
    requires MarkersOf(text, os, start)
    ensures MarkersOf(text, Unread(os, valid), start)
  {
    if os != [] {
      TailOfMarkers(text, os, start);
      assert IsMarker(text, os[0]);
      UnreadAreMarkers(text, os[1..], valid, os[0].end);
      if os[0].id !in valid {
        ConsMarkers(text, os[0], Unread(os[1..], valid), start);
      }
    }
  }

  lemma {:induction false} UnreadAreUnregistered(os: seq<Occurrence>, valid: set<nat>, i: nat)
    requires i < |Unread(os, valid)|
    ensures Unread(os, valid)[i].id !in valid && Unread(os, valid)[i] in os
  {
    if os[0].id in valid {
      UnreadAreUnregistered(os[1..], valid, i);
    } else if i > 0 {
      UnreadAreUnregistered(os[1..], valid, i - 1);
    }
  }

  ghost function CutsOf(text: Text, os: seq<Occurrence>, valid: set<nat>): (cuts: seq<Range>)
    requires MarkersOf(text, os, 0)
    ensures CutsApart(text, cuts, 0)
    ensures |cuts| == |Unread(os, valid)|
  {
    UnreadAreMarkers(text, os, valid, 0);
    CutsFit(text, Unread(os, valid), 0);
    Cuts(text, Unread(os, valid), 0)
  }

  /** The markers the source finds: outside code, in order, and literally in the text. */
  lemma FoundMarkersAreReal(text: Text)
    ensures MarkersOf(text, Markers(Visible(text), 0), 0)
    ensures forall i, k ::
      0 <= i < |Markers(Visible(text), 0)| && Markers(Visible(text), 0)[i].start <= k < Markers(Visible(text), 0)[i].end
      ==> k < |text| && !InCode(text, None)[k]
  {
    var os := Markers(Visible(text), 0);
    MarkersAreMarkers(Visible(text), 0);
    forall i | 0 <= i < |os|
      ensures IsMarker(text, os[i])
      ensures forall k :: os[i].start <= k < os[i].end ==> !InCode(text, None)[k]
    {
      VisibleMarkersAreReal(text, os[i]);
    }
  }

  lemma {:induction false} UnreadAreAll(os: seq<Occurrence>, valid: set<nat>, o: Occurrence)
    ensures o in Unread(os, valid) <==> o in os && o.id !in valid
  {
    if os != [] {
      UnreadAreAll(os[1..], valid, o);
      assert os == [os[0]] + os[1..];
    }
  }

  /** Cut `i` takes `o` out, with the white space unit before it unless the cut before took that
    * already, and otherwise with the one after it. */
  ghost predicate CutsOut(text: Text, cuts: seq<Range>, i: nat, o: Occurrence)
    requires i < |cuts|
  {
    && o.start < o.end <= |text|
    && var gone := if i == 0 then 0 else cuts[i - 1].end;
       cuts[i] == if o.start > gone && IsSpace(text[o.start - 1]) then Range(o.start - 1, o.end)
                  else if o.end < |text| && IsSpace(text[o.end]) then Range(o.start, o.end + 1)
                  else Range(o.start, o.end)
  }

  ghost predicate IsCut(text: Text, cuts: seq<Range>, o: Occurrence) {
    exists i: nat :: i < |cuts| && CutsOut(text, cuts, i, o)
  }

  ghost predicate CutsCitation(text: Text, valid: set<nat>, cuts: seq<Range>, i: nat)
    requires i < |cuts|
  {
    exists o :: IsCitation(Visible(text), o) && o.id !in valid && CutsOut(text, cuts, i, o)
  }

  /** The cuts take out every visible citation whose number is not valid, and nothing else. */
  ghost predicate CutsUnread(text: Text, valid: set<nat>, cuts: seq<Range>) {
    && CutsApart(text, cuts, 0)
    && (forall o :: IsCitation(Visible(text), o) && o.id !in valid ==> IsCut(text, cuts, o))
    && (forall i: nat :: i < |cuts| ==> CutsCitation(text, valid, cuts, i))
  }

  lemma {:induction false} CutsWiden(text: Text, os: seq<Occurrence>, position: nat, i: nat)
    requires MarkersOf(text, os, position) && position <= |text| && i < |os|
    ensures var cuts := Cuts(text, os, position);
            && |cuts| == |os|
            && var gone := if i == 0 then position else cuts[i - 1].end;
               gone <= os[i].start <= os[i].end <= |text| && cuts[i] == Widen(text, os[i], gone)
  {
    NextMarkerIsFarther(text, os, position);
    CutsFit(text, os, position);
    if i > 0 { CutsWiden(text, os[1..], Widen(text, os[0], position).end, i - 1); }
  }

  lemma CutsTakeOut(text: Text, os: seq<Occurrence>, i: nat)
    requires MarkersOf(text, os, 0) && i < |os|
    ensures i < |Cuts(text, os, 0)| && CutsOut(text, Cuts(text, os, 0), i, os[i])
  {
    CutsWiden(text, os, 0, i);
    assert os[i].start < os[i].end;
  }

  lemma CutsAreUnread(text: Text, valid: set<nat>)
    requires MarkersOf(text, Markers(Visible(text), 0), 0)
    ensures CutsUnread(text, valid, CutsOf(text, Markers(Visible(text), 0), valid))
  {
    var os := Markers(Visible(text), 0);
    var unread, cuts := Unread(os, valid), CutsOf(text, os, valid);
    UnreadAreMarkers(text, os, valid, 0);
    forall o | IsCitation(Visible(text), o) && o.id !in valid ensures IsCut(text, cuts, o) {
      MarkersAreCitations(Visible(text), 0, o);
      UnreadAreAll(os, valid, o);
      var i :| 0 <= i < |unread| && unread[i] == o;
      CutsTakeOut(text, unread, i);
    }
    forall i: nat | i < |cuts| ensures CutsCitation(text, valid, cuts, i) {
      UnreadAreAll(os, valid, unread[i]);
      MarkersAreCitations(Visible(text), 0, unread[i]);
      CutsTakeOut(text, unread, i);
    }
  }

  /** The text without its unread citations: all of them are cut out, and nothing but them and
    * the white space unit beside each. */
  method StripUnreadMarkers(text: Text, valid: set<nat>) returns (rewritten: Text, ghost cuts: seq<Range>)
    ensures MarkersOf(text, Markers(Visible(text), 0), 0) && cuts == CutsOf(text, Markers(Visible(text), 0), valid)
    ensures CutsUnread(text, valid, cuts)
    ensures rewritten == Without(text, cuts, 0)
    ensures forall o :: IsCitation(Visible(text), o) && o.id !in valid ==>
              exists i :: 0 <= i < |cuts| && cuts[i].start <= o.start < o.end <= cuts[i].end
  {
    FoundMarkersAreReal(text);
    CutsAreUnread(text, valid);
    var found := Markers(Visible(text), 0);
    cuts := CutsOf(text, found, valid);
    rewritten := CutOut(text, found, valid);
    forall o | IsCitation(Visible(text), o) && o.id !in valid
      ensures exists i :: 0 <= i < |cuts| && cuts[i].start <= o.start < o.end <= cuts[i].end
    {
      var i: nat :| i < |cuts| && CutsOut(text, cuts, i, o);
    }
  }

  /** One turn of the rewriting loop. */
  lemma OneCut(text: Text, os: seq<Occurrence>, position: nat)
    requires MarkersOf(text, os, position) && os != [] && position <= |text|
    ensures IsMarker(text, os[0]) && position <= os[0].start
    ensures var cut := Widen(text, os[0], position);
            && position <= cut.start <= cut.end <= |text| && MarkersOf(text, os[1..], cut.end)
            && CutsApart(text, Cuts(text, os, position), position)
            && CutsApart(text, Cuts(text, os[1..], cut.end), cut.end)
            && Without(text, Cuts(text, os, position), position)
               == text[position..cut.start] + Without(text, Cuts(text, os[1..], cut.end), cut.end)
  {
    NextMarkerIsFarther(text, os, position);
    var cut := Widen(text, os[0], position);
    CutsFit(text, os, position);
    CutsFit(text, os[1..], cut.end);
    var rest := Cuts(text, os[1..], cut.end);
    assert Cuts(text, os, position) == [cut] + rest;
    assert ([cut] + rest)[1..] == rest;
  }

  /** The rewriting loop, over the markers that were found. */
  method CutOut(text: Text, found: seq<Occurrence>, valid: set<nat>) returns (rewritten: Text)
    requires MarkersOf(text, found, 0)
    ensures rewritten == Without(text, CutsOf(text, found, valid), 0)
  {
    var unread := Unread(found, valid);
    UnreadAreMarkers(text, found, valid, 0);
    CutsFit(text, unread, 0);
    rewritten := [];
    var position: nat, i: nat := 0, 0;
    ghost var goal := Without(text, CutsOf(text, found, valid), 0);
    ghost var left := unread;
    while i < |unread|
      invariant i <= |unread| && position <= |text| && left == unread[i..]
      invariant MarkersOf(text, left, position) && CutsApart(text, Cuts(text, left, position), position)
      invariant rewritten + Without(text, Cuts(text, left, position), position) == goal
    {
      OneCut(text, left, position);
      var cut := Widen(text, unread[i], position);
      Reassociate(rewritten, text[position..cut.start], Without(text, Cuts(text, left[1..], cut.end), cut.end));
      rewritten := rewritten + text[position..cut.start];
      position := cut.end;
      i := i + 1;
      left := left[1..];
    }
    rewritten := rewritten + text[position..];
  }

  // ---------- what stripping promises ----------

  /** Every cut removes one marker whose id is not registered, with at most one unit of
    * whitespace beside it; the cuts are in order and apart. */
  lemma CutsAreUnreadMarkers(text: Text, os: seq<Occurrence>, valid: set<nat>, i: nat)
    requires MarkersOf(text, os, 0) && i < |CutsOf(text, os, valid)|
    ensures var o := Unread(os, valid)[i];
            && IsMarker(text, o) && o.id !in valid && o in os
            && CutFits(text, CutsOf(text, os, valid)[i], o)
  {
    UnreadAreMarkers(text, os, valid, 0);
    CutsFit(text, Unread(os, valid), 0);
    UnreadAreUnregistered(os, valid, i);
    assert IsMarker(text, Unread(os, valid)[i]);
  }

  lemma FittingCutSpares(text: Text, cut: Range, u: Occurrence, o: Occurrence)
    requires IsMarker(text, u) && IsMarker(text, o) && CutFits(text, cut, u)
    requires u.end <= o.start || o.end <= u.start
    ensures cut.end <= o.start || o.end <= cut.start
  {
    assert text[o.start] == OPEN_BRACKET && text[o.end - 1] == CLOSE_BRACKET;
  }

  /** No cut touches a marker whose id is registered. */
  lemma ReadMarkersAreSpared(text: Text, os: seq<Occurrence>, valid: set<nat>, b: nat, i: nat)
    requires MarkersOf(text, os, 0) && b < |os| && os[b].id in valid && i < |CutsOf(text, os, valid)|
    ensures CutsOf(text, os, valid)[i].end <= os[b].start || os[b].end <= CutsOf(text, os, valid)[i].start
  {
    CutsAreUnreadMarkers(text, os, valid, i);
    var u := Unread(os, valid)[i];
    var a :| 0 <= a < |os| && os[a] == u;
    assert IsMarker(text, os[b]);
    FittingCutSpares(text, CutsOf(text, os, valid)[i], u, os[b]);
  }

  lemma SliceOfTail(a: Text, b: Text, k: nat, size: nat)
    requires k + size <= |b|
    ensures (a + b)[|a| + k..|a| + k + size] == b[k..k + size]
  {
  }

  lemma SliceOfHead(a: Text, b: Text, k: nat, size: nat)
    requires k + size <= |a|
    ensures (a + b)[k..k + size] == a[k..k + size]
  {
  }

  lemma SliceOfSlice(a: Text, i: nat, j: nat, start: nat, end: nat)
    requires i <= start <= end <= j <= |a|
    ensures a[i..j][start - i..end - i] == a[start..end]
  {
    var inner := a[i..j];
    forall k | 0 <= k < end - start ensures inner[start - i..end - i][k] == a[start..end][k] {
      assert inner[start - i + k] == a[start + k];
    }
  }

  lemma AppearsBehind(head: Text, rest: Text, k: nat, piece: Text)
    requires k + |piece| <= |rest| && rest[k..k + |piece|] == piece
    ensures |head| + k + |piece| <= |head + rest| && (head + rest)[|head| + k..|head| + k + |piece|] == piece
  {
    SliceOfTail(head, rest, k, |piece|);
  }

  lemma AppearsBefore(text: Text, position: nat, cut: nat, rest: Text, start: nat, end: nat)
    requires position <= start <= end <= cut <= |text|
    ensures end - position <= |text[position..cut] + rest|
    ensures (text[position..cut] + rest)[start - position..end - position] == text[start..end]
  {
    SliceOfHead(text[position..cut], rest, start - position, end - start);
    SliceOfSlice(text, position, cut, start, end);
  }

  lemma WithoutUnfolds(text: Text, cuts: seq<Range>, position: nat)
    requires position <= |text| && CutsApart(text, cuts, position) && cuts != []
    ensures position <= cuts[0].start < cuts[0].end <= |text| && CutsApart(text, cuts[1..], cuts[0].end)
    ensures Without(text, cuts, position) == text[position..cuts[0].start] + Without(text, cuts[1..], cuts[0].end)
  {
  }

  lemma {:induction false} SparedAppears(text: Text, cuts: seq<Range>, position: nat, start: nat, end: nat) returns (k: nat)
    requires position <= start <= end <= |text| && CutsApart(text, cuts, position)
    requires forall i :: 0 <= i < |cuts| ==> cuts[i].end <= start || end <= cuts[i].start
    ensures k + (end - start) <= |Without(text, cuts, position)|
    ensures Without(text, cuts, position)[k..k + (end - start)] == text[start..end]
  {
    k := start - position;
    if cuts == [] {
      SliceOfSlice(text, position, |text|, start, end);
    } else {
      WithoutUnfolds(text, cuts, position);
      var head, rest := text[position..cuts[0].start], Without(text, cuts[1..], cuts[0].end);
      if end <= cuts[0].start {
        AppearsBefore(text, position, cuts[0].start, rest, start, end);
      } else {
        var inner := SparedAppears(text, cuts[1..], cuts[0].end, start, end);
        AppearsBehind(head, rest, inner, text[start..end]);
        k := |head| + inner;
      }
    }
  }

  /** Every marker with a registered id is still in the output, unit for unit. */
  lemma ReadMarkersSurvive(text: Text, os: seq<Occurrence>, valid: set<nat>, b: nat) returns (k: nat)
    requires MarkersOf(text, os, 0) && b < |os| && os[b].id in valid
    ensures os[b].start <= os[b].end <= |text|
    ensures var out, size := Without(text, CutsOf(text, os, valid), 0), os[b].end - os[b].start;
            k + size <= |out| && out[k..k + size] == text[os[b].start..os[b].end]
  {
    assert IsMarker(text, os[b]);
    forall i | 0 <= i < |CutsOf(text, os, valid)|
      ensures CutsOf(text, os, valid)[i].end <= os[b].start || os[b].end <= CutsOf(text, os, valid)[i].start
    {
      ReadMarkersAreSpared(text, os, valid, b, i);
    }
    k := SparedAppears(text, CutsOf(text, os, valid), 0, os[b].start, os[b].end);
  }

  function CutTotal(cuts: seq<Range>): int {
    if cuts == [] then 0 else cuts[0].end - cuts[0].start + CutTotal(cuts[1..])
  }

  /** Nothing but the cuts is missing from the output. */
  lemma {:induction false} OnlyCutsAreMissing(text: Text, cuts: seq<Range>, position: nat)
    requires position <= |text| && CutsApart(text, cuts, position)
    ensures |Without(text, cuts, position)| == |text| - position - CutTotal(cuts)
  {
    if cuts != [] { OnlyCutsAreMissing(text, cuts[1..], cuts[0].end); }
  }
}

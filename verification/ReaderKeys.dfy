/** The texts the document reader uses as keys: `JSON.stringify([doc, mode, query])`, and the
  * prefix by which a write finds the keys of its document. */
module ReaderKeys {
  import opened Documents
  import Citations

  const QUOTE := 34
  const COMMA := 44
  const OPEN := 91
  const BACKSLASH := 92
  const CLOSE := 93

  function Hex(n: int): int
    requires 0 <= n < 16
  {
    if n < 10 then 48 + n else 87 + n
  }

  /** One UTF-16 unit inside a JSON string (section 25.5.2.3 of ECMA-262). */
  function Escape(u: int): (t: Text)
    ensures t != [] && t[0] != QUOTE
  {
    if u == QUOTE || u == BACKSLASH then [BACKSLASH, u]
    else if u == 8 then [BACKSLASH, 98]
    else if u == 9 then [BACKSLASH, 116]
    else if u == 10 then [BACKSLASH, 110]
    else if u == 12 then [BACKSLASH, 102]
    else if u == 13 then [BACKSLASH, 114]
    else if 0 <= u < 32 then [BACKSLASH, 117, 48, 48, Hex(u / 16), Hex(u % 16)]
    else [u]
  }

  /** A string without its opening quote. */
  function Quoted(t: Text): Text { if t == [] then [QUOTE] else Escape(t[0]) + Quoted(t[1..]) }

  lemma HexDiffers(a: int, b: int)
    requires 0 <= a < 16 && 0 <= b < 16 && Hex(a) == Hex(b)
    ensures a == b
  {
  }

  lemma EscapeIsCode(u: int, v: int, s: Text, t: Text)
    requires Escape(u) + s == Escape(v) + t
    ensures u == v && s == t
  {
    var left, right := Escape(u) + s, Escape(v) + t;
    assert left[0] == Escape(u)[0] && right[0] == Escape(v)[0];
    if Escape(u)[0] == BACKSLASH {
      assert left[1] == Escape(u)[1] && right[1] == Escape(v)[1];
      if Escape(u)[1] == 117 {
        assert left[4] == Hex(u / 16) && right[4] == Hex(v / 16);
        assert left[5] == Hex(u % 16) && right[5] == Hex(v % 16);
        HexDiffers(u / 16, v / 16);
        HexDiffers(u % 16, v % 16);
      }
    }
    assert s == left[|Escape(u)|..] && t == right[|Escape(v)|..];
  }

  lemma QuotedUnfolds(t: Text, s: Text)
    ensures (Quoted(t) + s)[0] == QUOTE <==> t == []
    ensures t == [] ==> Quoted(t) + s == [QUOTE] + s
    ensures t != [] ==> Quoted(t) + s == Escape(t[0]) + (Quoted(t[1..]) + s)
  {
    assert (Quoted(t) + s)[0] == Quoted(t)[0];
    if t != [] { Citations.Reassociate(Escape(t[0]), Quoted(t[1..]), s); }
  }

  lemma {:induction false} QuotedIsCode(a: Text, b: Text, s: Text, t: Text)
    requires Quoted(a) + s == Quoted(b) + t
    ensures a == b && s == t
    decreases |a|
  {
    QuotedUnfolds(a, s);
    QuotedUnfolds(b, t);
    if a == [] {
      assert s == ([QUOTE] + s)[1..] && t == ([QUOTE] + t)[1..];
    } else {
      EscapeIsCode(a[0], b[0], Quoted(a[1..]) + s, Quoted(b[1..]) + t);
      QuotedIsCode(a[1..], b[1..], s, t);
      assert a == [a[0]] + a[1..] && b == [b[0]] + b[1..];
    }
  }

  function ModeText(mode: Mode): Text {
    if mode.Full? then [102, 117, 108, 108] else [114, 101, 108, 101, 118, 97, 110, 116]
  }

  function QueryEnd(query: Text): Text { [COMMA, QUOTE] + (Quoted(query) + [CLOSE]) }

  function ModeEnd(mode: Mode, query: Text): Text { [COMMA, QUOTE] + (Quoted(ModeText(mode)) + QueryEnd(query)) }

  function KeyText(doc: Text, mode: Mode, query: Text): Text { [OPEN, QUOTE] + (Quoted(doc) + ModeEnd(mode, query)) }

  lemma Behind(head: Text, a: Text, b: Text)
    requires head + a == head + b
    ensures a == b
  {
    assert a == (head + a)[|head|..] && b == (head + b)[|head|..];
  }

  /** Two reads share cached pages and cursors only if they agree on document, mode and query. */
  lemma KeyTextsDiffer(doc: Text, mode: Mode, query: Text, doc': Text, mode': Mode, query': Text)
    requires KeyText(doc, mode, query) == KeyText(doc', mode', query')
    ensures doc == doc' && mode == mode' && query == query'
  {
    Behind([OPEN, QUOTE], Quoted(doc) + ModeEnd(mode, query), Quoted(doc') + ModeEnd(mode', query'));
    QuotedIsCode(doc, doc', ModeEnd(mode, query), ModeEnd(mode', query'));
    Behind([COMMA, QUOTE], Quoted(ModeText(mode)) + QueryEnd(query), Quoted(ModeText(mode')) + QueryEnd(query'));
    QuotedIsCode(ModeText(mode), ModeText(mode'), QueryEnd(query), QueryEnd(query'));
    Behind([COMMA, QUOTE], Quoted(query) + [CLOSE], Quoted(query') + [CLOSE]);
    QuotedIsCode(query, query', [CLOSE], [CLOSE]);
    assert |ModeText(mode)| == |ModeText(mode')|;
  }

  /** What the schema of the tool admits as a document: letters, digits, `_` and `-`. */
  predicate Token(doc: Text) {
    forall i :: 0 <= i < |doc| ==>
      48 <= doc[i] <= 57 || 65 <= doc[i] <= 90 || 97 <= doc[i] <= 122 || doc[i] == 95 || doc[i] == 45
  }

  /** The prefix is built from the document as it is, not as JSON writes it. */
  function Prefix(doc: Text): Text { [OPEN, QUOTE] + (doc + [QUOTE, COMMA]) }

  lemma {:induction false} TokensNeedNoEscape(doc: Text)
    requires Token(doc)
    ensures Quoted(doc) == doc + [QUOTE]
  {
    if doc != [] {
      TokensNeedNoEscape(doc[1..]);
      assert doc == [doc[0]] + doc[1..];
    }
  }

  lemma PrefixReads(doc: Text, rest: Text)
    requires Quoted(doc) == doc + [QUOTE]
    ensures Prefix(doc) + rest == [OPEN, QUOTE] + (Quoted(doc) + ([COMMA] + rest))
  {
  }

  lemma PrefixIsOfOneDocument(doc: Text, other: Text, mode: Mode, query: Text)
    requires Token(doc) && Prefix(doc) <= KeyText(other, mode, query)
    ensures other == doc
  {
    TokensNeedNoEscape(doc);
    var rest := KeyText(other, mode, query)[|Prefix(doc)|..];
    PrefixReads(doc, rest);
    assert Prefix(doc) + rest == KeyText(other, mode, query);
    SameDocument(doc, [COMMA] + rest, other, ModeEnd(mode, query));
  }

  lemma SameDocument(a: Text, s: Text, b: Text, t: Text)
    requires [OPEN, QUOTE] + (Quoted(a) + s) == [OPEN, QUOTE] + (Quoted(b) + t)
    ensures a == b
  {
    Behind([OPEN, QUOTE], Quoted(a) + s, Quoted(b) + t);
    QuotedIsCode(a, b, s, t);
  }

  lemma PrefixOfOwnKey(doc: Text, mode: Mode, query: Text)
    requires Quoted(doc) == doc + [QUOTE]
    ensures Prefix(doc) <= KeyText(doc, mode, query)
  {
    var rest := ModeEnd(mode, query)[1..];
    PrefixReads(doc, rest);
    assert ModeEnd(mode, query) == [COMMA] + rest;
    assert KeyText(doc, mode, query) == Prefix(doc) + rest;
  }

  /** A write to one document finds every key of that document and no other key. */
  lemma PrefixFindsItsDocument(doc: Text, other: Text, mode: Mode, query: Text)
    requires Token(doc)
    ensures Prefix(doc) <= KeyText(other, mode, query) <==> other == doc
  {
    TokensNeedNoEscape(doc);
    PrefixOfOwnKey(doc, mode, query);
    if Prefix(doc) <= KeyText(other, mode, query) { PrefixIsOfOneDocument(doc, other, mode, query); }
  }

  predicate NeedsNoEscape(t: Text) { forall i :: 0 <= i < |t| ==> Escape(t[i]) == [t[i]] }

  function Backslashes(n: nat): Text { seq(n, _ => BACKSLASH) }

  lemma SameHead(x: int, a: Text, b: Text)
    ensures [x] + a <= [x] + b <==> a <= b
  {
    assert ([x] + a)[1..] == a && ([x] + b)[1..] == b;
    if a <= b { assert [x] + b == [x] + a + b[|a|..]; }
  }

  lemma {:induction false} OneBackslashTooMany(t: Text, n: nat, rest: Text)
    requires n >= 1
    ensures !(t + [QUOTE] <= Backslashes(n) + (Quoted(t) + rest))
  {
    var left, right := t + [QUOTE], Backslashes(n) + (Quoted(t) + rest);
    assert right[0] == BACKSLASH;
    if t != [] && t[0] == BACKSLASH {
      var tail := Quoted(t[1..]) + rest;
      OneBackslashTooMany(t[1..], n + 1, rest);
      SameHead(BACKSLASH, t[1..] + [QUOTE], Backslashes(n + 1) + tail);
      assert left == [BACKSLASH] + (t[1..] + [QUOTE]);
      ShiftBackslash(n, tail);
      assert Quoted(t) + rest == [BACKSLASH, BACKSLASH] + tail;
    } else {
      assert left[0] != right[0];
    }
  }

  lemma ShiftBackslash(n: nat, tail: Text)
    ensures Backslashes(n) + ([BACKSLASH, BACKSLASH] + tail) == [BACKSLASH] + (Backslashes(n + 1) + tail)
  {
  }

  lemma {:induction false} OnlyPlainTextIsPrefix(t: Text, rest: Text)
    requires t + [QUOTE] <= Quoted(t) + rest
    ensures NeedsNoEscape(t)
  {
    if t != [] {
      var left, right, tail := t + [QUOTE], Quoted(t) + rest, Quoted(t[1..]) + rest;
      assert left == [t[0]] + (t[1..] + [QUOTE]);
      assert right == Escape(t[0]) + tail;
      assert left[0] == right[0];
      if Escape(t[0]) == [t[0]] {
        SameHead(t[0], t[1..] + [QUOTE], tail);
        OnlyPlainTextIsPrefix(t[1..], rest);
        assert forall i :: 0 < i < |t| ==> t[i] == t[1..][i - 1];
      } else {
        assert right == [BACKSLASH] + (Backslashes(1) + tail);
        SameHead(BACKSLASH, t[1..] + [QUOTE], Backslashes(1) + tail);
        OneBackslashTooMany(t[1..], 1, rest);
      }
    }
  }

  lemma {:induction false} PlainTextIsItself(t: Text)
    requires NeedsNoEscape(t)
    ensures Quoted(t) == t + [QUOTE]
  {
    if t != [] {
      PlainTextIsItself(t[1..]);
      assert t == [t[0]] + t[1..];
    }
  }

  /** Beyond the schema: a write finds the keys of its own document if and only if JSON
    * writes the document as it is. */
  lemma PrefixFindsPlainDocuments(doc: Text, mode: Mode, query: Text)
    ensures Prefix(doc) <= KeyText(doc, mode, query) <==> NeedsNoEscape(doc)
  {
    if NeedsNoEscape(doc) {
      PlainTextIsItself(doc);
      PrefixOfOwnKey(doc, mode, query);
    } else if Prefix(doc) <= KeyText(doc, mode, query) {
      OwnPrefixIsPlain(doc, mode, query);
    }
  }

  lemma OwnPrefixIsPlain(doc: Text, mode: Mode, query: Text)
    requires Prefix(doc) <= KeyText(doc, mode, query)
    ensures NeedsNoEscape(doc)
  {
    var key := KeyText(doc, mode, query);
    assert Prefix(doc)[2..] == doc + [QUOTE, COMMA] && key[2..] == Quoted(doc) + ModeEnd(mode, query);
    assert doc + [QUOTE] == Prefix(doc)[2..][..|doc| + 1];
    OnlyPlainTextIsPrefix(doc, ModeEnd(mode, query));
  }
}

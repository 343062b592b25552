/** Reading a document in bounded pages: sections, their order, pages and cursors. */
module Documents {
  import opened Records
  import C = Citations

  type Text = seq<int>

  const PAGE_UNITS := 12_000
  const HASH := 35

  function Flatten(parts: seq<Text>): Text {
    if parts == [] then [] else parts[0] + Flatten(parts[1..])
  }

  lemma FlattenOne(part: Text)
    ensures Flatten([part]) == part
  {
    assert Flatten([part]) == part + Flatten([]);
  }

  lemma {:induction false} FlattenAppend(parts: seq<Text>, more: seq<Text>)
    ensures Flatten(parts + more) == Flatten(parts) + Flatten(more)
  {
    if parts == [] {
      assert parts + more == more;
    } else {
      assert (parts + more)[1..] == parts[1..] + more;
      FlattenAppend(parts[1..], more);
    }
  }

  // ---------- pages ----------

  /** Plain chunking: full pages and one last page; an empty text has one empty page. */
  function Chunks(t: Text): (pages: seq<Text>)
    ensures |pages| >= 1
  {
    if |t| <= PAGE_UNITS then [t] else [t[..PAGE_UNITS]] + Chunks(t[PAGE_UNITS..])
  }

  lemma {:induction false} ChunksRebuild(t: Text)
    ensures Flatten(Chunks(t)) == t
    ensures forall i :: 0 <= i < |Chunks(t)| - 1 ==> |Chunks(t)[i]| == 12_000
    ensures |Chunks(t)[|Chunks(t)| - 1]| <= 12_000
    ensures t != [] ==> Chunks(t)[|Chunks(t)| - 1] != []
  {
    if |t| <= PAGE_UNITS {
      FlattenOne(t);
    } else {
      ChunksRebuild(t[PAGE_UNITS..]);
      var rest := Chunks(t[PAGE_UNITS..]);
      assert Chunks(t) == [t[..PAGE_UNITS]] + rest;
      assert ([t[..PAGE_UNITS]] + rest)[1..] == rest;
    }
  }

  ghost predicate AllFull(pages: seq<Text>) { forall i :: 0 <= i < |pages| ==> |pages[i]| == PAGE_UNITS }

  lemma {:induction false} FullPagesAreChunks(pages: seq<Text>, last: Text)
    requires AllFull(pages) && 0 < |last| <= PAGE_UNITS
    ensures Chunks(Flatten(pages) + last) == pages + [last]
  {
    var t := Flatten(pages) + last;
    if pages == [] {
      assert t == last;
    } else {
      assert t == pages[0] + (Flatten(pages[1..]) + last);
      assert t[..PAGE_UNITS] == pages[0] && t[PAGE_UNITS..] == Flatten(pages[1..]) + last;
      FullPagesAreChunks(pages[1..], last);
      assert pages + [last] == [pages[0]] + (pages[1..] + [last]);
    }
  }

  /** The meeting tool's `paginate`. */
  method PaginateText(text: Text) returns (pages: seq<Text>)
    ensures pages == Chunks(text)
  {
    pages := [];
    var index := 0;
    while index < |text|
      invariant AllFull(pages) || index >= |text|
      invariant index >= |text| && text != [] ==> pages == Chunks(text)
      invariant index < |text| ==> Flatten(pages) == text[..index]
      invariant text == [] ==> pages == []
    {
      var end := Min(index + PAGE_UNITS, |text|);
      var page := text[index..end];
      if end == |text| {
        assert text == Flatten(pages) + page;
        FullPagesAreChunks(pages, page);
        assert pages + [page] == Chunks(text);
      } else {
        FlattenAppend(pages, [page]);
        FlattenOne(page);
        assert text[..end] == text[..index] + page;
      }
      pages := pages + [page];
      index := index + PAGE_UNITS;
    }
    if |pages| == 0 { pages := [[]]; }
  }

  /** The document tool's `paginate`: sections are poured into pages one after the other. */
  method PaginateSections(sections: seq<Text>) returns (pages: seq<Text>)
    ensures pages == Chunks(Flatten(sections))
  {
    pages := [];
    var page: Text := [];
    var i := 0;
    while i < |sections|
      invariant i <= |sections| && AllFull(pages) && |page| < PAGE_UNITS
      invariant Flatten(pages) + page == Flatten(sections[..i])
    {
      var remaining := sections[i];
      while |remaining| > 0
        invariant AllFull(pages) && |page| < PAGE_UNITS
        invariant Flatten(pages) + page + remaining == Flatten(sections[..i]) + sections[i]
      {
        var take := Min(PAGE_UNITS - |page|, |remaining|);
        ghost var before := Flatten(pages) + page + remaining;
        page := page + remaining[..take];
        remaining := remaining[take..];
        assert Flatten(pages) + page + remaining == before;
        if |page| == PAGE_UNITS {
          FlattenAppend(pages, [page]);
          FlattenOne(page);
          pages := pages + [page];
          page := [];
        }
      }
      assert sections[..i + 1] == sections[..i] + [sections[i]];
      FlattenAppend(sections[..i], [sections[i]]);
      FlattenOne(sections[i]);
      assert Flatten(pages) + page == Flatten(pages) + page + remaining;
      i := i + 1;
    }
    assert sections[..i] == sections;
    if page != [] {
      FullPagesAreChunks(pages, page);
      pages := pages + [page];
    } else if pages != [] {
      var front, last := pages[..|pages| - 1], pages[|pages| - 1];
      FlattenAppend(front, [last]);
      FlattenOne(last);
      assert pages == front + [last] && Flatten(pages) + page == Flatten(pages);
      FullPagesAreChunks(front, last);
    } else {
      assert Flatten(sections) == [];
      pages := [[]];
    }
  }

  // ---------- sections ----------

  /** A heading starts here: at the start of a line, one to six hashes and whitespace. */
  predicate HeadingAt(t: Text, i: nat)
    requires i <= |t|
  {
    var hashes := C.RunLength(t, i, HASH);
    && (i == 0 || C.IsTerminator(t[i - 1]))
    && 1 <= hashes <= 6 && i + hashes < |t| && C.IsSpace(t[i + hashes])
  }

  function NextHeading(t: Text, i: nat): (j: nat)
    requires i <= |t|
    ensures i <= j <= |t|
    ensures j < |t| ==> HeadingAt(t, j)
    ensures forall k :: i <= k < j ==> !HeadingAt(t, k)
    decreases |t| - i
  {
    if i == |t| || HeadingAt(t, i) then i else NextHeading(t, i + 1)
  }

  function SectionsFrom(t: Text, start: nat): (sections: seq<Text>)
    requires start < |t|
    ensures |sections| >= 1
    decreases |t| - start
  {
    var next := NextHeading(t, start + 1);
    if next == |t| then [t[start..]] else [t[start..next]] + SectionsFrom(t, next)
  }

  function SplitSections(t: Text): seq<Text> { if t == [] then [t] else SectionsFrom(t, 0) }

  lemma {:induction false} SectionsRebuild(t: Text, start: nat)
    requires start < |t|
    ensures Flatten(SectionsFrom(t, start)) == t[start..]
    ensures forall i :: 0 <= i < |SectionsFrom(t, start)| ==> SectionsFrom(t, start)[i] != []
    decreases |t| - start
  {
    var next := NextHeading(t, start + 1);
    if next == |t| {
      FlattenOne(t[start..]);
    } else {
      SectionsRebuild(t, next);
      var rest := SectionsFrom(t, next);
      assert ([t[start..next]] + rest)[1..] == rest;
      assert t[start..] == t[start..next] + t[next..];
    }
  }

  /** Splitting loses nothing. */
  lemma SplitRebuilds(t: Text)
    ensures Flatten(SplitSections(t)) == t
  {
    if t == [] {
      FlattenOne(t);
    } else {
      SectionsRebuild(t, 0);
      assert t[0..] == t;
    }
  }

  /** A heading, written out: hashes at the start of a line, one to six of them, then white space. */
  ghost predicate HeadingLine(t: Text, i: nat) {
    i <= |t| && (i == 0 || C.IsTerminator(t[i - 1])) && exists n: nat :: Hashes(t, i, n)
  }

  predicate Hashes(t: Text, i: nat, n: nat) {
    1 <= n <= 6 && i + n < |t| && (forall k :: i <= k < i + n ==> t[k] == HASH) && C.IsSpace(t[i + n])
  }

  lemma HeadingIsLine(t: Text, i: nat)
    requires i <= |t|
    ensures HeadingAt(t, i) <==> HeadingLine(t, i)
  {
    C.RunIsMaximal(t, i, HASH);
    var hashes := C.RunLength(t, i, HASH);
    if HeadingAt(t, i) { assert Hashes(t, i, hashes); }
    if HeadingLine(t, i) {
      var n: nat :| Hashes(t, i, n);
      assert t[i + n] != HASH;
      assert n <= hashes;
    }
  }

  /** The offset at which section `k` starts, counted from `start`. */
  function Offset(sections: seq<Text>, start: nat, k: nat): nat
    requires k <= |sections|
  {
    start + |Flatten(sections[..k])|
  }

  lemma OffsetsShift(first: Text, rest: seq<Text>, start: nat, k: nat)
    requires k <= |rest|
    ensures Offset([first] + rest, start, k + 1) == Offset(rest, start + |first|, k)
  {
    assert ([first] + rest)[..k + 1] == [first] + rest[..k];
    FlattenOne(first);
    FlattenAppend([first], rest[..k]);
  }

  ghost predicate SectionStarts(sections: seq<Text>, start: nat, i: nat) {
    exists k :: 0 < k < |sections| && Offset(sections, start, k) == i
  }

  lemma {:induction false} SectionsStartAtHeadings(t: Text, start: nat, i: nat)
    requires start < i < |t|
    ensures HeadingLine(t, i) <==> SectionStarts(SectionsFrom(t, start), start, i)
    decreases |t| - start
  {
    var next := NextHeading(t, start + 1);
    HeadingIsLine(t, i);
    if next < |t| {
      var first, rest := t[start..next], SectionsFrom(t, next);
      assert SectionsFrom(t, start) == [first] + rest;
      forall k | 0 <= k < |rest| ensures Offset([first] + rest, start, k + 1) == Offset(rest, next, k) {
        OffsetsShift(first, rest, start, k);
      }
      assert Offset(rest, next, 0) == next;
      if next < i { SectionsStartAtHeadings(t, next, i); }
      LaterStarts(first, rest, start, next, i);
    }
  }

  lemma LaterStarts(first: Text, rest: seq<Text>, start: nat, next: nat, i: nat)
    requires rest != [] && next == start + |first| && start < i
    requires forall k :: 0 <= k < |rest| ==> Offset([first] + rest, start, k + 1) == Offset(rest, next, k)
    ensures SectionStarts([first] + rest, start, i) <==> i == next || (next < i && SectionStarts(rest, next, i))
  {
    var all := [first] + rest;
    assert Offset(rest, next, 0) == next;
    if SectionStarts(all, start, i) {
      var k :| 0 < k < |all| && Offset(all, start, k) == i;
      assert Offset(all, start, k - 1 + 1) == Offset(rest, next, k - 1);
    }
    if i == next { assert Offset(all, start, 0 + 1) == i; }
    if next < i && SectionStarts(rest, next, i) {
      var k :| 0 < k < |rest| && Offset(rest, next, k) == i;
      assert Offset(all, start, k + 1) == i;
    }
  }

  /** The text is split exactly at its headings. */
  lemma SplitsAtHeadings(t: Text, i: nat)
    requires 0 < i < |t|
    ensures HeadingLine(t, i) <==> SectionStarts(SplitSections(t), 0, i)
  {
    SectionsStartAtHeadings(t, 0, i);
  }

  // ---------- the order of sections ----------

  predicate Ahead(scores: seq<nat>, a: nat, b: nat)
    requires a < |scores| && b < |scores|
  {
    scores[a] > scores[b] || (scores[a] == scores[b] && a < b)
  }

  /** Best score first, ties by position. */
  ghost predicate Ranked(scores: seq<nat>, ranked: seq<nat>) {
    && (forall k :: 0 <= k < |ranked| ==> ranked[k] < |scores|)
    && (forall i, j :: 0 <= i < j < |ranked| ==> Ahead(scores, ranked[i], ranked[j]))
  }

  ghost predicate RanksFirst(scores: seq<nat>, ranked: seq<nat>, n: nat) {
    && Ranked(scores, ranked) && multiset(ranked) == multiset(Indices(n))
    && (forall k :: 0 <= k < |ranked| ==> ranked[k] < n)
  }

  /** Where index `x` belongs in a ranking, best score first and ties by position. */
  function Insert(scores: seq<nat>, ranked: seq<nat>, x: nat): seq<nat>
    requires x < |scores| && forall k :: 0 <= k < |ranked| ==> ranked[k] < |scores|
  {
    if ranked == [] || Ahead(scores, x, ranked[0]) then [x] + ranked
    else [ranked[0]] + Insert(scores, ranked[1..], x)
  }

  lemma {:induction false} InsertKeepsRanking(scores: seq<nat>, ranked: seq<nat>, x: nat)
    requires x < |scores| && Ranked(scores, ranked) && forall k :: 0 <= k < |ranked| ==> ranked[k] != x
    ensures multiset(Insert(scores, ranked, x)) == multiset(ranked) + multiset{x}
    ensures Ranked(scores, Insert(scores, ranked, x))
  {
    if ranked == [] || Ahead(scores, x, ranked[0]) {
      FirstKeepsRanking(scores, x, ranked);
    } else {
      var rest := ranked[1..];
      InsertKeepsRanking(scores, rest, x);
      assert ranked == [ranked[0]] + rest;
      var inserted := Insert(scores, rest, x);
      forall j | 0 <= j < |inserted| ensures Ahead(scores, ranked[0], inserted[j]) {
        assert inserted[j] in multiset(rest) + multiset{x};
        assert inserted[j] == x || inserted[j] in rest;
      }
      HeadKeepsRanking(scores, ranked[0], inserted);
    }
  }

  lemma FirstKeepsRanking(scores: seq<nat>, x: nat, ranked: seq<nat>)
    requires x < |scores| && Ranked(scores, ranked) && (ranked != [] ==> Ahead(scores, x, ranked[0]))
    ensures Ranked(scores, [x] + ranked)
  {
    forall j | 0 <= j < |ranked| ensures Ahead(scores, x, ranked[j]) {
      if j > 0 { assert Ahead(scores, ranked[0], ranked[j]); }
    }
    HeadKeepsRanking(scores, x, ranked);
  }

  lemma HeadKeepsRanking(scores: seq<nat>, x: nat, rest: seq<nat>)
    requires x < |scores| && Ranked(scores, rest) && forall j :: 0 <= j < |rest| ==> Ahead(scores, x, rest[j])
    ensures Ranked(scores, [x] + rest)
  {
  }

  function Ranking(scores: seq<nat>, n: nat): (ranked: seq<nat>)
    requires n <= |scores|
    ensures RanksFirst(scores, ranked, n)
  {
    if n == 0 then []
    else
      var before := Ranking(scores, n - 1);
      InsertRanks(scores, before, n - 1);
      Insert(scores, before, n - 1)
  }

  lemma InsertRanks(scores: seq<nat>, before: seq<nat>, x: nat)
    requires x < |scores| && RanksFirst(scores, before, x)
    ensures RanksFirst(scores, Insert(scores, before, x), x + 1)
  {
    InsertKeepsRanking(scores, before, x);
    RankedBelow(scores, before, x);
  }

  lemma RankedBelow(scores: seq<nat>, before: seq<nat>, x: nat)
    requires x < |scores| && multiset(before) == multiset(Indices(x))
    requires forall k :: 0 <= k < |before| ==> before[k] < x
    requires multiset(Insert(scores, before, x)) == multiset(before) + multiset{x}
    ensures multiset(Insert(scores, before, x)) == multiset(Indices(x + 1))
    ensures forall k :: 0 <= k < |Insert(scores, before, x)| ==> Insert(scores, before, x)[k] < x + 1
  {
    var inserted := Insert(scores, before, x);
    assert Indices(x + 1) == Indices(x) + [x];
    forall k | 0 <= k < |inserted| ensures inserted[k] < x + 1 {
      assert inserted[k] in multiset(inserted);
      assert inserted[k] == x || inserted[k] in before;
    }
  }

  function Indices(n: nat): seq<nat> { seq(n, i => i) }

  function Add(order: seq<nat>, index: int, n: nat): seq<nat> {
    if 0 <= index < n && index !in order then order + [index] else order
  }

  /** A ranked section, then its neighbours, the one before it first. */
  function Around(order: seq<nat>, x: int, n: nat): seq<nat> {
    Add(Add(Add(order, x, n), x - 1, n), x + 1, n)
  }

  /** Each ranked section is followed by its neighbours. */
  function WithNeighbours(ranked: seq<nat>, n: nat): seq<nat> {
    if ranked == [] then []
    else
      Around(WithNeighbours(ranked[..|ranked| - 1], n), ranked[|ranked| - 1], n)
  }

  method OrderSections(ranked: seq<nat>, n: nat) returns (order: seq<nat>)
    ensures order == WithNeighbours(ranked, n)
  {
    order := [];
    var i := 0;
    while i < |ranked|
      invariant i <= |ranked| && order == WithNeighbours(ranked[..i], n)
    {
      assert ranked[..i + 1][..i] == ranked[..i];
      order := AddAround(order, ranked[i], n);
      i := i + 1;
    }
    assert ranked[..i] == ranked;
  }

  method AddAround(before: seq<nat>, x: int, n: nat) returns (order: seq<nat>)
    ensures order == Around(before, x, n)
  {
    order := before;
    var around := [x, x - 1, x + 1];
    var k := 0;
    while k < 3
      invariant k <= 3
      invariant k == 0 ==> order == before
      invariant k == 1 ==> order == Add(before, x, n)
      invariant k == 2 ==> order == Add(Add(before, x, n), x - 1, n)
      invariant k == 3 ==> order == Add(Add(Add(before, x, n), x - 1, n), x + 1, n)
    {
      if 0 <= around[k] < n && around[k] !in order { order := order + [around[k]]; }
      k := k + 1;
    }
  }

  ghost predicate Distinct(order: seq<nat>, n: nat) {
    && (forall k :: 0 <= k < |order| ==> order[k] < n)
    && (forall i, j :: 0 <= i < j < |order| ==> order[i] != order[j])
  }

  lemma AddKeepsDistinct(order: seq<nat>, index: int, n: nat)
    requires Distinct(order, n)
    ensures Distinct(Add(order, index, n), n)
    ensures forall x :: x in order ==> x in Add(order, index, n)
    ensures 0 <= index < n ==> index in Add(order, index, n)
  {
  }

  lemma AroundKeepsDistinct(order: seq<nat>, x: nat, n: nat)
    requires Distinct(order, n) && x < n
    ensures Distinct(Around(order, x, n), n)
    ensures x in Around(order, x, n) && forall y :: y in order ==> y in Around(order, x, n)
  {
    AddKeepsDistinct(order, x, n);
    AddKeepsDistinct(Add(order, x, n), x - 1, n);
    AddKeepsDistinct(Add(Add(order, x, n), x - 1, n), x + 1, n);
  }

  lemma {:induction false} NeighboursCover(ranked: seq<nat>, n: nat)
    requires forall k :: 0 <= k < |ranked| ==> ranked[k] < n
    ensures Distinct(WithNeighbours(ranked, n), n)
    ensures forall x :: x in ranked ==> x in WithNeighbours(ranked, n)
  {
    if ranked != [] {
      var front := ranked[..|ranked| - 1];
      NeighboursCover(front, n);
      AroundKeepsDistinct(WithNeighbours(front, n), ranked[|ranked| - 1], n);
      forall x | x in ranked ensures x in WithNeighbours(ranked, n) {
        assert x in front || x == ranked[|ranked| - 1];
      }
    }
  }

  lemma {:induction false} DistinctCoverIsPermutation(order: seq<nat>, n: nat)
    requires Distinct(order, n) && forall x :: 0 <= x < n ==> x in order
    ensures multiset(order) == multiset(Indices(n))
  {
    forall x: nat ensures multiset(order)[x] == multiset(Indices(n))[x] {
      CountInDistinct(order, n, x);
      assert Distinct(Indices(n), n);
      if x < n { assert Indices(n)[x] == x; }
      CountInDistinct(Indices(n), n, x);
    }
  }

  lemma {:induction false} CountInDistinct(order: seq<nat>, n: nat, x: nat)
    requires Distinct(order, n)
    ensures multiset(order)[x] == if x in order then 1 else 0
  {
    if order != [] {
      var front, last := order[..|order| - 1], order[|order| - 1];
      assert order == front + [last];
      CountInDistinct(front, n, x);
    }
  }

  /** How a query scores a section is up to the caller; it is a function of the two. */
  type Scorer = (Text, Text) -> nat

  function Scores(sections: seq<Text>, query: Text, score: Scorer): seq<nat> {
    seq(|sections|, i requires 0 <= i < |sections| => score(sections[i], query))
  }

  predicate Blank(query: Text) { forall u :: u in query ==> C.IsSpace(u) }

  datatype Mode = Relevant | Full

  function Order(sections: seq<Text>, mode: Mode, query: Text, score: Scorer): seq<nat> {
    if mode.Full? || Blank(query) then Indices(|sections|)
    else WithNeighbours(Ranking(Scores(sections, query, score), |sections|), |sections|)
  }

  /** Whatever the query, every section is shown exactly once. */
  lemma OrderIsPermutation(sections: seq<Text>, mode: Mode, query: Text, score: Scorer)
    ensures multiset(Order(sections, mode, query, score)) == multiset(Indices(|sections|))
    ensures forall k :: 0 <= k < |Order(sections, mode, query, score)| ==>
              Order(sections, mode, query, score)[k] < |sections|
  {
    if !mode.Full? && !Blank(query) {
      var n := |sections|;
      var ranked := Ranking(Scores(sections, query, score), n);
      forall x | 0 <= x < n ensures x in ranked {
        assert Indices(n)[x] == x;
        assert x in multiset(ranked);
      }
      NeighboursCover(ranked, n);
      DistinctCoverIsPermutation(WithNeighbours(ranked, n), n);
    }
  }

  function OrderedSections(markdown: Text, mode: Mode, query: Text, score: Scorer): seq<Text> {
    var sections := SplitSections(markdown);
    OrderIsPermutation(sections, mode, query, score);
    var order := Order(sections, mode, query, score);
    seq(|order|, k requires 0 <= k < |order| => sections[order[k]])
  }

  // ---------- what the order promises ----------

  /** `z` has been shown when the rank of `x` comes up: it or a neighbour of it has a better
    * score than `x`, or the same one at an earlier position. */
  ghost predicate ShownBefore(scores: seq<nat>, x: nat, z: nat)
    requires x < |scores|
  {
    && z < |scores|
    && exists y: nat :: y < |scores| && (scores[y] > scores[x] || (scores[y] == scores[x] && y < x)) && Beside(y, z)
  }

  predicate Beside(y: nat, z: nat) { y <= z + 1 && z <= y + 1 }

  /** The turn of `x`: the section, the one before it and the one after it, unless shown before. */
  ghost function TurnOf(scores: seq<nat>, x: nat): seq<nat>
    requires x < |scores|
  {
    (if ShownBefore(scores, x, x) then [] else [x])
    + (if x == 0 || ShownBefore(scores, x, x - 1) then [] else [x - 1])
    + (if x + 1 == |scores| || ShownBefore(scores, x, x + 1) then [] else [x + 1])
  }

  /** At `k` of the order everything shown before `x` has been shown, and its turn follows. */
  ghost predicate TurnAt(scores: seq<nat>, order: seq<nat>, x: nat, k: nat)
    requires x < |scores|
  {
    && k + |TurnOf(scores, x)| <= |order| && order[k..k + |TurnOf(scores, x)|] == TurnOf(scores, x)
    && forall z: nat :: z in order[..k] <==> ShownBefore(scores, x, z)
  }

  /** Every section has its turn, by its rank. */
  ghost predicate ShowsByRank(scores: seq<nat>, order: seq<nat>) {
    forall x: nat :: x < |scores| ==> HasTurn(scores, order, x)
  }

  ghost predicate HasTurn(scores: seq<nat>, order: seq<nat>, x: nat)
    requires x < |scores|
  {
    exists k: nat :: TurnAt(scores, order, x, k)
  }

  /** The indices ranked before `x` are those with a better score, or an earlier position. */
  lemma RankedBefore(scores: seq<nat>, ranked: seq<nat>, j: nat, y: nat)
    requires RanksFirst(scores, ranked, |scores|) && j < |ranked|
    ensures y in ranked[..j] <==> y < |scores| && Ahead(scores, y, ranked[j])
  {
    assert forall i :: j < i < |ranked| ==> Ahead(scores, ranked[j], ranked[i]);
    if y < |scores| && Ahead(scores, y, ranked[j]) {
      assert Indices(|scores|)[y] == y;
      assert y in multiset(ranked);
      var i :| 0 <= i < |ranked| && ranked[i] == y;
      assert i < j ==> ranked[..j][i] == y;
    }
  }

  lemma AroundAre(order: seq<nat>, x: nat, n: nat, z: nat)
    requires x < n
    ensures z in Around(order, x, n) <==> z in order || (z < n && Beside(x, z))
  {
  }

  lemma {:induction false} NeighboursAre(ranked: seq<nat>, n: nat, z: nat)
    requires forall k :: 0 <= k < |ranked| ==> ranked[k] < n
    ensures z in WithNeighbours(ranked, n) <==> z < n && exists y :: y in ranked && Beside(y, z)
  {
    if ranked != [] {
      var front, x := ranked[..|ranked| - 1], ranked[|ranked| - 1];
      NeighboursAre(front, n, z);
      AroundAre(WithNeighbours(front, n), x, n, z);
      assert forall y :: y in ranked <==> y in front || y == x;
    }
  }

  lemma {:induction false} TurnsAppend(ranked: seq<nat>, n: nat, j: nat)
    requires j <= |ranked|
    ensures WithNeighbours(ranked[..j], n) <= WithNeighbours(ranked, n)
  {
    if j < |ranked| {
      var front := ranked[..|ranked| - 1];
      TurnsAppend(front, n, j);
      assert front[..j] == ranked[..j];
    } else {
      assert ranked[..j] == ranked;
    }
  }

  /** Showing a section and its neighbours adds its turn. */
  lemma AroundAddsTurn(scores: seq<nat>, order: seq<nat>, x: nat)
    requires x < |scores| && forall z: nat :: z in order <==> ShownBefore(scores, x, z)
    ensures Around(order, x, |scores|) == order + TurnOf(scores, x)
  {
  }

  lemma ShownIsRanked(scores: seq<nat>, ranked: seq<nat>, j: nat, z: nat)
    requires RanksFirst(scores, ranked, |scores|) && j < |ranked|
    ensures z in WithNeighbours(ranked[..j], |scores|) <==> ShownBefore(scores, ranked[j], z)
  {
    var n := |scores|;
    NeighboursAre(ranked[..j], n, z);
    forall y: nat ensures y in ranked[..j] <==> y < n && Ahead(scores, y, ranked[j]) { RankedBefore(scores, ranked, j, y); }
  }

  lemma NeighboursShowByRank(scores: seq<nat>, ranked: seq<nat>)
    requires RanksFirst(scores, ranked, |scores|)
    ensures ShowsByRank(scores, WithNeighbours(ranked, |scores|))
  {
    var n := |scores|;
    forall x: nat | x < n ensures HasTurn(scores, WithNeighbours(ranked, n), x) {
      assert Indices(n)[x] == x;
      assert x in multiset(ranked);
      var j :| 0 <= j < |ranked| && ranked[j] == x;
      TurnComes(scores, ranked, j);
    }
  }

  lemma PartsOf(before: seq<nat>, turn: seq<nat>, order: seq<nat>)
    requires before + turn <= order
    ensures order[..|before|] == before && order[|before|..|before| + |turn|] == turn
  {
    assert (before + turn)[..|before|] == before && (before + turn)[|before|..] == turn;
  }

  lemma BeforeIsShown(scores: seq<nat>, ranked: seq<nat>, j: nat)
    requires RanksFirst(scores, ranked, |scores|) && j < |ranked|
    ensures forall z: nat :: z in WithNeighbours(ranked[..j], |scores|) <==> ShownBefore(scores, ranked[j], z)
  {
    forall z: nat ensures z in WithNeighbours(ranked[..j], |scores|) <==> ShownBefore(scores, ranked[j], z) {
      ShownIsRanked(scores, ranked, j, z);
    }
  }

  lemma OneMoreTurn(scores: seq<nat>, ranked: seq<nat>, j: nat, before: seq<nat>)
    requires RanksFirst(scores, ranked, |scores|) && j < |ranked| && before == WithNeighbours(ranked[..j], |scores|)
    requires forall z: nat :: z in before <==> ShownBefore(scores, ranked[j], z)
    ensures WithNeighbours(ranked[..j + 1], |scores|) == before + TurnOf(scores, ranked[j])
  {
    assert ranked[..j + 1][..j] == ranked[..j] && ranked[..j + 1][j] == ranked[j];
    AroundAddsTurn(scores, before, ranked[j]);
  }

  lemma TurnComes(scores: seq<nat>, ranked: seq<nat>, j: nat)
    requires RanksFirst(scores, ranked, |scores|) && j < |ranked|
    ensures TurnAt(scores, WithNeighbours(ranked, |scores|), ranked[j], |WithNeighbours(ranked[..j], |scores|)|)
  {
    var before := WithNeighbours(ranked[..j], |scores|);
    BeforeIsShown(scores, ranked, j);
    OneMoreTurn(scores, ranked, j, before);
    TurnsAppend(ranked, |scores|, j + 1);
    TurnFollows(scores, WithNeighbours(ranked, |scores|), ranked[j], before);
  }

  lemma TurnFollows(scores: seq<nat>, order: seq<nat>, x: nat, before: seq<nat>)
    requires x < |scores| && before + TurnOf(scores, x) <= order
    requires forall z: nat :: z in before <==> ShownBefore(scores, x, z)
    ensures TurnAt(scores, order, x, |before|)
  {
    PartsOf(before, TurnOf(scores, x), order);
  }

  /** Best first: the section shown first has the best score, ties by position. */
  lemma BestIsFirst(scores: seq<nat>, order: seq<nat>)
    requires scores != [] && ShowsByRank(scores, order)
    ensures order != [] && order[0] < |scores|
    ensures forall y :: 0 <= y < |scores| ==> scores[order[0]] > scores[y] || (scores[order[0]] == scores[y] && order[0] <= y)
  {
    var best := Best(scores, |scores|);
    assert HasTurn(scores, order, best);
    var k: nat :| TurnAt(scores, order, best, k);
    SomeIn(order[..k]);
    assert TurnOf(scores, best)[0] == best;
  }

  lemma SomeIn(s: seq<nat>)
    ensures s == [] || exists z: nat :: z in s
  {
    if s != [] { assert s[0] in s; }
  }

  lemma Best(scores: seq<nat>, n: nat) returns (best: nat)
    requires 0 < n <= |scores|
    ensures best < n && forall y :: 0 <= y < n ==> scores[best] > scores[y] || (scores[best] == scores[y] && best <= y)
  {
    best := 0;
    if n > 1 {
      best := Best(scores, n - 1);
      if scores[n - 1] > scores[best] { best := n - 1; }
    }
  }

  /** The best section first, ties by position, and every section in its turn. */
  ghost predicate ByRelevance(sections: seq<Text>, query: Text, score: Scorer, shown: seq<nat>) {
    && ShowsByRank(seq(|sections|, i requires 0 <= i < |sections| => score(sections[i], query)), shown)
    && shown != [] && shown[0] < |sections|
    && forall y :: 0 <= y < |sections| ==>
         || score(sections[shown[0]], query) > score(sections[y], query)
         || (score(sections[shown[0]], query) == score(sections[y], query) && shown[0] <= y)
  }

  lemma OrderShows(sections: seq<Text>, query: Text, score: Scorer)
    requires sections != [] && !Blank(query)
    ensures ByRelevance(sections, query, score, Order(sections, Relevant, query, score))
  {
    var scores := Scores(sections, query, score);
    NeighboursShowByRank(scores, Ranking(scores, |sections|));
    BestIsFirst(scores, Order(sections, Relevant, query, score));
    assert forall y :: 0 <= y < |sections| ==> scores[y] == score(sections[y], query);
  }

  lemma OrderLength(sections: seq<Text>, mode: Mode, query: Text, score: Scorer)
    ensures |Order(sections, mode, query, score)| == |sections|
  {
    OrderIsPermutation(sections, mode, query, score);
    assert |multiset(Order(sections, mode, query, score))| == |multiset(Indices(|sections|))|;
  }

  /** `orderedSections`, up to the sections themselves: the loop runs for a relevant query only. */
  method SectionOrder(sections: seq<Text>, mode: Mode, query: Text, score: Scorer) returns (order: seq<nat>)
    ensures order == Order(sections, mode, query, score)
  {
    order := Indices(|sections|);
    if mode.Relevant? && !Blank(query) {
      order := OrderSections(Ranking(Scores(sections, query, score), |sections|), |sections|);
    }
  }

  /** The sections in the order they are shown, and where each of them comes from. */
  method SectionsInOrder(markdown: Text, mode: Mode, query: Text, score: Scorer)
    returns (ordered: seq<Text>, ghost shown: seq<nat>)
    ensures ordered == OrderedSections(markdown, mode, query, score)
    ensures |shown| == |ordered| == |SplitSections(markdown)|
    ensures forall k :: 0 <= k < |ordered| ==>
              shown[k] < |SplitSections(markdown)| && ordered[k] == SplitSections(markdown)[shown[k]]
    ensures mode.Full? || (forall u :: u in query ==> C.IsSpace(u)) ==> ordered == SplitSections(markdown)
    ensures mode.Relevant? && (exists u :: u in query && !C.IsSpace(u)) ==>
              ByRelevance(SplitSections(markdown), query, score, shown)
  {
    var sections := SplitSections(markdown);
    var order := SectionOrder(sections, mode, query, score);
    OrderIsPermutation(sections, mode, query, score);
    OrderLength(sections, mode, query, score);
    ordered := seq(|order|, k requires 0 <= k < |order| => sections[order[k]]);
    shown := order;
    if mode.Relevant? && !Blank(query) { OrderShows(sections, query, score); }
  }

  /** The pages of one document, mode and query. */
  function PagesOf(markdown: Text, mode: Mode, query: Text, score: Scorer): (pages: seq<Text>)
    ensures |pages| >= 1
  {
    Chunks(Flatten(OrderedSections(markdown, mode, query, score)))
  }

  /** The pages, put together, are the sections in the order they are shown: all of them once,
    * by relevance if there is a query, and as they stand otherwise. */
  lemma PagesShowSections(markdown: Text, mode: Mode, query: Text, score: Scorer) returns (shown: seq<nat>)
    ensures Distinct(shown, |SplitSections(markdown)|) && |shown| == |SplitSections(markdown)|
    ensures Flatten(PagesOf(markdown, mode, query, score))
            == Flatten(seq(|shown|, k requires 0 <= k < |shown| => SplitSections(markdown)[shown[k]]))
    ensures mode.Full? || (forall u :: u in query ==> C.IsSpace(u)) ==> forall k :: 0 <= k < |shown| ==> shown[k] == k
    ensures mode.Relevant? && (exists u :: u in query && !C.IsSpace(u)) ==>
              ByRelevance(SplitSections(markdown), query, score, shown)
  {
    var sections := SplitSections(markdown);
    shown := Order(sections, mode, query, score);
    OrderIsPermutation(sections, mode, query, score);
    OrderLength(sections, mode, query, score);
    ChunksRebuild(Flatten(OrderedSections(markdown, mode, query, score)));
    if mode.Relevant? && !Blank(query) {
      OrderShows(sections, query, score);
      OrderIsDistinct(sections, query, score);
    }
  }

  lemma OrderIsDistinct(sections: seq<Text>, query: Text, score: Scorer)
    requires !Blank(query)
    ensures Distinct(Order(sections, Relevant, query, score), |sections|)
  {
    NeighboursCover(Ranking(Scores(sections, query, score), |sections|), |sections|);
  }

  /** In full mode the pages, put together, are the document. */
  lemma FullPagesRebuild(markdown: Text, query: Text, score: Scorer)
    ensures Flatten(PagesOf(markdown, Full, query, score)) == markdown
  {
    var sections := SplitSections(markdown);
    assert OrderedSections(markdown, Full, query, score) == sections;
    SplitRebuilds(markdown);
    ChunksRebuild(markdown);
  }
}

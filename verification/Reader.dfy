/** The document reader of one agent run: cached documents, page sets and cursors. */
module Reader {
  import opened Records
  import opened Documents

  type DocId = int

  /** Turns a document into pages, for one mode and query. */
  type Pager = (Text, Mode, Text) -> seq<Text>

  ghost predicate Serves(pager: Pager) {
    forall markdown, mode, query :: |pager(markdown, mode, query)| >= 1
  }

  /** The pager of `fetchDocument`. */
  function PagerOf(score: Scorer): (pager: Pager)
    ensures Serves(pager)
    ensures forall markdown, mode, query :: pager(markdown, mode, query) == PagesOf(markdown, mode, query, score)
  {
    (markdown, mode, query) => PagesOf(markdown, mode, query, score)
  }

  datatype Key = Key(doc: DocId, mode: Mode, query: Text)

  datatype Position = Position(key: Key, index: nat)

  /** Cursors are numbered; any other string a caller passes is a number that is not in the map. */
  datatype State = State(
    documents: map<DocId, Text>,
    pageSets: map<Key, seq<Text>>,
    cursors: map<nat, Position>,
    sequence: nat)

  const FRESH := State(map[], map[], map[], 0)

  /** `None` stands for the error `invalid_document_cursor`. */
  datatype Page = Page(markdown: Text, next: Option<nat>)

  function Document(s: State, doc: DocId, fetched: Text): Text {
    if doc in s.documents then s.documents[doc] else fetched
  }

  function PageSet(s: State, key: Key, fetched: Text, pager: Pager): (pages: seq<Text>) {
    if key in s.pageSets then s.pageSets[key]
    else pager(Document(s, key.doc, fetched), key.mode, key.query)
  }

  /** A cursor of another key, or of nothing, starts over at the first page. */
  function Index(s: State, key: Key, cursor: Option<nat>): nat {
    if cursor.Some? && cursor.value in s.cursors && s.cursors[cursor.value].key == key
    then s.cursors[cursor.value].index else 0
  }

  /** The caches after the pages of a key were needed. */
  function Cached(s: State, key: Key, fetched: Text, pager: Pager): State {
    s.(documents := s.documents[key.doc := Document(s, key.doc, fetched)],
    pageSets := s.pageSets[key := PageSet(s, key, fetched, pager)])
  }

  /** A new cursor for the page after `index`, if there is one. */
  function Advance(s: State, key: Key, index: nat, count: nat): (State, Option<nat>) {
    if index + 1 < count then
      (s.(cursors := s.cursors[s.sequence + 1 := Position(key, index + 1)], sequence := s.sequence + 1),
      Some(s.sequence + 1))
    else (s, None)
  }

  /** `fetchDocument`; `fetched` is what the service returns if it is asked. */
  function Read(s: State, key: Key, cursor: Option<nat>, fetched: Text, pager: Pager): (State, Option<Page>) {
    var index := Index(s, key, cursor);
    var pages := PageSet(s, key, fetched, pager);
    var cached := Cached(s, key, fetched, pager);
    if index >= |pages| then (cached, None)
    else
      var (after, next) := Advance(cached, key, index, |pages|);
      (after, Some(Page(pages[index], next)))
  }

  /** `invalidateDocument`, after a write to the document. */
  function Invalidate(s: State, doc: DocId): State {
    State(s.documents - {doc},
          map k | k in s.pageSets && k.doc != doc :: s.pageSets[k],
          map c | c in s.cursors && s.cursors[c].key.doc != doc :: s.cursors[c],
          s.sequence)
  }

  /** One document, fetched once, and one set of pages for it, mode and query, split once. */
  ghost predicate CachesOnce(a: State, b: State, key: Key, fetched: Text, score: Scorer) {
    && b.documents == a.documents[key.doc := if key.doc in a.documents then a.documents[key.doc] else fetched]
    && key in b.pageSets && b.pageSets == a.pageSets[key := b.pageSets[key]]
    && b.pageSets[key] == if key in a.pageSets then a.pageSets[key]
                          else PagesOf(b.documents[key.doc], key.mode, key.query, score)
  }

  /** The page that its own cursor names, or the first, and a new cursor for the page after it;
    * `None` only when there is no such page. */
  ghost predicate ServesPage(a: State, b: State, key: Key, cursor: Option<nat>, page: Option<Page>)
    requires key in b.pageSets
  {
    var index := if cursor.Some? && cursor.value in a.cursors && a.cursors[cursor.value].key == key
                 then a.cursors[cursor.value].index else 0;
    var pages, another := b.pageSets[key], index + 1 < |b.pageSets[key]|;
    && (page.None? <==> index >= |pages|)
    && (page.Some? ==> page.value.markdown == pages[index] && page.value.next == if another then Some(a.sequence + 1) else None)
    && b.sequence == a.sequence + (if another then 1 else 0)
    && b.cursors == if another then a.cursors[a.sequence + 1 := Position(key, index + 1)] else a.cursors
  }

  lemma CachedMeans(s: State, key: Key, fetched: Text, score: Scorer, after: State)
    requires after == Cached(s, key, fetched, PagerOf(score))
    ensures CachesOnce(s, after, key, fetched, score)
    ensures after.cursors == s.cursors && after.sequence == s.sequence
    ensures after.pageSets[key] == PageSet(s, key, fetched, PagerOf(score))
  {
  }

  lemma AdvanceMeans(s: State, key: Key, index: nat, count: nat, after: State, next: Option<nat>)
    requires Advance(s, key, index, count) == (after, next)
    ensures after.documents == s.documents && after.pageSets == s.pageSets
    ensures var another := index + 1 < count;
            && next == (if another then Some(s.sequence + 1) else None)
            && after.sequence == s.sequence + (if another then 1 else 0)
            && after.cursors == if another then s.cursors[s.sequence + 1 := Position(key, index + 1)] else s.cursors
  {
  }

  /** What a read does to the caches. */
  lemma ReadCachesOnce(s: State, key: Key, cursor: Option<nat>, fetched: Text, score: Scorer)
    ensures CachesOnce(s, Read(s, key, cursor, fetched, PagerOf(score)).0, key, fetched, score)
  {
    CachedMeans(s, key, fetched, score, Cached(s, key, fetched, PagerOf(score)));
  }

  /** What a read does for its caller. */
  lemma ReadServesPage(s: State, key: Key, cursor: Option<nat>, fetched: Text, score: Scorer, after: State, page: Option<Page>)
    requires Read(s, key, cursor, fetched, PagerOf(score)) == (after, page) && key in after.pageSets
    ensures ServesPage(s, after, key, cursor, page)
  {
    var cached := Cached(s, key, fetched, PagerOf(score));
    CachedMeans(s, key, fetched, score, cached);
    var index, pages := Index(s, key, cursor), cached.pageSets[key];
    if index < |pages| {
      var (end, next) := Advance(cached, key, index, |pages|);
      AdvanceMeans(cached, key, index, |pages|, end, next);
      assert after == end;
    } else {
      assert after == cached;
    }
  }

  class DocumentReader {
    var documents: map<DocId, Text>
    var pageSets: map<Key, seq<Text>>
    var cursors: map<nat, Position>
    var cursorSequence: nat

    ghost function Contents(): State
      reads this
    {
      State(documents, pageSets, cursors, cursorSequence)
    }

    constructor ()
      ensures Contents() == FRESH
    {
      documents, pageSets, cursors, cursorSequence := map[], map[], map[], 0;
    }

    method LoadDocument(doc: DocId, fetched: Text) returns (markdown: Text)
      modifies this
      ensures markdown == Document(old(Contents()), doc, fetched) && documents == old(documents)[doc := markdown]
      ensures pageSets == old(pageSets) && cursors == old(cursors) && cursorSequence == old(cursorSequence)
    {
      if doc !in documents { documents := documents[doc := fetched]; }
      markdown := documents[doc];
    }

    /** The document and its pages, fetched and split once. */
    method LoadPages(key: Key, fetched: Text, score: Scorer) returns (pages: seq<Text>)
      modifies this
      ensures pages == PageSet(old(Contents()), key, fetched, PagerOf(score))
      ensures documents == old(documents)[key.doc := Document(old(Contents()), key.doc, fetched)]
      ensures pageSets == old(pageSets)[key := pages]
      ensures cursors == old(cursors) && cursorSequence == old(cursorSequence)
    {
      var markdown := LoadDocument(key.doc, fetched);
      if key !in pageSets {
        var ordered, _ := SectionsInOrder(markdown, key.mode, key.query, score);
        var split := PaginateSections(ordered);
        assert split == PagesOf(markdown, key.mode, key.query, score);
        pageSets := pageSets[key := split];
      }
      pages := pageSets[key];
    }

    method FetchDocument(key: Key, cursor: Option<nat>, fetched: Text, score: Scorer) returns (page: Option<Page>)
      modifies this
      ensures (Contents(), page) == Read(old(Contents()), key, cursor, fetched, PagerOf(score))
    {
      var index := 0;
      if cursor.Some? && cursor.value in cursors && cursors[cursor.value].key == key {
        index := cursors[cursor.value].index;
      }
      assert index == Index(old(Contents()), key, cursor);
      var pages := LoadPages(key, fetched, score);
      assert Contents() == Cached(old(Contents()), key, fetched, PagerOf(score));
      if index >= |pages| { return None; }
      var next := NextCursor(key, index, |pages|);
      page := Some(Page(pages[index], next));
    }

    method NextCursor(key: Key, index: nat, count: nat) returns (next: Option<nat>)
      modifies this
      ensures (Contents(), next) == Advance(old(Contents()), key, index, count)
    {
      if index + 1 >= count { return None; }
      cursorSequence := cursorSequence + 1;
      cursors := cursors[cursorSequence := Position(key, index + 1)];
      next := Some(cursorSequence);
    }

    /** Nothing of the document is left, everything else is as it was, and numbers are not reused. */
    method InvalidateDocument(doc: DocId)
      modifies this
      ensures Contents() == Invalidate(old(Contents()), doc)
      ensures doc !in documents && (forall k :: k in pageSets ==> k.doc != doc)
      ensures forall c :: c in cursors ==> cursors[c].key.doc != doc
      ensures forall d :: d in old(documents) && d != doc ==> d in documents && documents[d] == old(documents)[d]
      ensures forall c :: c in old(cursors) && old(cursors)[c].key.doc != doc ==> c in cursors && cursors[c] == old(cursors)[c]
      ensures cursorSequence == old(cursorSequence)
    {
      documents := documents - {doc};
      pageSets := map k | k in pageSets && k.doc != doc :: pageSets[k];
      cursors := map c | c in cursors && cursors[c].key.doc != doc :: cursors[c];
    }
  }

  // ---------- runs of the reader ----------

  datatype Op =
    | ReadOp(key: Key, cursor: Option<nat>, fetched: Text)
    | WriteOp(doc: DocId)

  function Do(s: State, op: Op, pager: Pager): State {
    match op
    case ReadOp(key, cursor, fetched) => Read(s, key, cursor, fetched, pager).0
    case WriteOp(doc) => Invalidate(s, doc)
  }

  function DoAll(s: State, ops: seq<Op>, pager: Pager): State
    decreases |ops|
  {
    if ops == [] then s else DoAll(Do(s, ops[0], pager), ops[1..], pager)
  }

  /** Page sets belong to cached documents, and cursors point at later pages of page sets. */
  ghost predicate Inv(s: State, pager: Pager) {
    && (forall k :: k in s.pageSets ==>
          k.doc in s.documents && s.pageSets[k] == pager(s.documents[k.doc], k.mode, k.query))
    && (forall c :: c in s.cursors ==>
          && c <= s.sequence && s.cursors[c].key in s.pageSets
          && 1 <= s.cursors[c].index < |s.pageSets[s.cursors[c].key]|)
  }

  lemma ReadKeepsInv(s: State, key: Key, cursor: Option<nat>, fetched: Text, pager: Pager)
    requires Inv(s, pager) && Serves(pager)
    ensures Inv(Read(s, key, cursor, fetched, pager).0, pager)
  {
    CachedKeepsInv(s, key, fetched, pager);
    var count := |PageSet(s, key, fetched, pager)|;
    AdvanceKeepsInv(Cached(s, key, fetched, pager), key, Index(s, key, cursor), count, pager);
  }

  lemma CachedKeepsInv(s: State, key: Key, fetched: Text, pager: Pager)
    requires Inv(s, pager)
    ensures Inv(Cached(s, key, fetched, pager), pager)
  {
  }

  lemma AdvanceKeepsInv(s: State, key: Key, index: nat, count: nat, pager: Pager)
    requires Inv(s, pager) && key in s.pageSets && count == |s.pageSets[key]|
    ensures Inv(Advance(s, key, index, count).0, pager)
  {
  }

  lemma DoKeepsInv(s: State, op: Op, pager: Pager)
    requires Inv(s, pager) && Serves(pager)
    ensures Inv(Do(s, op, pager), pager)
  {
    if op.ReadOp? { ReadKeepsInv(s, op.key, op.cursor, op.fetched, pager); }
  }

  lemma {:induction false} DoAllKeepsInv(s: State, ops: seq<Op>, pager: Pager)
    requires Inv(s, pager) && Serves(pager)
    ensures Inv(DoAll(s, ops, pager), pager)
    decreases |ops|
  {
    if ops != [] {
      DoKeepsInv(s, ops[0], pager);
      DoAllKeepsInv(Do(s, ops[0], pager), ops[1..], pager);
    }
  }

  /** A read never fails, and always serves a page of the key it was asked for: the one its
    * own cursor names, and the first one for any other cursor. */
  lemma ReadServesItsKey(ops: seq<Op>, pager: Pager, key: Key, cursor: Option<nat>, fetched: Text)
    requires Serves(pager)
    ensures var s := DoAll(FRESH, ops, pager);
            var page := Read(s, key, cursor, fetched, pager).1;
            var pages := pager(Document(s, key.doc, fetched), key.mode, key.query);
            page.Some? && Index(s, key, cursor) < |pages| && page.value.markdown == pages[Index(s, key, cursor)]
  {
    DoAllKeepsInv(FRESH, ops, pager);
  }

  /** After any history and then a write to the document, its next read serves the first page
    * of what the service returns now, whatever cursor it comes with and whatever was cached. */
  lemma WriteStartsOver(ops: seq<Op>, pager: Pager, key: Key, cursor: Option<nat>, fetched: Text)
    requires Serves(pager)
    ensures var s := Invalidate(DoAll(FRESH, ops, pager), key.doc);
            var (after, page) := Read(s, key, cursor, fetched, pager);
            && page.Some? && page.value.markdown == pager(fetched, key.mode, key.query)[0]
            && key.doc in after.documents && after.documents[key.doc] == fetched
  {
    var s := DoAll(FRESH, ops, pager);
    DoAllKeepsInv(FRESH, ops, pager);
    DoKeepsInv(s, WriteOp(key.doc), pager);
    ReadGivesNext(Invalidate(s, key.doc), key, cursor, fetched, pager);
  }

  /** A write to one document does not show in the reads of another: same page, same cursor. */
  lemma WriteSparesOthers(s: State, doc: DocId, key: Key, cursor: Option<nat>, fetched: Text, pager: Pager)
    requires key.doc != doc
    ensures Read(Invalidate(s, doc), key, cursor, fetched, pager).1 == Read(s, key, cursor, fetched, pager).1
  {
  }

  predicate Spares(ops: seq<Op>, doc: DocId) {
    forall i :: 0 <= i < |ops| && ops[i].WriteOp? ==> ops[i].doc != doc
  }

  /** Reads of anything and writes of other documents keep a document, its pages and its cursors. */
  lemma {:induction false} OthersKeepDocument(s: State, ops: seq<Op>, pager: Pager, doc: DocId)
    requires Inv(s, pager) && Serves(pager) && Spares(ops, doc)
    ensures var t := DoAll(s, ops, pager);
            && (doc in s.documents ==> doc in t.documents && t.documents[doc] == s.documents[doc])
            && (forall c :: c in s.cursors && s.cursors[c].key.doc == doc ==>
                  c in t.cursors && t.cursors[c] == s.cursors[c])
            && s.sequence <= t.sequence
    decreases |ops|
  {
    if ops != [] {
      DoKeepsInv(s, ops[0], pager);
      OneKeepsDocument(s, ops[0], pager, doc);
      OthersKeepDocument(Do(s, ops[0], pager), ops[1..], pager, doc);
    }
  }

  lemma OneKeepsDocument(s: State, op: Op, pager: Pager, doc: DocId)
    requires Inv(s, pager) && (op.WriteOp? ==> op.doc != doc)
    ensures var t := Do(s, op, pager);
            && (doc in s.documents ==> doc in t.documents && t.documents[doc] == s.documents[doc])
            && (forall c :: c in s.cursors && s.cursors[c].key.doc == doc ==>
                  c in t.cursors && t.cursors[c] == s.cursors[c])
            && s.sequence <= t.sequence
  {
  }

  /** Read a page, let others work, and follow the cursor that came with the page; stop when
    * there is none or when `gaps` is used up. */
  function Follow(s: State, key: Key, cursor: Option<nat>, gaps: seq<seq<Op>>, fetched: Text, pager: Pager): seq<Text>
    decreases |gaps|
  {
    var (after, page) := Read(s, key, cursor, fetched, pager);
    if page.None? then []
    else if page.value.next.None? || gaps == [] then [page.value.markdown]
    else [page.value.markdown] + Follow(DoAll(after, gaps[0], pager), key, page.value.next, gaps[1..], fetched, pager)
  }

  /** One read of a key: its page, and a cursor for the page after it if there is one. */
  lemma ReadGivesNext(s: State, key: Key, cursor: Option<nat>, fetched: Text, pager: Pager)
    requires Inv(s, pager) && Serves(pager)
    ensures var pages := pager(Document(s, key.doc, fetched), key.mode, key.query);
            var index := Index(s, key, cursor);
            var (after, page) := Read(s, key, cursor, fetched, pager);
            && index < |pages| && page.Some? && page.value.markdown == pages[index]
            && (page.value.next.Some? <==> index + 1 < |pages|)
            && (page.value.next.Some? ==> page.value.next.value in after.cursors
                                          && after.cursors[page.value.next.value] == Position(key, index + 1))
            && key.doc in after.documents && after.documents[key.doc] == Document(s, key.doc, fetched)
            && Inv(after, pager)
  {
    ReadKeepsInv(s, key, cursor, fetched, pager);
  }

  /** After others have worked, the cursor still names the next page of the same document. */
  lemma CursorSurvivesGap(s: State, key: Key, cursor: Option<nat>, gap: seq<Op>, fetched: Text, pager: Pager)
    requires Inv(s, pager) && Serves(pager) && Spares(gap, key.doc)
    requires var page := Read(s, key, cursor, fetched, pager).1; page.Some? && page.value.next.Some?
    ensures var (after, page) := Read(s, key, cursor, fetched, pager);
            var later := DoAll(after, gap, pager);
            && Inv(later, pager)
            && Index(later, key, page.value.next) == Index(s, key, cursor) + 1
            && Document(later, key.doc, fetched) == Document(s, key.doc, fetched)
  {
    ReadGivesNext(s, key, cursor, fetched, pager);
    var after := Read(s, key, cursor, fetched, pager).0;
    OthersKeepDocument(after, gap, pager, key.doc);
    DoAllKeepsInv(after, gap, pager);
  }

  lemma FollowUnfolds(s: State, key: Key, cursor: Option<nat>, gaps: seq<seq<Op>>, fetched: Text, pager: Pager)
    requires Inv(s, pager) && Serves(pager)
    ensures var pages := pager(Document(s, key.doc, fetched), key.mode, key.query);
            var index := Index(s, key, cursor);
            var (after, page) := Read(s, key, cursor, fetched, pager);
            && index < |pages| && page.Some?
            && Follow(s, key, cursor, gaps, fetched, pager) ==
               if index + 1 == |pages| || gaps == [] then [pages[index]]
               else [pages[index]] + Follow(DoAll(after, gaps[0], pager), key, page.value.next, gaps[1..], fetched, pager)
  {
    ReadGivesNext(s, key, cursor, fetched, pager);
  }

  /** The pages from `index` on, `n` more than one if there are so many. */
  function PagesFrom(pages: seq<Text>, index: nat, n: nat): seq<Text>
    requires index < |pages|
  {
    pages[index..Min(|pages|, index + n + 1)]
  }

  lemma PagesFromUnfolds(pages: seq<Text>, index: nat, n: nat)
    requires index < |pages|
    ensures index + 1 == |pages| || n == 0 ==> PagesFrom(pages, index, n) == [pages[index]]
    ensures index + 1 < |pages| && n > 0 ==> PagesFrom(pages, index, n) == [pages[index]] + PagesFrom(pages, index + 1, n - 1)
  {
  }

  lemma FollowEnds(s: State, key: Key, cursor: Option<nat>, gaps: seq<seq<Op>>, fetched: Text, pager: Pager)
    requires Inv(s, pager) && Serves(pager)
    ensures var pages := pager(Document(s, key.doc, fetched), key.mode, key.query);
            var index := Index(s, key, cursor);
            && index < |pages|
            && (index + 1 == |pages| || gaps == [] ==> Follow(s, key, cursor, gaps, fetched, pager) == [pages[index]])
  {
    FollowUnfolds(s, key, cursor, gaps, fetched, pager);
  }

  lemma {:induction false} FollowServesRest(s: State, key: Key, cursor: Option<nat>, gaps: seq<seq<Op>>, fetched: Text,
                                            pager: Pager, pages: seq<Text>, index: nat)
    requires Inv(s, pager) && Serves(pager)
    requires forall i :: 0 <= i < |gaps| ==> Spares(gaps[i], key.doc)
    requires pages == pager(Document(s, key.doc, fetched), key.mode, key.query) && index == Index(s, key, cursor)
    ensures index < |pages| && Follow(s, key, cursor, gaps, fetched, pager) == PagesFrom(pages, index, |gaps|)
    decreases |gaps|
  {
    FollowEnds(s, key, cursor, gaps, fetched, pager);
    PagesFromUnfolds(pages, index, |gaps|);
    if index + 1 < |pages| && gaps != [] {
      var later, next := FollowStep(s, key, cursor, gaps, fetched, pager);
      var rest := gaps[1..];
      assert forall i :: 0 <= i < |rest| ==> rest[i] == gaps[i + 1];
      FollowServesRest(later, key, next, rest, fetched, pager, pages, index + 1);
    }
  }

  lemma FollowStep(s: State, key: Key, cursor: Option<nat>, gaps: seq<seq<Op>>, fetched: Text, pager: Pager)
    returns (later: State, next: Option<nat>)
    requires Inv(s, pager) && Serves(pager) && gaps != [] && Spares(gaps[0], key.doc)
    requires Index(s, key, cursor) + 1 < |pager(Document(s, key.doc, fetched), key.mode, key.query)|
    ensures Inv(later, pager) && Document(later, key.doc, fetched) == Document(s, key.doc, fetched)
    ensures Index(later, key, next) == Index(s, key, cursor) + 1
    ensures Follow(s, key, cursor, gaps, fetched, pager) ==
            [pager(Document(s, key.doc, fetched), key.mode, key.query)[Index(s, key, cursor)]]
            + Follow(later, key, next, gaps[1..], fetched, pager)
  {
    FollowUnfolds(s, key, cursor, gaps, fetched, pager);
    ReadGivesNext(s, key, cursor, fetched, pager);
    CursorSurvivesGap(s, key, cursor, gaps[0], fetched, pager);
    var (after, page) := Read(s, key, cursor, fetched, pager);
    later, next := DoAll(after, gaps[0], pager), page.value.next;
  }

  /** From the first page on, with anything in between but a write to the document, every
    * page of the key is served exactly once and in order; in full mode they rebuild it. */
  lemma FollowingServesEveryPage(before: seq<Op>, key: Key, gaps: seq<seq<Op>>, fetched: Text, score: Scorer)
    requires forall i :: 0 <= i < |gaps| ==> Spares(gaps[i], key.doc)
    requires var markdown := Document(DoAll(FRESH, before, PagerOf(score)), key.doc, fetched);
             |gaps| + 1 >= |PagesOf(markdown, key.mode, key.query, score)|
    ensures var s := DoAll(FRESH, before, PagerOf(score));
            var markdown := Document(s, key.doc, fetched);
            var served := Follow(s, key, None, gaps, fetched, PagerOf(score));
            && served == PagesOf(markdown, key.mode, key.query, score)
            && (key.mode.Full? ==> Flatten(served) == markdown)
  {
    var pager := PagerOf(score);
    var s := DoAll(FRESH, before, pager);
    DoAllKeepsInv(FRESH, before, pager);
    var pages := pager(Document(s, key.doc, fetched), key.mode, key.query);
    FollowServesRest(s, key, None, gaps, fetched, pager, pages, 0);
    assert PagesFrom(pages, 0, |gaps|) == pages;
    if key.mode.Full? { FullPagesRebuild(Document(s, key.doc, fetched), key.query, score); }
  }
}

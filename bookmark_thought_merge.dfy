/** The bookmarks-and-thoughts list of the table of contents
    (`BookmarkThoughtFragment.mergeItems`): bookmarks and thoughts are
    gathered per chapter in an insertion-ordered map, then emitted chapter by
    chapter in ascending chapter order, each chapter as a header, its
    bookmarks by position, and its thoughts by position and creation time. */
module BookmarkThoughtFragment {
  import opened Sequences
  import opened Ordering
  import opened Entities

  /** `BookmarkThoughtAdapter.TocMarkListItem`. */
  datatype TocMarkListItem =
    | ChapterHeader(chapterName: string)
    | BookmarkItem(bookmark: Bookmark)
    | ThoughtItem(thought: BookThought)

  function BookmarkChapter(b: Bookmark): int { b.chapterIndex }
  function ThoughtChapter(t: BookThought): int { t.chapterIndex }

  /** `sortedBy { it.chapterPos }`. */
  function BookmarkOrder(b: Bookmark): seq<int> { [b.chapterPos] }
  /** `compareBy { it.chapterPos }.thenBy { it.createTime }`. */
  function ThoughtOrder(t: BookThought): seq<int> { [t.chapterPos, t.createTime] }
  /** `toSortedMap()` on integer keys. */
  function ChapterOrder(k: int): seq<int> { [k] }

  function AsBookmarkItem(b: Bookmark): TocMarkListItem { BookmarkItem(b) }
  function AsThoughtItem(t: BookThought): TocMarkListItem { ThoughtItem(t) }

  /** The chapters in the order the map first sees them: bookmarks are
      scanned before thoughts. */
  function ChaptersSeen(bs: seq<Bookmark>, ts: seq<BookThought>): seq<int> {
    Dedup(Map(bs, BookmarkChapter) + Map(ts, ThoughtChapter))
  }

  /** The chapters in the order they are emitted. */
  function SortedChapters(bs: seq<Bookmark>, ts: seq<BookThought>): seq<int> {
    SortBy(ChaptersSeen(bs, ts), ChapterOrder)
  }

  /** The name the chapter's bucket was created with: that of its first
      bookmark, or of its first thought when it has no bookmark (a chapter
      with neither has no bucket, and its name is never asked for). */
  function HeaderName(bs: seq<Bookmark>, ts: seq<BookThought>, k: int): string {
    var kb := OfKey(bs, BookmarkChapter, k);
    var kt := OfKey(ts, ThoughtChapter, k);
    if kb != [] then kb[0].chapterName else if kt != [] then kt[0].chapterName else []
  }

  function ChapterBookmarks(bs: seq<Bookmark>, k: int): seq<Bookmark> {
    SortBy(OfKey(bs, BookmarkChapter, k), BookmarkOrder)
  }

  function ChapterThoughts(ts: seq<BookThought>, k: int): seq<BookThought> {
    SortBy(OfKey(ts, ThoughtChapter, k), ThoughtOrder)
  }

  /** What one chapter contributes: its header, its bookmarks, its thoughts. */
  function Group(bs: seq<Bookmark>, ts: seq<BookThought>, k: int): seq<TocMarkListItem> {
    [ChapterHeader(HeaderName(bs, ts, k))]
      + Map(ChapterBookmarks(bs, k), AsBookmarkItem)
      + Map(ChapterThoughts(ts, k), AsThoughtItem)
  }

  function Groups(bs: seq<Bookmark>, ts: seq<BookThought>, ks: seq<int>): seq<TocMarkListItem> {
    if ks == [] then [] else Groups(bs, ts, ks[..|ks| - 1]) + Group(bs, ts, ks[|ks| - 1])
  }

  /** The list `mergeItems` returns. */
  function Merged(bs: seq<Bookmark>, ts: seq<BookThought>): seq<TocMarkListItem> {
    Groups(bs, ts, SortedChapters(bs, ts))
  }

  /** `ChapterBucket`. */
  datatype ChapterBucket = ChapterBucket(chapterName: string, bookmarks: seq<Bookmark>, thoughts: seq<BookThought>)

  function BucketOf(bs: seq<Bookmark>, ts: seq<BookThought>, k: int): ChapterBucket {
    ChapterBucket(HeaderName(bs, ts, k), OfKey(bs, BookmarkChapter, k), OfKey(ts, ThoughtChapter, k))
  }

  /** The insertion-ordered map holds exactly the keys of `order`. */
  ghost predicate KeysMatch(chapterMap: map<int, ChapterBucket>, order: seq<int>) {
    forall k :: k in chapterMap <==> k in order
  }

  /** Every bucket of the map holds its chapter's entries of `bs` and `ts`. */
  ghost predicate BucketsMatch(chapterMap: map<int, ChapterBucket>, bs: seq<Bookmark>, ts: seq<BookThought>) {
    forall k :: k in chapterMap ==> chapterMap[k] == BucketOf(bs, ts, k)
  }

  /** The first `forEach` of `mergeItems`: every bookmark goes into its
      chapter's bucket, created with the bookmark's chapter name on first
      sight. */
  method GatherBookmarks(bookmarks: seq<Bookmark>) returns (chapterMap: map<int, ChapterBucket>, order: seq<int>)
    ensures order == ChaptersSeen(bookmarks, [])
    ensures KeysMatch(chapterMap, order)
    ensures BucketsMatch(chapterMap, bookmarks, [])
  {
    chapterMap, order := map[], [];
    var i := 0;
    while i < |bookmarks|
      invariant 0 <= i <= |bookmarks|
      invariant order == ChaptersSeen(bookmarks[..i], [])
      invariant KeysMatch(chapterMap, order)
      invariant BucketsMatch(chapterMap, bookmarks[..i], [])
    {
      var b := bookmarks[i];
      AddBookmarkAt(chapterMap, order, bookmarks, i);
      if b.chapterIndex !in chapterMap {
        chapterMap := chapterMap[b.chapterIndex := ChapterBucket(b.chapterName, [], [])];
        order := order + [b.chapterIndex];
      }
      var bucket := chapterMap[b.chapterIndex];
      chapterMap := chapterMap[b.chapterIndex := bucket.(bookmarks := bucket.bookmarks + [b])];
      i := i + 1;
    }
    assert bookmarks[..i] == bookmarks;
  }

  /** The second `forEach`: every thought goes into its chapter's bucket; a
      bucket a bookmark already created keeps its name. */
  method GatherThoughts(chapterMap0: map<int, ChapterBucket>, order0: seq<int>, bookmarks: seq<Bookmark>, thoughts: seq<BookThought>)
    returns (chapterMap: map<int, ChapterBucket>, order: seq<int>)
    requires order0 == ChaptersSeen(bookmarks, [])
    requires KeysMatch(chapterMap0, order0)
    requires BucketsMatch(chapterMap0, bookmarks, [])
    ensures order == ChaptersSeen(bookmarks, thoughts)
    ensures KeysMatch(chapterMap, order)
    ensures BucketsMatch(chapterMap, bookmarks, thoughts)
  {
    chapterMap, order := chapterMap0, order0;
    var j := 0;
    assert thoughts[..0] == [];
    while j < |thoughts|
      invariant 0 <= j <= |thoughts|
      invariant order == ChaptersSeen(bookmarks, thoughts[..j])
      invariant KeysMatch(chapterMap, order)
      invariant BucketsMatch(chapterMap, bookmarks, thoughts[..j])
    {
      var t := thoughts[j];
      AddThoughtAt(chapterMap, order, bookmarks, thoughts, j);
      if t.chapterIndex !in chapterMap {
        chapterMap := chapterMap[t.chapterIndex := ChapterBucket(t.chapterName, [], [])];
        order := order + [t.chapterIndex];
      }
      var bucket := chapterMap[t.chapterIndex];
      chapterMap := chapterMap[t.chapterIndex := bucket.(thoughts := bucket.thoughts + [t])];
      j := j + 1;
    }
    assert thoughts[..j] == thoughts;
  }

  /** Emitting the bucket of the next sorted key extends the list by that
      chapter's group. */
  lemma EmitStep(chapterMap: map<int, ChapterBucket>, order: seq<int>, bs: seq<Bookmark>, ts: seq<BookThought>, keys: seq<int>, n: nat)
    requires KeysMatch(chapterMap, order)
    requires BucketsMatch(chapterMap, bs, ts)
    requires multiset(keys) == multiset(order)
    requires n < |keys|
    ensures keys[n] in chapterMap
    ensures Groups(bs, ts, keys[..n + 1]) == Groups(bs, ts, keys[..n])
      + ([ChapterHeader(chapterMap[keys[n]].chapterName)]
        + Map(SortBy(chapterMap[keys[n]].bookmarks, BookmarkOrder), AsBookmarkItem)
        + Map(SortBy(chapterMap[keys[n]].thoughts, ThoughtOrder), AsThoughtItem))
  {
    var k := keys[n];
    assert k in multiset(order);
    assert chapterMap[k] == BucketOf(bs, ts, k);
    var ks := keys[..n + 1];
    assert ks[..|ks| - 1] == keys[..n] && ks[|ks| - 1] == k;
  }

  /** `mergeItems`. */
  method MergeItems(bookmarks: seq<Bookmark>, thoughts: seq<BookThought>) returns (items: seq<TocMarkListItem>)
    ensures items == Merged(bookmarks, thoughts)
  {
    var chapterMap, order := GatherBookmarks(bookmarks);
    chapterMap, order := GatherThoughts(chapterMap, order, bookmarks, thoughts);
    var keys := SortBy(order, ChapterOrder);
    SortByPermutes(order, ChapterOrder);
    items := [];
    var n := 0;
    while n < |keys|
      invariant 0 <= n <= |keys|
      invariant items == Groups(bookmarks, thoughts, keys[..n])
    {
      EmitStep(chapterMap, order, bookmarks, thoughts, keys, n);
      var bucket := chapterMap[keys[n]];
      var group := [ChapterHeader(bucket.chapterName)]
        + Map(SortBy(bucket.bookmarks, BookmarkOrder), AsBookmarkItem)
        + Map(SortBy(bucket.thoughts, ThoughtOrder), AsThoughtItem);
      items := items + group;
      n := n + 1;
    }
    assert keys[..n] == keys;
  }

  /** A chapter is among those seen exactly when it has a bookmark or a
      thought. */
  lemma SeenChapter(bs: seq<Bookmark>, ts: seq<BookThought>, k: int)
    ensures k in ChaptersSeen(bs, ts) <==> OfKey(bs, BookmarkChapter, k) != [] || OfKey(ts, ThoughtChapter, k) != []
  {
    var all := Map(bs, BookmarkChapter) + Map(ts, ThoughtChapter);
    OfKeyEmpty(bs, BookmarkChapter, k);
    OfKeyEmpty(ts, ThoughtChapter, k);
    if k in all {
      var i :| 0 <= i < |all| && all[i] == k;
      assert all[i] in ChaptersSeen(bs, ts);
    }
    if k in ChaptersSeen(bs, ts) {
      var i :| 0 <= i < |ChaptersSeen(bs, ts)| && ChaptersSeen(bs, ts)[i] == k;
      assert k in all;
    }
  }

  lemma BucketAfterBookmark(bs: seq<Bookmark>, b: Bookmark, k: int)
    ensures k != b.chapterIndex ==> BucketOf(bs + [b], [], k) == BucketOf(bs, [], k)
    ensures k == b.chapterIndex ==>
      BucketOf(bs + [b], [], k)
        == ChapterBucket(if OfKey(bs, BookmarkChapter, k) != [] then HeaderName(bs, [], k) else b.chapterName,
                         OfKey(bs, BookmarkChapter, k) + [b], [])
  {
    OfKeySnoc(bs, b, BookmarkChapter, k);
  }

  lemma BucketAfterThought(bs: seq<Bookmark>, ts: seq<BookThought>, t: BookThought, k: int)
    ensures k != t.chapterIndex ==> BucketOf(bs, ts + [t], k) == BucketOf(bs, ts, k)
    ensures k == t.chapterIndex ==>
      BucketOf(bs, ts + [t], k)
        == ChapterBucket(if OfKey(bs, BookmarkChapter, k) != [] || OfKey(ts, ThoughtChapter, k) != []
                         then HeaderName(bs, ts, k) else t.chapterName,
                         OfKey(bs, BookmarkChapter, k), OfKey(ts, ThoughtChapter, k) + [t])
  {
    OfKeySnoc(ts, t, ThoughtChapter, k);
  }

  lemma SeenAfterBookmark(bs: seq<Bookmark>, b: Bookmark)
    ensures ChaptersSeen(bs + [b], [])
      == if b.chapterIndex in ChaptersSeen(bs, []) then ChaptersSeen(bs, []) else ChaptersSeen(bs, []) + [b.chapterIndex]
  {
    MapAppend(bs, [b], BookmarkChapter);
    assert Map(bs + [b], BookmarkChapter) + Map([], ThoughtChapter) == Map(bs, BookmarkChapter) + Map([], ThoughtChapter) + [b.chapterIndex];
    DedupSnoc(Map(bs, BookmarkChapter) + Map([], ThoughtChapter), b.chapterIndex);
  }

  lemma SeenAfterThought(bs: seq<Bookmark>, ts: seq<BookThought>, t: BookThought)
    ensures ChaptersSeen(bs, ts + [t])
      == if t.chapterIndex in ChaptersSeen(bs, ts) then ChaptersSeen(bs, ts) else ChaptersSeen(bs, ts) + [t.chapterIndex]
  {
    MapAppend(ts, [t], ThoughtChapter);
    var seen := Map(bs, BookmarkChapter) + Map(ts, ThoughtChapter);
    assert Map(bs, BookmarkChapter) + Map(ts + [t], ThoughtChapter) == seen + [t.chapterIndex];
    DedupSnoc(seen, t.chapterIndex);
  }

  /** `getOrPut` followed by an update of the same key leaves the keys of the
      map and of its key order in step. */
  lemma KeysAfterPut(chapterMap: map<int, ChapterBucket>, order: seq<int>, k: int, created: ChapterBucket, update: ChapterBucket)
    requires KeysMatch(chapterMap, order)
    ensures var m1 := if k in chapterMap then chapterMap else chapterMap[k := created];
      KeysMatch(m1[k := update], if k in chapterMap then order else order + [k])
  {
  }

  lemma BucketsAfterBookmark(chapterMap: map<int, ChapterBucket>, bs: seq<Bookmark>, b: Bookmark)
    requires BucketsMatch(chapterMap, bs, [])
    requires b.chapterIndex in chapterMap <==> OfKey(bs, BookmarkChapter, b.chapterIndex) != []
    ensures var k := b.chapterIndex;
      var m1 := if k in chapterMap then chapterMap else chapterMap[k := ChapterBucket(b.chapterName, [], [])];
      BucketsMatch(m1[k := m1[k].(bookmarks := m1[k].bookmarks + [b])], bs + [b], [])
  {
    var k := b.chapterIndex;
    var m1 := if k in chapterMap then chapterMap else chapterMap[k := ChapterBucket(b.chapterName, [], [])];
    var m2 := m1[k := m1[k].(bookmarks := m1[k].bookmarks + [b])];
    forall k2 | k2 in m2
      ensures m2[k2] == BucketOf(bs + [b], [], k2)
    {
      BucketAfterBookmark(bs, b, k2);
    }
  }

  lemma BucketsAfterThought(chapterMap: map<int, ChapterBucket>, bs: seq<Bookmark>, ts: seq<BookThought>, t: BookThought)
    requires BucketsMatch(chapterMap, bs, ts)
    requires t.chapterIndex in chapterMap <==>
      OfKey(bs, BookmarkChapter, t.chapterIndex) != [] || OfKey(ts, ThoughtChapter, t.chapterIndex) != []
    ensures var k := t.chapterIndex;
      var m1 := if k in chapterMap then chapterMap else chapterMap[k := ChapterBucket(t.chapterName, [], [])];
      BucketsMatch(m1[k := m1[k].(thoughts := m1[k].thoughts + [t])], bs, ts + [t])
  {
    var k := t.chapterIndex;
    var m1 := if k in chapterMap then chapterMap else chapterMap[k := ChapterBucket(t.chapterName, [], [])];
    var m2 := m1[k := m1[k].(thoughts := m1[k].thoughts + [t])];
    forall k2 | k2 in m2
      ensures m2[k2] == BucketOf(bs, ts + [t], k2)
    {
      BucketAfterThought(bs, ts, t, k2);
    }
  }

  /** One bookmark scanned with `getOrPut`: the map stays the per-chapter
      bucketing of the bookmarks seen so far, in first-seen key order. */
  lemma AddBookmark(chapterMap: map<int, ChapterBucket>, order: seq<int>, bs: seq<Bookmark>, b: Bookmark)
    requires order == ChaptersSeen(bs, [])
    requires KeysMatch(chapterMap, order)
    requires BucketsMatch(chapterMap, bs, [])
    ensures var k := b.chapterIndex;
      var m1 := if k in chapterMap then chapterMap else chapterMap[k := ChapterBucket(b.chapterName, [], [])];
      var o1 := if k in chapterMap then order else order + [k];
      && o1 == ChaptersSeen(bs + [b], [])
      && KeysMatch(m1[k := m1[k].(bookmarks := m1[k].bookmarks + [b])], o1)
      && BucketsMatch(m1[k := m1[k].(bookmarks := m1[k].bookmarks + [b])], bs + [b], [])
  {
    var k := b.chapterIndex;
    SeenAfterBookmark(bs, b);
    SeenChapter(bs, [], k);
    assert k in chapterMap <==> k in order;
    var m1 := if k in chapterMap then chapterMap else chapterMap[k := ChapterBucket(b.chapterName, [], [])];
    KeysAfterPut(chapterMap, order, k, ChapterBucket(b.chapterName, [], []), m1[k].(bookmarks := m1[k].bookmarks + [b]));
    BucketsAfterBookmark(chapterMap, bs, b);
  }

  /** One thought scanned with `getOrPut`; a chapter that already has a
      bucket keeps the name it was created with. */
  lemma AddThought(chapterMap: map<int, ChapterBucket>, order: seq<int>, bs: seq<Bookmark>, ts: seq<BookThought>, t: BookThought)
    requires order == ChaptersSeen(bs, ts)
    requires KeysMatch(chapterMap, order)
    requires BucketsMatch(chapterMap, bs, ts)
    ensures var k := t.chapterIndex;
      var m1 := if k in chapterMap then chapterMap else chapterMap[k := ChapterBucket(t.chapterName, [], [])];
      var o1 := if k in chapterMap then order else order + [k];
      && o1 == ChaptersSeen(bs, ts + [t])
      && KeysMatch(m1[k := m1[k].(thoughts := m1[k].thoughts + [t])], o1)
      && BucketsMatch(m1[k := m1[k].(thoughts := m1[k].thoughts + [t])], bs, ts + [t])
  {
    var k := t.chapterIndex;
    SeenAfterThought(bs, ts, t);
    SeenChapter(bs, ts, k);
    assert k in chapterMap <==> k in order;
    var m1 := if k in chapterMap then chapterMap else chapterMap[k := ChapterBucket(t.chapterName, [], [])];
    KeysAfterPut(chapterMap, order, k, ChapterBucket(t.chapterName, [], []), m1[k].(thoughts := m1[k].thoughts + [t]));
    BucketsAfterThought(chapterMap, bs, ts, t);
  }

  /** `AddBookmark` for the next bookmark of the scanned list. */
  lemma AddBookmarkAt(chapterMap: map<int, ChapterBucket>, order: seq<int>, bookmarks: seq<Bookmark>, i: nat)
    requires i < |bookmarks|
    requires order == ChaptersSeen(bookmarks[..i], [])
    requires KeysMatch(chapterMap, order)
    requires BucketsMatch(chapterMap, bookmarks[..i], [])
    ensures var b := bookmarks[i];
      var k := b.chapterIndex;
      var m1 := if k in chapterMap then chapterMap else chapterMap[k := ChapterBucket(b.chapterName, [], [])];
      var o1 := if k in chapterMap then order else order + [k];
      && o1 == ChaptersSeen(bookmarks[..i + 1], [])
      && KeysMatch(m1[k := m1[k].(bookmarks := m1[k].bookmarks + [b])], o1)
      && BucketsMatch(m1[k := m1[k].(bookmarks := m1[k].bookmarks + [b])], bookmarks[..i + 1], [])
  {
    assert bookmarks[..i + 1] == bookmarks[..i] + [bookmarks[i]];
    AddBookmark(chapterMap, order, bookmarks[..i], bookmarks[i]);
  }

  /** `AddThought` for the next thought of the scanned list. */
  lemma AddThoughtAt(chapterMap: map<int, ChapterBucket>, order: seq<int>, bs: seq<Bookmark>, thoughts: seq<BookThought>, j: nat)
    requires j < |thoughts|
    requires order == ChaptersSeen(bs, thoughts[..j])
    requires KeysMatch(chapterMap, order)
    requires BucketsMatch(chapterMap, bs, thoughts[..j])
    ensures var t := thoughts[j];
      var k := t.chapterIndex;
      var m1 := if k in chapterMap then chapterMap else chapterMap[k := ChapterBucket(t.chapterName, [], [])];
      var o1 := if k in chapterMap then order else order + [k];
      && o1 == ChaptersSeen(bs, thoughts[..j + 1])
      && KeysMatch(m1[k := m1[k].(thoughts := m1[k].thoughts + [t])], o1)
      && BucketsMatch(m1[k := m1[k].(thoughts := m1[k].thoughts + [t])], bs, thoughts[..j + 1])
  {
    assert thoughts[..j + 1] == thoughts[..j] + [thoughts[j]];
    AddThought(chapterMap, order, bs, thoughts[..j], thoughts[j]);
  }
}

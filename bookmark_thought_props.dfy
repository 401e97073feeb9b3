/** What the bookmarks-and-thoughts list promises: chapters ascend, each
    chapter gets one header right before its entries, every bookmark and
    thought appears exactly once, and inside a chapter bookmarks come first,
    each kind in its stable sort order. */
module TocMarkProperties {
  import opened Sequences
  import opened Ordering
  import opened Entities
  import opened BookmarkThoughtFragment

  function BookmarkOf(item: TocMarkListItem): Option<Bookmark> {
    if item.BookmarkItem? then Some(item.bookmark) else None
  }

  function ThoughtOf(item: TocMarkListItem): Option<BookThought> {
    if item.ThoughtItem? then Some(item.thought) else None
  }

  function HeaderOf(item: TocMarkListItem): Option<string> {
    if item.ChapterHeader? then Some(item.chapterName) else None
  }

  /** The chapter a bookmark or thought entry belongs to. */
  function EntryChapter(item: TocMarkListItem): int
    requires !item.ChapterHeader?
  {
    match item
    case BookmarkItem(b) => b.chapterIndex
    case ThoughtItem(t) => t.chapterIndex
  }

  /** The distinct chapter indices of the inputs. */
  function ChapterSet(bs: seq<Bookmark>, ts: seq<BookThought>): set<int> {
    (set i | 0 <= i < |bs| :: bs[i].chapterIndex) + (set i | 0 <= i < |ts| :: ts[i].chapterIndex)
  }

  /** Entries never go back to an earlier chapter. */
  predicate ChaptersNonDecreasing(items: seq<TocMarkListItem>) {
    forall i, j :: 0 <= i < j < |items| && !items[i].ChapterHeader? && !items[j].ChapterHeader? ==>
      EntryChapter(items[i]) <= EntryChapter(items[j])
  }

  /** Entries on the two sides of a header belong to different chapters. */
  predicate HeadersSeparate(items: seq<TocMarkListItem>) {
    forall i, j, l :: 0 <= i < j < l < |items| && !items[i].ChapterHeader? && items[j].ChapterHeader? && !items[l].ChapterHeader? ==>
      EntryChapter(items[i]) < EntryChapter(items[l])
  }

  /** The list opens with a header, and every header is followed by an entry. */
  predicate HeadersLead(items: seq<TocMarkListItem>) {
    && (items != [] ==> items[0].ChapterHeader?)
    && forall j :: 0 <= j < |items| && items[j].ChapterHeader? ==> j + 1 < |items| && !items[j + 1].ChapterHeader?
  }

  predicate Layout(items: seq<TocMarkListItem>) {
    ChaptersNonDecreasing(items) && HeadersSeparate(items) && HeadersLead(items)
  }

  /** Every item is exactly one of header, bookmark and thought. */
  lemma {:induction false} ItemsPartition(items: seq<TocMarkListItem>)
    ensures |items| == |MapNotNull(items, HeaderOf)| + |MapNotNull(items, BookmarkOf)| + |MapNotNull(items, ThoughtOf)|
    decreases |items|
  {
    if items != [] {
      ItemsPartition(items[..|items| - 1]);
    }
  }

  /** Emitting chapters in order: strictly ascending, and exactly the chapters
      some bookmark or thought is in. */
  lemma SortedChaptersAscending(bs: seq<Bookmark>, ts: seq<BookThought>)
    ensures var ks := SortedChapters(bs, ts);
      forall i, j :: 0 <= i < j < |ks| ==> ks[i] < ks[j]
    ensures forall k :: k in SortedChapters(bs, ts) <==> k in ChapterSet(bs, ts)
  {
    var seen := ChaptersSeen(bs, ts);
    var ks := SortedChapters(bs, ts);
    SortByPermutes(seen, ChapterOrder);
    SortByIsSorted(seen, ChapterOrder);
    DistinctPermutation(seen, ks);
    forall i, j | 0 <= i < j < |ks|
      ensures ks[i] < ks[j]
    {
      LexSingle(ks[i], ks[j]);
    }
    forall k
      ensures k in ks <==> k in ChapterSet(bs, ts)
    {
      assert k in ks <==> k in multiset(seen);
      SeenIsChapterSet(bs, ts, k);
    }
  }

  /** The chapters the scan meets are the chapter indices of the inputs. */
  lemma SeenIsChapterSet(bs: seq<Bookmark>, ts: seq<BookThought>, k: int)
    ensures k in ChaptersSeen(bs, ts) <==> k in ChapterSet(bs, ts)
  {
    SeenChapter(bs, ts, k);
    OfKeyEmpty(bs, BookmarkChapter, k);
    OfKeyEmpty(ts, ThoughtChapter, k);
    var mb, mt := Map(bs, BookmarkChapter), Map(ts, ThoughtChapter);
    if k in mb {
      var i :| 0 <= i < |mb| && mb[i] == k;
      assert bs[i].chapterIndex == k;
    }
    if k in mt {
      var i :| 0 <= i < |mt| && mt[i] == k;
      assert ts[i].chapterIndex == k;
    }
    if k in ChapterSet(bs, ts) {
      if i :| 0 <= i < |bs| && bs[i].chapterIndex == k {
        assert mb[i] == k;
      } else {
        var i :| 0 <= i < |ts| && ts[i].chapterIndex == k;
        assert mt[i] == k;
      }
    }
  }

  /** As many chapters are emitted as there are distinct chapter indices. */
  lemma SortedChaptersCount(bs: seq<Bookmark>, ts: seq<BookThought>)
    ensures |SortedChapters(bs, ts)| == |ChapterSet(bs, ts)|
  {
    var ks := SortedChapters(bs, ts);
    SortedChaptersAscending(bs, ts);
    assert Distinct(ks);
    DistinctCardinality(ks);
    assert (set x | x in ks) == ChapterSet(bs, ts);
  }

  /** What one chapter's group holds, kind by kind. */
  lemma GroupProjections(bs: seq<Bookmark>, ts: seq<BookThought>, k: int)
    ensures MapNotNull(Group(bs, ts, k), HeaderOf) == [HeaderName(bs, ts, k)]
    ensures MapNotNull(Group(bs, ts, k), BookmarkOf) == ChapterBookmarks(bs, k)
    ensures MapNotNull(Group(bs, ts, k), ThoughtOf) == ChapterThoughts(ts, k)
  {
    var h := [ChapterHeader(HeaderName(bs, ts, k))];
    var mb := Map(ChapterBookmarks(bs, k), AsBookmarkItem);
    var mt := Map(ChapterThoughts(ts, k), AsThoughtItem);
    assert MapNotNull(h, HeaderOf) == [HeaderName(bs, ts, k)] by {
      assert h[..0] == [];
    }
    assert MapNotNull(h, BookmarkOf) == [] && MapNotNull(h, ThoughtOf) == [] by {
      assert h[..0] == [];
    }
    MapNotNullAppend(h + mb, mt, HeaderOf);
    MapNotNullAppend(h, mb, HeaderOf);
    MapNotNullAppend(h + mb, mt, BookmarkOf);
    MapNotNullAppend(h, mb, BookmarkOf);
    MapNotNullAppend(h + mb, mt, ThoughtOf);
    MapNotNullAppend(h, mb, ThoughtOf);
    MapNotNullOfMapNone(ChapterBookmarks(bs, k), AsBookmarkItem, HeaderOf);
    MapNotNullOfMap(ChapterBookmarks(bs, k), AsBookmarkItem, BookmarkOf);
    MapNotNullOfMapNone(ChapterBookmarks(bs, k), AsBookmarkItem, ThoughtOf);
    MapNotNullOfMapNone(ChapterThoughts(ts, k), AsThoughtItem, HeaderOf);
    MapNotNullOfMapNone(ChapterThoughts(ts, k), AsThoughtItem, BookmarkOf);
    MapNotNullOfMap(ChapterThoughts(ts, k), AsThoughtItem, ThoughtOf);
  }

  /** Over a run of chapters: one header each, and each chapter's bookmarks
      and thoughts, rearranged. */
  lemma {:induction false} GroupsProjections(bs: seq<Bookmark>, ts: seq<BookThought>, ks: seq<int>)
    ensures |MapNotNull(Groups(bs, ts, ks), HeaderOf)| == |ks|
    ensures multiset(MapNotNull(Groups(bs, ts, ks), BookmarkOf)) == multiset(ConcatOfKeys(bs, BookmarkChapter, ks))
    ensures multiset(MapNotNull(Groups(bs, ts, ks), ThoughtOf)) == multiset(ConcatOfKeys(ts, ThoughtChapter, ks))
    decreases |ks|
  {
    if ks != [] {
      var n := |ks| - 1;
      var k := ks[n];
      GroupsProjections(bs, ts, ks[..n]);
      GroupProjections(bs, ts, k);
      MapNotNullAppend(Groups(bs, ts, ks[..n]), Group(bs, ts, k), HeaderOf);
      MapNotNullAppend(Groups(bs, ts, ks[..n]), Group(bs, ts, k), BookmarkOf);
      MapNotNullAppend(Groups(bs, ts, ks[..n]), Group(bs, ts, k), ThoughtOf);
      SortByPermutes(OfKey(bs, BookmarkChapter, k), BookmarkOrder);
      SortByPermutes(OfKey(ts, ThoughtChapter, k), ThoughtOrder);
    }
  }

  /** Every input's chapter is emitted. */
  lemma InputsCovered(bs: seq<Bookmark>, ts: seq<BookThought>)
    ensures forall i :: 0 <= i < |bs| ==> BookmarkChapter(bs[i]) in SortedChapters(bs, ts)
    ensures forall i :: 0 <= i < |ts| ==> ThoughtChapter(ts[i]) in SortedChapters(bs, ts)
  {
    SortedChaptersAscending(bs, ts);
    forall i | 0 <= i < |bs|
      ensures BookmarkChapter(bs[i]) in SortedChapters(bs, ts)
    {
      assert bs[i].chapterIndex in ChapterSet(bs, ts);
    }
    forall i | 0 <= i < |ts|
      ensures ThoughtChapter(ts[i]) in SortedChapters(bs, ts)
    {
      assert ts[i].chapterIndex in ChapterSet(bs, ts);
    }
  }

  /** Every bookmark and every thought appears exactly once, there is one
      header per distinct chapter, and so the list is as long as the chapters,
      bookmarks and thoughts together; empty inputs give an empty list. */
  lemma MergedContents(bs: seq<Bookmark>, ts: seq<BookThought>)
    ensures multiset(MapNotNull(Merged(bs, ts), BookmarkOf)) == multiset(bs)
    ensures multiset(MapNotNull(Merged(bs, ts), ThoughtOf)) == multiset(ts)
    ensures |MapNotNull(Merged(bs, ts), HeaderOf)| == |ChapterSet(bs, ts)|
    ensures |Merged(bs, ts)| == |ChapterSet(bs, ts)| + |bs| + |ts|
    ensures Merged(bs, ts) == [] <==> bs == [] && ts == []
  {
    var ks := SortedChapters(bs, ts);
    var items := Merged(bs, ts);
    SortedChaptersAscending(bs, ts);
    SortedChaptersCount(bs, ts);
    GroupsProjections(bs, ts, ks);
    assert Distinct(ks);
    InputsCovered(bs, ts);
    ConcatOfKeysPermutes(bs, BookmarkChapter, ks);
    ConcatOfKeysPermutes(ts, ThoughtChapter, ks);
    ItemsPartition(items);
    assert |MapNotNull(items, BookmarkOf)| == |multiset(bs)| == |bs|;
    assert |MapNotNull(items, ThoughtOf)| == |multiset(ts)| == |ts|;
    if bs != [] {
      assert bs[0].chapterIndex in ChapterSet(bs, ts);
    } else if ts != [] {
      assert ts[0].chapterIndex in ChapterSet(bs, ts);
    } else {
      assert ChapterSet(bs, ts) == {};
    }
  }

  /** A chapter's bookmarks: ordered by position, the chapter's bookmarks
      exactly, and bookmarks at the same position in input order. */
  lemma ChapterBookmarksOrder(bs: seq<Bookmark>, k: int)
    ensures var cb := ChapterBookmarks(bs, k);
      forall i, j :: 0 <= i < j < |cb| ==> cb[i].chapterPos <= cb[j].chapterPos
    ensures multiset(ChapterBookmarks(bs, k)) == multiset(OfKey(bs, BookmarkChapter, k))
    ensures forall p :: OfKey(ChapterBookmarks(bs, k), BookmarkOrder, [p]) == OfKey(OfKey(bs, BookmarkChapter, k), BookmarkOrder, [p])
  {
    var cb := ChapterBookmarks(bs, k);
    SortByIsSorted(OfKey(bs, BookmarkChapter, k), BookmarkOrder);
    SortByPermutes(OfKey(bs, BookmarkChapter, k), BookmarkOrder);
    forall i, j | 0 <= i < j < |cb|
      ensures cb[i].chapterPos <= cb[j].chapterPos
    {
      LexSingle(cb[i].chapterPos, cb[j].chapterPos);
    }
    forall p
      ensures OfKey(cb, BookmarkOrder, [p]) == OfKey(OfKey(bs, BookmarkChapter, k), BookmarkOrder, [p])
    {
      SortByStable(OfKey(bs, BookmarkChapter, k), BookmarkOrder, [p]);
    }
  }

  /** A chapter's thoughts: ordered by position and then creation time, the
      chapter's thoughts exactly, and full ties in input order. */
  lemma ChapterThoughtsOrder(ts: seq<BookThought>, k: int)
    ensures var ct := ChapterThoughts(ts, k);
      forall i, j :: 0 <= i < j < |ct| ==>
        ct[i].chapterPos < ct[j].chapterPos
        || (ct[i].chapterPos == ct[j].chapterPos && ct[i].createTime <= ct[j].createTime)
    ensures multiset(ChapterThoughts(ts, k)) == multiset(OfKey(ts, ThoughtChapter, k))
    ensures forall p, c :: OfKey(ChapterThoughts(ts, k), ThoughtOrder, [p, c]) == OfKey(OfKey(ts, ThoughtChapter, k), ThoughtOrder, [p, c])
  {
    var ct := ChapterThoughts(ts, k);
    SortByIsSorted(OfKey(ts, ThoughtChapter, k), ThoughtOrder);
    SortByPermutes(OfKey(ts, ThoughtChapter, k), ThoughtOrder);
    forall i, j | 0 <= i < j < |ct|
      ensures ct[i].chapterPos < ct[j].chapterPos
        || (ct[i].chapterPos == ct[j].chapterPos && ct[i].createTime <= ct[j].createTime)
    {
      LexPair(ct[i].chapterPos, ct[i].createTime, ct[j].chapterPos, ct[j].createTime);
    }
    forall p, c
      ensures OfKey(ct, ThoughtOrder, [p, c]) == OfKey(OfKey(ts, ThoughtChapter, k), ThoughtOrder, [p, c])
    {
      SortByStable(OfKey(ts, ThoughtChapter, k), ThoughtOrder, [p, c]);
    }
  }

  /** Everything in a chapter's sorted bucket belongs to that chapter. */
  lemma ChapterEntriesBelong(bs: seq<Bookmark>, ts: seq<BookThought>, k: int)
    ensures forall b :: b in ChapterBookmarks(bs, k) ==> b.chapterIndex == k
    ensures forall t :: t in ChapterThoughts(ts, k) ==> t.chapterIndex == k
  {
    SortByPermutes(OfKey(bs, BookmarkChapter, k), BookmarkOrder);
    SortByPermutes(OfKey(ts, ThoughtChapter, k), ThoughtOrder);
    forall b | b in ChapterBookmarks(bs, k)
      ensures b.chapterIndex == k
    {
      assert b in multiset(OfKey(bs, BookmarkChapter, k));
    }
    forall t | t in ChapterThoughts(ts, k)
      ensures t.chapterIndex == k
    {
      assert t in multiset(OfKey(ts, ThoughtChapter, k));
    }
  }

  /** One chapter's group: its header first, then only entries of that
      chapter, all bookmarks before all thoughts. */
  lemma GroupShape(bs: seq<Bookmark>, ts: seq<BookThought>, k: int)
    ensures var g := Group(bs, ts, k);
      && g[0] == ChapterHeader(HeaderName(bs, ts, k))
      && (forall i :: 1 <= i < |g| ==> !g[i].ChapterHeader? && EntryChapter(g[i]) == k)
      && (forall i, j :: 0 <= i < j < |g| && g[i].ThoughtItem? ==> g[j].ThoughtItem?)
  {
    var g := Group(bs, ts, k);
    var cb, ct := ChapterBookmarks(bs, k), ChapterThoughts(ts, k);
    var mb, mt := Map(cb, AsBookmarkItem), Map(ct, AsThoughtItem);
    ChapterEntriesBelong(bs, ts, k);
    forall i | 1 <= i < |g|
      ensures !g[i].ChapterHeader? && EntryChapter(g[i]) == k
    {
      if i < 1 + |cb| {
        assert g[i] == mb[i - 1] == BookmarkItem(cb[i - 1]);
      } else {
        assert g[i] == mt[i - 1 - |cb|] == ThoughtItem(ct[i - 1 - |cb|]);
      }
    }
    forall i, j | 0 <= i < j < |g| && g[i].ThoughtItem?
      ensures g[j].ThoughtItem?
    {
      assert g[j] == mt[j - 1 - |cb|];
    }
  }

  /** A chapter that is emitted has at least one entry. */
  lemma EmittedGroupNonEmpty(bs: seq<Bookmark>, ts: seq<BookThought>, k: int)
    requires k in SortedChapters(bs, ts)
    ensures |Group(bs, ts, k)| >= 2
  {
    SortByPermutes(ChaptersSeen(bs, ts), ChapterOrder);
    assert k in multiset(ChaptersSeen(bs, ts));
    SeenChapter(bs, ts, k);
    SortByPermutes(OfKey(bs, BookmarkChapter, k), BookmarkOrder);
    SortByPermutes(OfKey(ts, ThoughtChapter, k), ThoughtOrder);
  }

  /** Appending a later chapter's group keeps the layout. */
  lemma LayoutAppend(a: seq<TocMarkListItem>, g: seq<TocMarkListItem>, k: int)
    requires Layout(a)
    requires forall i :: 0 <= i < |a| && !a[i].ChapterHeader? ==> EntryChapter(a[i]) < k
    requires |g| >= 2 && g[0].ChapterHeader?
    requires forall i :: 1 <= i < |g| ==> !g[i].ChapterHeader? && EntryChapter(g[i]) == k
    ensures Layout(a + g)
  {
    var r := a + g;
    forall i, j | 0 <= i < j < |r| && !r[i].ChapterHeader? && !r[j].ChapterHeader?
      ensures EntryChapter(r[i]) <= EntryChapter(r[j])
    {
      if j < |a| {
        assert r[i] == a[i] && r[j] == a[j];
      } else if i < |a| {
        assert r[i] == a[i] && r[j] == g[j - |a|];
      } else {
        assert r[i] == g[i - |a|] && r[j] == g[j - |a|];
      }
    }
    forall i, j, l | 0 <= i < j < l < |r| && !r[i].ChapterHeader? && r[j].ChapterHeader? && !r[l].ChapterHeader?
      ensures EntryChapter(r[i]) < EntryChapter(r[l])
    {
      if l < |a| {
        assert r[i] == a[i] && r[j] == a[j] && r[l] == a[l];
      } else if i < |a| {
        assert r[i] == a[i] && r[l] == g[l - |a|];
      }
    }
    forall j | 0 <= j < |r| && r[j].ChapterHeader?
      ensures j + 1 < |r| && !r[j + 1].ChapterHeader?
    {
      if j < |a| {
        assert r[j] == a[j];
        assert r[j + 1] == a[j + 1];
      } else {
        assert r[j] == g[j - |a|];
        assert j == |a|;
        assert r[j + 1] == g[1];
      }
    }
    if a == [] {
      assert r[0] == g[0];
    } else {
      assert r[0] == a[0];
    }
  }

  /** Entries of the earlier chapters lie below the last chapter. */
  lemma EntriesBelowLast(a: seq<TocMarkListItem>, ks: seq<int>)
    requires forall i, j :: 0 <= i < j < |ks| ==> ks[i] < ks[j]
    requires ks != []
    requires forall i :: 0 <= i < |a| && !a[i].ChapterHeader? ==> EntryChapter(a[i]) in ks[..|ks| - 1]
    ensures forall i :: 0 <= i < |a| && !a[i].ChapterHeader? ==> EntryChapter(a[i]) < ks[|ks| - 1]
  {
    var n := |ks| - 1;
    forall i | 0 <= i < |a| && !a[i].ChapterHeader?
      ensures EntryChapter(a[i]) < ks[n]
    {
      var m :| 0 <= m < n && ks[..n][m] == EntryChapter(a[i]);
      assert ks[m] == EntryChapter(a[i]);
    }
  }

  /** Over strictly ascending emitted chapters, the list keeps the layout and
      holds entries of those chapters only. */
  lemma {:induction false} GroupsLayout(bs: seq<Bookmark>, ts: seq<BookThought>, ks: seq<int>)
    requires forall i, j :: 0 <= i < j < |ks| ==> ks[i] < ks[j]
    requires forall i :: 0 <= i < |ks| ==> |Group(bs, ts, ks[i])| >= 2
    ensures Layout(Groups(bs, ts, ks))
    ensures forall i :: 0 <= i < |Groups(bs, ts, ks)| && !Groups(bs, ts, ks)[i].ChapterHeader? ==>
      EntryChapter(Groups(bs, ts, ks)[i]) in ks
    decreases |ks|
  {
    if ks != [] {
      var n := |ks| - 1;
      var k := ks[n];
      var a := Groups(bs, ts, ks[..n]);
      var g := Group(bs, ts, k);
      GroupsLayout(bs, ts, ks[..n]);
      GroupShape(bs, ts, k);
      EntriesBelowLast(a, ks);
      LayoutAppend(a, g, k);
      var r := a + g;
      forall i | 0 <= i < |r| && !r[i].ChapterHeader?
        ensures EntryChapter(r[i]) in ks
      {
        if i < |a| {
          assert r[i] == a[i];
          assert EntryChapter(a[i]) in ks[..n];
        } else {
          assert r[i] == g[i - |a|];
        }
      }
    }
  }

  /** The whole list: chapters never go back, a header stands between
      different chapters, and each header opens its chapter's entries. */
  lemma MergedLayout(bs: seq<Bookmark>, ts: seq<BookThought>)
    ensures Layout(Merged(bs, ts))
  {
    var ks := SortedChapters(bs, ts);
    SortedChaptersAscending(bs, ts);
    forall i | 0 <= i < |ks|
      ensures |Group(bs, ts, ks[i])| >= 2
    {
      EmittedGroupNonEmpty(bs, ts, ks[i]);
    }
    GroupsLayout(bs, ts, ks);
  }

  /** An entry of the scan `mergeItems` performs: bookmarks first, then
      thoughts, each with the chapter index and name it carries. */
  datatype Sighting = Sighting(chapterIndex: int, chapterName: string)

  function BookmarkSighting(b: Bookmark): Sighting { Sighting(b.chapterIndex, b.chapterName) }
  function ThoughtSighting(t: BookThought): Sighting { Sighting(t.chapterIndex, t.chapterName) }
  function SightingChapter(s: Sighting): int { s.chapterIndex }

  function Scan(bs: seq<Bookmark>, ts: seq<BookThought>): seq<Sighting> {
    Map(bs, BookmarkSighting) + Map(ts, ThoughtSighting)
  }

  /** A header is named after the first item the scan meets in its chapter. */
  lemma HeaderNameFirstSeen(bs: seq<Bookmark>, ts: seq<BookThought>, k: int)
    ensures var hits := OfKey(Scan(bs, ts), SightingChapter, k);
      hits != [] ==> HeaderName(bs, ts, k) == hits[0].chapterName
  {
    OfKeyAppend(Map(bs, BookmarkSighting), Map(ts, ThoughtSighting), SightingChapter, k);
    OfKeyMap(bs, BookmarkSighting, BookmarkChapter, SightingChapter, k);
    OfKeyMap(ts, ThoughtSighting, ThoughtChapter, SightingChapter, k);
  }
}

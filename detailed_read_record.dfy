/** Per-session reading records (`DetailedReadRecordHelper` and
    `DetailedReadRecordTracker`): the export grouped by book, its JSON form,
    the guards on inserting a session, the import of an export, and the
    start/stop tracker that produces sessions. */
module DetailedReadRecordHelper {
  import opened Sequences
  import opened Ordering
  import opened KotlinText
  import opened Entities

  /** `MIN_SESSION_DURATION`: a session must last longer than a minute. */
  const MinSessionDuration := 60000

  const LongMin := -0x8000_0000_0000_0000
  const LongMax := 0x7FFF_FFFF_FFFF_FFFF

  predicate IsLong(x: int) {
    LongMin <= x <= LongMax
  }

  /** Kotlin `Long` arithmetic: the result taken modulo 2^64 into the signed
      range. */
  function Wrap64(x: int): (r: int)
    ensures IsLong(r)
    ensures (r - x) % 0x1_0000_0000_0000_0000 == 0
    ensures IsLong(x) ==> r == x
  {
    (x - LongMin) % 0x1_0000_0000_0000_0000 + LongMin
  }

  /** The duration test of `insertSession` and `insertFromExport`, on the
      exact difference of the two times. */
  predicate LongEnough(startTime: int, endTime: int) {
    endTime - startTime > MinSessionDuration
  }

  /** The same test as written, with `endTime - startTime` computed in `Long`. */
  predicate LongEnoughAsWritten(startTime: int, endTime: int) {
    Wrap64(endTime - startTime) > MinSessionDuration
  }

  /** Without overflow the two tests agree. */
  lemma LongEnoughAgrees(startTime: int, endTime: int)
    requires IsLong(endTime - startTime)
    ensures LongEnoughAsWritten(startTime, endTime) <==> LongEnough(startTime, endTime)
  {
  }

  /** A session that ends before it starts passes the test as written. */
  lemma BackwardsSessionAccepted()
    ensures IsLong(1) && IsLong(LongMin)
    ensures LongEnoughAsWritten(1, LongMin)
    ensures !LongEnough(1, LongMin)
  {
    assert Wrap64(LongMin - 1) == LongMax;
  }

  /** A session passes the exact test only when it ends more than a minute
      after it starts; the minute itself is excluded. */
  lemma LongEnoughBoundary(startTime: int)
    ensures !LongEnough(startTime, startTime + MinSessionDuration)
    ensures LongEnough(startTime, startTime + MinSessionDuration + 1)
    ensures forall endTime :: LongEnough(startTime, endTime) ==> endTime > startTime
  {
  }

  // ---------------------------------------------------------------- export

  /** `DetailedReadSession`. */
  datatype DetailedReadSession = DetailedReadSession(startTime: int, endTime: int)

  /** `DetailedReadRecordExport`. */
  datatype DetailedReadRecordExport = DetailedReadRecordExport(bookName: string, sessions: seq<DetailedReadSession>)

  function RecordBook(r: DetailedReadRecord): string { r.bookName }
  /** `sortedBy { it.startTime }`. */
  function StartOrder(r: DetailedReadRecord): seq<int> { [r.startTime] }
  /** `String.compareTo`, for `sortedBy { it.bookName }` and `toSortedMap()`. */
  function NameOrder(name: string): seq<int> { Codes(name) }
  function ExportOrder(e: DetailedReadRecordExport): seq<int> { Codes(e.bookName) }
  function ExportName(e: DetailedReadRecordExport): string { e.bookName }
  function AsSession(r: DetailedReadRecord): DetailedReadSession { DetailedReadSession(r.startTime, r.endTime) }

  /** The keys of `groupBy { it.bookName }`, in first-seen order. */
  function BookNames(records: seq<DetailedReadRecord>): seq<string> {
    Dedup(Map(records, RecordBook))
  }

  /** The keys of `groupBy { it.bookName }.toSortedMap()`. */
  function SortedBookNames(records: seq<DetailedReadRecord>): seq<string> {
    SortBy(BookNames(records), NameOrder)
  }

  /** One book's records, by start time, as sessions. */
  function BookSessions(records: seq<DetailedReadRecord>, name: string): seq<DetailedReadSession> {
    Map(SortBy(OfKey(records, RecordBook, name), StartOrder), AsSession)
  }

  /** The `map { (bookName, sessions) -> .. }` step. */
  function BookExport(records: seq<DetailedReadRecord>): string -> DetailedReadRecordExport {
    name => DetailedReadRecordExport(name, BookSessions(records, name))
  }

  /** `buildExport`. */
  function BuildExport(records: seq<DetailedReadRecord>): seq<DetailedReadRecordExport> {
    if records == [] then []
    else SortBy(Map(BookNames(records), BookExport(records)), ExportOrder)
  }

  /** Sorting the exports by name is visiting the sorted book names: the
      order `buildExportJson` uses. */
  lemma BuildExportBySortedNames(records: seq<DetailedReadRecord>)
    ensures BuildExport(records) == Map(SortedBookNames(records), BookExport(records))
  {
    assert forall a :: ExportOrder(BookExport(records)(a)) == NameOrder(a);
    SortByMap(BookNames(records), BookExport(records), ExportOrder, NameOrder);
  }

  /** The book names the records mention, each once. */
  lemma BookNamesCover(records: seq<DetailedReadRecord>)
    ensures Distinct(SortedBookNames(records))
    ensures forall name :: name in SortedBookNames(records) <==> name in Map(records, RecordBook)
  {
    var names := BookNames(records);
    SortByPermutes(names, NameOrder);
    DistinctPermutation(names, SortedBookNames(records));
    forall name
      ensures name in SortedBookNames(records) <==> name in Map(records, RecordBook)
    {
      assert name in SortedBookNames(records) <==> name in multiset(names);
    }
  }

  /** The export is empty exactly when there are no records. */
  lemma BuildExportEmpty(records: seq<DetailedReadRecord>)
    ensures BuildExport(records) == [] <==> records == []
  {
    if records != [] {
      var names := BookNames(records);
      assert Map(records, RecordBook)[0] in names;
      SortByPermutes(Map(names, BookExport(records)), ExportOrder);
    }
  }

  /** One entry per book the records mention, in strictly ascending name
      order. */
  lemma ExportBooks(records: seq<DetailedReadRecord>)
    ensures var e := BuildExport(records);
      forall i, j :: 0 <= i < j < |e| ==>
        LexLe(Codes(e[i].bookName), Codes(e[j].bookName)) && e[i].bookName != e[j].bookName
    ensures forall name :: name in Map(BuildExport(records), ExportName) <==> name in Map(records, RecordBook)
  {
    var e := BuildExport(records);
    var names := SortedBookNames(records);
    BuildExportBySortedNames(records);
    BookNamesCover(records);
    SortByIsSorted(BookNames(records), NameOrder);
    assert forall i :: 0 <= i < |e| ==> e[i].bookName == names[i];
    assert Map(e, ExportName) == names;
  }

  /** Each entry holds that book's records, as sessions, ordered by start
      time. */
  lemma ExportSessions(records: seq<DetailedReadRecord>, i: nat)
    requires i < |BuildExport(records)|
    ensures var e := BuildExport(records)[i];
      && (forall a, b :: 0 <= a < b < |e.sessions| ==> e.sessions[a].startTime <= e.sessions[b].startTime)
      && multiset(e.sessions) == multiset(Map(OfKey(records, RecordBook, e.bookName), AsSession))
  {
    BuildExportBySortedNames(records);
    var e := BuildExport(records)[i];
    var name := SortedBookNames(records)[i];
    assert e == BookExport(records)(name);
    var sorted := SortBy(OfKey(records, RecordBook, name), StartOrder);
    SortByIsSorted(OfKey(records, RecordBook, name), StartOrder);
    SortByPermutes(OfKey(records, RecordBook, name), StartOrder);
    MapPermutes(sorted, OfKey(records, RecordBook, name), AsSession);
    forall a, b | 0 <= a < b < |e.sessions|
      ensures e.sessions[a].startTime <= e.sessions[b].startTime
    {
      LexSingle(sorted[a].startTime, sorted[b].startTime);
    }
  }

  // ------------------------------------------------------------ export JSON

  /** The JSON tree `buildExportJson` builds with Gson. */
  datatype Json =
    | JNumber(n: int)
    | JString(s: string)
    | JObject(members: seq<(string, Json)>)
    | JArray(elements: seq<Json>)

  /** What `buildExportJson` returns: the literal `"[]"` for no records,
      otherwise Gson's rendering of a tree, which is not part of this model. */
  datatype JsonText = Literal(text: string) | Serialized(root: Json)

  function SessionJson(s: DetailedReadSession): Json {
    JObject([("startTime", JNumber(s.startTime)), ("endTime", JNumber(s.endTime))])
  }

  function ExportJson(e: DetailedReadRecordExport): Json {
    JObject([("bookName", JString(e.bookName)), ("sessions", JArray(Map(e.sessions, SessionJson)))])
  }

  /** `buildExportJson`: the same books in the same order, and the same
      sessions in the same order, as `buildExport`. */
  method BuildExportJson(records: seq<DetailedReadRecord>) returns (out: JsonText)
    ensures records == [] ==> out == Literal("[]")
    ensures records != [] ==> out == Serialized(JArray(Map(BuildExport(records), ExportJson)))
  {
    if records == [] {
      return Literal("[]");
    }
    var names := SortBy(BookNames(records), NameOrder);
    var root: seq<Json> := [];
    var i := 0;
    while i < |names|
      invariant 0 <= i <= |names|
      invariant root == Map(Map(names[..i], BookExport(records)), ExportJson)
    {
      var name := names[i];
      var sessions := SortBy(OfKey(records, RecordBook, name), StartOrder);
      var sessionArray: seq<Json> := [];
      var j := 0;
      while j < |sessions|
        invariant 0 <= j <= |sessions|
        invariant sessionArray == Map(Map(sessions[..j], AsSession), SessionJson)
      {
        var session := sessions[j];
        var sessionObj := JObject([("startTime", JNumber(session.startTime)), ("endTime", JNumber(session.endTime))]);
        MapMapSnoc(sessions, j, AsSession, SessionJson);
        sessionArray := sessionArray + [sessionObj];
        j := j + 1;
      }
      assert sessions[..j] == sessions;
      var obj := JObject([("bookName", JString(name)), ("sessions", JArray(sessionArray))]);
      MapMapSnoc(names, i, BookExport(records), ExportJson);
      root := root + [obj];
      i := i + 1;
    }
    assert names[..i] == names;
    BuildExportBySortedNames(records);
    return Serialized(JArray(root));
  }

  /** One more element through two `map`s. */
  lemma MapMapSnoc<A, B, C>(s: seq<A>, i: nat, f: A -> B, g: B -> C)
    requires i < |s|
    ensures Map(Map(s[..i + 1], f), g) == Map(Map(s[..i], f), g) + [g(f(s[i]))]
  {
  }

  // ---------------------------------------------------------------- insert

  /** `insertSession`, with the duration test on the exact difference: the
      record handed to the database, if any. */
  function SessionToInsert(enabled: bool, bookName: string, startTime: int, endTime: int): (r: Option<DetailedReadRecord>)
    ensures r.Some? <==> enabled && LongEnough(startTime, endTime) && !IsBlank(bookName)
    ensures r.Some? ==> r.value == DetailedReadRecord(0, bookName, startTime, endTime)
    ensures r.Some? ==> r.value.endTime > r.value.startTime + MinSessionDuration
  {
    if !enabled then None
    else if !LongEnough(startTime, endTime) then None
    else if IsBlank(bookName) then None
    else Some(DetailedReadRecord(0, bookName, startTime, endTime))
  }

  /** `insertSession` as written: the duration is the wrapping `Long`
      difference. */
  function SessionToInsertAsWritten(enabled: bool, bookName: string, startTime: int, endTime: int): Option<DetailedReadRecord> {
    if !enabled then None
    else if !LongEnoughAsWritten(startTime, endTime) then None
    else if IsBlank(bookName) then None
    else Some(DetailedReadRecord(0, bookName, startTime, endTime))
  }

  /** The two versions of `insertSession` differ only where `endTime -
      startTime` overflows a `Long`. */
  lemma SessionToInsertAgrees(enabled: bool, bookName: string, startTime: int, endTime: int)
    requires IsLong(endTime - startTime)
    ensures SessionToInsertAsWritten(enabled, bookName, startTime, endTime) == SessionToInsert(enabled, bookName, startTime, endTime)
  {
    LongEnoughAgrees(startTime, endTime);
  }

  /** As written, `insertSession` records a session that ends before it
      starts; the corrected version does not. */
  lemma BackwardsSessionInserted()
    ensures SessionToInsertAsWritten(true, "a", 1, LongMin) == Some(DetailedReadRecord(0, "a", 1, LongMin))
    ensures SessionToInsert(true, "a", 1, LongMin) == None
  {
    BackwardsSessionAccepted();
    assert !IsWhitespace('a');
    assert !IsBlank("a") by {
      assert "a"[0] == 'a';
    }
  }

  /** The `mapNotNull` step of `insertFromExport` for one book. */
  function ImportFor(bookName: string): DetailedReadSession -> Option<DetailedReadRecord> {
    (s: DetailedReadSession) => if !LongEnough(s.startTime, s.endTime) || IsBlank(bookName) then None
                                 else Some(DetailedReadRecord(0, bookName, s.startTime, s.endTime))
  }

  /** The `mapNotNull` step of `insertFromExport` as written. */
  function ImportForAsWritten(bookName: string): DetailedReadSession -> Option<DetailedReadRecord> {
    (s: DetailedReadSession) => if !LongEnoughAsWritten(s.startTime, s.endTime) || IsBlank(bookName) then None
                                 else Some(DetailedReadRecord(0, bookName, s.startTime, s.endTime))
  }

  /** The two import steps differ only where the session's difference
      overflows a `Long`. */
  lemma ImportForAgrees(bookName: string, s: DetailedReadSession)
    requires IsLong(s.endTime - s.startTime)
    ensures ImportForAsWritten(bookName)(s) == ImportFor(bookName)(s)
  {
    LongEnoughAgrees(s.startTime, s.endTime);
  }

  /** The `flatMap` of `insertFromExport`. */
  function InsertList(exports: seq<DetailedReadRecordExport>): seq<DetailedReadRecord> {
    if exports == [] then []
    else
      var n := |exports| - 1;
      InsertList(exports[..n]) + MapNotNull(exports[n].sessions, ImportFor(exports[n].bookName))
  }

  /** `insertFromExport`: the list passed to `insertAll`, when it is called. */
  function InsertFromExport(exports: seq<DetailedReadRecordExport>): (r: Option<seq<DetailedReadRecord>>)
    ensures r.Some? <==> InsertList(exports) != []
    ensures r.Some? ==> r.value == InsertList(exports)
  {
    if exports == [] then None
    else
      var insertList := InsertList(exports);
      if insertList == [] then None else Some(insertList)
  }

  /** Every session of an export as a fresh record of its book. */
  function RowFor(bookName: string): DetailedReadSession -> DetailedReadRecord {
    (s: DetailedReadSession) => DetailedReadRecord(0, bookName, s.startTime, s.endTime)
  }

  function AllRows(exports: seq<DetailedReadRecordExport>): seq<DetailedReadRecord> {
    if exports == [] then []
    else
      var n := |exports| - 1;
      AllRows(exports[..n]) + Map(exports[n].sessions, RowFor(exports[n].bookName))
  }

  /** The records the import keeps. */
  predicate Keeps(r: DetailedReadRecord) {
    LongEnough(r.startTime, r.endTime) && !IsBlank(r.bookName)
  }

  /** A record as it comes back from an export: the database assigns a new id. */
  function Reset(r: DetailedReadRecord): DetailedReadRecord {
    DetailedReadRecord(0, r.bookName, r.startTime, r.endTime)
  }

  lemma {:induction false} ImportForIsFilter(bookName: string, sessions: seq<DetailedReadSession>)
    ensures MapNotNull(sessions, ImportFor(bookName)) == Filter(Map(sessions, RowFor(bookName)), Keeps)
    decreases |sessions|
  {
    if sessions != [] {
      var n := |sessions| - 1;
      ImportForIsFilter(bookName, sessions[..n]);
      assert Map(sessions, RowFor(bookName))[..n] == Map(sessions[..n], RowFor(bookName));
    }
  }

  /** The import keeps exactly the sessions longer than a minute of books
      with a non-blank name, in export order. */
  lemma {:induction false} InsertListIsFilter(exports: seq<DetailedReadRecordExport>)
    ensures InsertList(exports) == Filter(AllRows(exports), Keeps)
    decreases |exports|
  {
    if exports != [] {
      var n := |exports| - 1;
      InsertListIsFilter(exports[..n]);
      ImportForIsFilter(exports[n].bookName, exports[n].sessions);
      FilterAppend(AllRows(exports[..n]), Map(exports[n].sessions, RowFor(exports[n].bookName)), Keeps);
    }
  }

  /** One book's exported rows are that book's records, rearranged. */
  lemma BookRows(records: seq<DetailedReadRecord>, name: string)
    ensures multiset(Map(BookSessions(records, name), RowFor(name))) == multiset(Map(OfKey(records, RecordBook, name), Reset))
  {
    var bucket := OfKey(records, RecordBook, name);
    var sorted := SortBy(bucket, StartOrder);
    SortByPermutes(bucket, StartOrder);
    forall i | 0 <= i < |sorted|
      ensures sorted[i].bookName == name
    {
      assert sorted[i] in multiset(bucket);
    }
    assert Map(BookSessions(records, name), RowFor(name)) == Map(sorted, Reset);
    MapPermutes(sorted, bucket, Reset);
  }

  lemma {:induction false} RowsOfBooks(records: seq<DetailedReadRecord>, names: seq<string>)
    ensures multiset(AllRows(Map(names, BookExport(records)))) == multiset(Map(ConcatOfKeys(records, RecordBook, names), Reset))
    decreases |names|
  {
    if names != [] {
      var n := |names| - 1;
      RowsOfBooks(records, names[..n]);
      assert Map(names, BookExport(records))[..n] == Map(names[..n], BookExport(records));
      BookRows(records, names[n]);
      MapAppend(ConcatOfKeys(records, RecordBook, names[..n]), OfKey(records, RecordBook, names[n]), Reset);
    }
  }

  /** Every record is exported exactly once, under its own book name. */
  lemma ExportKeepsEveryRecord(records: seq<DetailedReadRecord>)
    ensures multiset(AllRows(BuildExport(records))) == multiset(Map(records, Reset))
    ensures |AllRows(BuildExport(records))| == |records|
  {
    var names := SortedBookNames(records);
    BuildExportBySortedNames(records);
    BookNamesCover(records);
    forall i | 0 <= i < |records|
      ensures RecordBook(records[i]) in names
    {
      assert Map(records, RecordBook)[i] == records[i].bookName;
    }
    ConcatOfKeysPermutes(records, RecordBook, names);
    RowsOfBooks(records, names);
    MapPermutes(ConcatOfKeys(records, RecordBook, names), records, Reset);
    assert |multiset(Map(records, Reset))| == |records|;
  }

  /** Importing an export inserts the long, named sessions of the original
      records, each once. */
  lemma ImportAfterExport(records: seq<DetailedReadRecord>)
    ensures multiset(InsertList(BuildExport(records))) == multiset(Filter(Map(records, Reset), Keeps))
  {
    ExportKeepsEveryRecord(records);
    InsertListIsFilter(BuildExport(records));
    FilterPermutes(AllRows(BuildExport(records)), Map(records, Reset), Keeps);
  }

  // --------------------------------------------------------------- tracker

  /** The two fields of `DetailedReadRecordTracker`. */
  datatype TrackerState = TrackerState(startTime: Option<int>, bookName: Option<string>)

  const Idle := TrackerState(None, None)

  /** `bookNameProvider()?.trim().orEmpty()`. */
  function ProvidedName(provided: Option<string>): string {
    if provided.Some? then Trim(provided.value) else []
  }

  /** `start`: opens a session when recording is on, none is open and the
      book has a non-blank name. */
  function StartStep(s: TrackerState, enabled: bool, provided: Option<string>, now: int): (r: TrackerState)
    ensures r != s <==> enabled && s.startTime.None? && !IsBlank(ProvidedName(provided))
    ensures r != s ==> r == TrackerState(Some(now), Some(ProvidedName(provided)))
  {
    if !enabled then s
    else if s.startTime.Some? then s
    else
      var name := ProvidedName(provided);
      if IsBlank(name) then s
      else TrackerState(Some(now), Some(name))
  }

  /** What `stop` leaves behind and the arguments it passes to
      `insertSession`, if it calls it. */
  datatype StopOutcome = StopOutcome(next: TrackerState, call: Option<(string, int, int)>)

  /** `stop`. */
  function StopStep(s: TrackerState, provided: Option<string>, now: int): StopOutcome {
    if s.startTime.None? then StopOutcome(s, None)
    else
      var name := if s.bookName.Some? then s.bookName
        else if provided.Some? then Some(Trim(provided.value)) else None;
      if name.None? || IsBlank(name.value) then StopOutcome(Idle, None)
      else StopOutcome(Idle, Some((name.value, s.startTime.value, now)))
  }

  /** A session is open exactly when both fields are set, and its name is
      not blank. */
  predicate TrackerValid(s: TrackerState) {
    && (s.startTime.Some? <==> s.bookName.Some?)
    && (s.bookName.Some? ==> !IsBlank(s.bookName.value))
  }

  lemma StartKeepsValid(s: TrackerState, enabled: bool, provided: Option<string>, now: int)
    requires TrackerValid(s)
    ensures TrackerValid(StartStep(s, enabled, provided, now))
  {
  }

  lemma StopKeepsValid(s: TrackerState, provided: Option<string>, now: int)
    requires TrackerValid(s)
    ensures TrackerValid(StopStep(s, provided, now).next)
  {
  }

  /** A second `start` changes nothing. */
  lemma StartIdempotent(s: TrackerState, enabled: bool, provided: Option<string>, now: int, later: int)
    ensures var s1 := StartStep(s, enabled, provided, now);
      StartStep(s1, enabled, provided, later) == s1
  {
  }

  /** `stop` with no open session does nothing; otherwise it always clears
      both fields. */
  lemma StopClears(s: TrackerState, provided: Option<string>, now: int)
    ensures s.startTime.None? ==> StopStep(s, provided, now) == StopOutcome(s, None)
    ensures s.startTime.Some? ==> StopStep(s, provided, now).next == Idle
  {
  }

  /** On an open session `stop` passes the recorded name, the start time and
      the current time. */
  lemma StopPassesSession(s: TrackerState, provided: Option<string>, now: int)
    requires TrackerValid(s) && s.startTime.Some?
    ensures StopStep(s, provided, now).call == Some((s.bookName.value, s.startTime.value, now))
  {
  }

  /** The record a `start` at `t1` and a `stop` at `t2` insert. */
  lemma StartThenStop(enabled: bool, provided: Option<string>, t1: int, later: Option<string>, enabledAtStop: bool, t2: int)
    requires enabled && !IsBlank(ProvidedName(provided))
    ensures var o := StopStep(StartStep(Idle, enabled, provided, t1), later, t2);
      && o.next == Idle
      && o.call == Some((ProvidedName(provided), t1, t2))
      && (SessionToInsert(enabledAtStop, ProvidedName(provided), t1, t2).Some? <==> enabledAtStop && LongEnough(t1, t2))
  {
  }

  /** The records an outcome of `stop` adds to the database. */
  function InsertedBy(call: Option<(string, int, int)>, enabled: bool): seq<DetailedReadRecord> {
    if call.None? then []
    else
      var r := SessionToInsert(enabled, call.value.0, call.value.1, call.value.2);
      if r.Some? then [r.value] else []
  }

  /** `DetailedReadRecordTracker`. The book-name provider and the clock are
      read at each call and come in as parameters; the database is the ghost
      list of inserted records. */
  class DetailedReadRecordTracker {
    var startTime: Option<int>
    var bookName: Option<string>
    ghost var inserted: seq<DetailedReadRecord>

    function State(): TrackerState
      reads this
    {
      TrackerState(startTime, bookName)
    }

    ghost predicate Valid()
      reads this
    {
      TrackerValid(State())
    }

    constructor()
      ensures State() == Idle && inserted == []
      ensures Valid()
    {
      startTime := None;
      bookName := None;
      inserted := [];
    }

    method Start(enabled: bool, provided: Option<string>, now: int)
      requires Valid()
      modifies this
      ensures Valid()
      ensures State() == StartStep(old(State()), enabled, provided, now)
      ensures inserted == old(inserted)
    {
      if !enabled {
        return;
      }
      if startTime.Some? {
        return;
      }
      var name := ProvidedName(provided);
      if IsBlank(name) {
        return;
      }
      startTime := Some(now);
      bookName := Some(name);
    }

    method Stop(provided: Option<string>, enabled: bool, now: int)
      modifies this
      ensures (old(Valid()) || old(startTime).Some?) ==> Valid()
      ensures State() == StopStep(old(State()), provided, now).next
      ensures inserted == old(inserted) + InsertedBy(StopStep(old(State()), provided, now).call, enabled)
    {
      if startTime.None? {
        return;
      }
      var start := startTime.value;
      var name := if bookName.Some? then bookName
        else if provided.Some? then Some(Trim(provided.value)) else None;
      startTime := None;
      bookName := None;
      if name.None? || IsBlank(name.value) {
        return;
      }
      InsertSession(enabled, name.value, start, now);
    }

    /** `insertSession`, appending to the database log. */
    method InsertSession(enabled: bool, name: string, start: int, end: int)
      modifies this`inserted
      ensures inserted == old(inserted) + InsertedBy(Some((name, start, end)), enabled)
    {
      var r := SessionToInsert(enabled, name, start, end);
      if r.Some? {
        inserted := inserted + [r.value];
      }
    }
  }
}

# Reading notes, share cards and reading sessions in legado

This project is a Dafny model of four small pieces of logic in the legado Android reader. It proves properties about each of them:

- **The share-card composer** (`ThoughtImageExporter`).
  - It fits the header labels (book and author on the left, chapter on the right) into the card's content width. It tries font sizes 12, 11.5, … 10 and falls back to ellipsizing.
  - It fixes the card's integer geometry before anything is drawn.
  - It chooses the typeface from the reader's font setting.
- **The bookmark and thought table of contents** (`BookmarkThoughtFragment.mergeItems`).
  - It gathers bookmarks and reading notes ("thoughts") into per-chapter buckets, in first-seen order.
  - It then emits, chapter by ascending chapter: a header, the chapter's bookmarks by position, and its thoughts by position and creation time.
- **Detailed reading records** (`DetailedReadRecordHelper`, `DetailedReadRecordTracker`).
  - Export groups sessions by book, ordered by book name and, within a book, by start time. It comes as a value list and as a JSON tree.
  - Recording and import keep only sessions with a non-blank book name that last more than one minute, by the `Long` difference `endTime - startTime`. That difference can wrap around (see "## Findings"). The model's recording and import use the exact difference; the as-written versions are modelled beside them and agree whenever the difference fits in a `Long`.
  - The tracker opens a session on `start` and closes it on `stop`.
- **The share dialog's helpers** (`ShareThoughtDialog`).
  - The escaper embeds text into a single-quoted JavaScript string literal.
  - The font MIME guess and the system font family.
  - The choice between a font file and a system family.
  - The validation of the selected card style.

The modules are:

| file | module | contents |
|---|---|---|
| `sequences.dfy` | `Sequences` | `Map`, `Filter`, `mapNotNull`, group-by (`OfKey`, `Dedup`) and their permutation lemmas |
| `ordering.dfy` | `Ordering` | Kotlin's stable `sortedBy`/`sortedWith` as a stable insertion sort on lexicographic keys |
| `kotlin_text.dfy` | `KotlinText` | `trim`, `isBlank`, `endsWith(ignoreCase)`, `replace`, string ordering keys |
| `entities.dfy` | `Entities` | `BookThought`, `Bookmark`, `DetailedReadRecord` as values |
| `font_sources.dfy` | `FontSources` | the font path classification and system family both screens share |
| `thought_image_exporter.dfy` | `ThoughtImageExporter` | header fitting, card geometry, typeface choice |
| `share_thought_dialog.dfy` | `ShareThoughtDialog` | escaper and a JavaScript literal reader, MIME guess, font injection, style state |
| `bookmark_thought_merge.dfy` | `BookmarkThoughtFragment` | `mergeItems` as an imperative method, proved equal to a specification `Merged` |
| `bookmark_thought_props.dfy` | `TocMarkProperties` | what `Merged` guarantees: contents, counts, order, layout, header names |
| `detailed_read_record.dfy` | `DetailedReadRecordHelper` | export, JSON structure, the session filter, import, the tracker class |

Several parts of the code are written as loops that update state. In the model these become methods with loop invariants or classes with `modifies` clauses:

- `fitMeta` is a `while` loop.
- `mergeItems` fills a map, then appends to a list.
- `buildExportJson` fills nested JSON arrays.
- The tracker and the dialog's style index are fields that methods update.

The pipelines (`groupBy`/`sortedBy`/`mapNotNull`, `when` expressions) become functions.

The model takes the outside world as parameters:

- **Text measurement and ellipsizing** are the two functions of a `TextMetrics` value. The model's assumption about them, `WellBehaved`, is stated as a premise.
- **Platform calls** are functions returning `Done`, `Null` or `Thrown`:
  - content resolver, `RealPathUtil`, `Typeface` factories and file reads.
- **`AppConfig`/`ReadBookConfig` values** are plain arguments:
  - `enableReadRecord`, `systemTypefaces`, `textFont`, `thoughtShareStyle`.
- **`isContentScheme`** is a boolean argument.
- **The clock** is an argument.
- **The database insert** appends to a ghost log `inserted`.

## Model

| member | source | states |
|---|---|---|
| `ThoughtImageExporter.FitMeta` | app/src/main/java/io/legado/app/ui/book/thought/ThoughtImageExporter.kt:253-289 | The size is between 10 and 12 (half-points 20..24). Every larger size was tried and did not fit. At a size that fits, both labels are returned unchanged. Otherwise the result is exactly the floor-size fallback. With a well-behaved text engine and a width of at least 110, the result always fits |
| `ThoughtImageExporter.LeftAllowance` | app/src/main/java/io/legado/app/ui/book/thought/ThoughtImageExporter.kt:278 | The left label's budget is at least 40% of the content width and at least what the right label and the 24-pixel gap leave over |
| `ThoughtImageExporter.Fallback` | app/src/main/java/io/legado/app/ui/book/thought/ThoughtImageExporter.kt:270-288 | The fallback header always uses the floor size 10 |
| `ThoughtImageExporter.FallbackBudgets` | app/src/main/java/io/legado/app/ui/book/thought/ThoughtImageExporter.kt:270-284 | In the fallback, the right label is at most 38% of the width. The left label's allowance is at least 40% of it, and the left label stays within that allowance |
| `ThoughtImageExporter.FallbackFits` | app/src/main/java/io/legado/app/ui/book/thought/ThoughtImageExporter.kt:270-288 | For widths of at least 110, the shortened labels plus the gap fit the content width |
| `ThoughtImageExporter.LeftLabelShape` | app/src/main/java/io/legado/app/ui/book/thought/ThoughtImageExporter.kt:104-105 | The left label never starts or ends with whitespace. For a trimmed, non-empty name and author it is exactly "name author" |
| `ThoughtImageExporter.PlanCard` | app/src/main/java/io/legado/app/ui/book/thought/ThoughtImageExporter.kt:40-149 | The card is 1125 wide, the header gets 1053 and both text blocks are flowed at 1025. The height is 147 plus the four measured heights, so it is positive |
| `ThoughtImageExporter.PlanCardMonotone` | app/src/main/java/io/legado/app/ui/book/thought/ThoughtImageExporter.kt:123-149 | Taller measured blocks never make the card shorter or change its width |
| `ThoughtImageExporter.ResolveReadTypeface` | app/src/main/java/io/legado/app/ui/book/thought/ThoughtImageExporter.kt:298-321 | An empty path gives the configured system family. A set path gives the loaded typeface, or sans-serif when loading returned null or threw. Serif and monospace only come from the system setting |
| `FontSources.ClassifyFontPath` | app/src/main/java/io/legado/app/ui/book/thought/ThoughtImageExporter.kt:301-314 | A path counts as unset exactly when it is not a content URI and is empty |
| `FontSources.SystemFamily` | app/src/main/java/io/legado/app/ui/book/thought/ShareThoughtDialog.kt:196-201 | 1 is serif, 2 is monospace, and every other value is sans-serif, each as an if-and-only-if |
| `KotlinText.Trim` | app/src/main/java/io/legado/app/help/readrecord/DetailedReadRecordHelper.kt:105 | The result is a slice of the input. Only whitespace was cut from either end, it neither starts nor ends with whitespace, and it is empty exactly when the input is blank |
| `KotlinText.ReplaceCharRemoves` | app/src/main/java/io/legado/app/ui/book/thought/ShareThoughtDialog.kt:220 | Replacing a character by text that does not contain it leaves no occurrence of it |
| `KotlinText.ReplaceCharAppend` | app/src/main/java/io/legado/app/ui/book/thought/ShareThoughtDialog.kt:215-220 | Replacing a single character works piece by piece over a concatenation |
| `ShareThoughtDialog.EscapeJsStringIsReplaceChain` | app/src/main/java/io/legado/app/ui/book/thought/ShareThoughtDialog.kt:214-220 | The model of `escapeJsString` (one character at a time) gives the empty string for null and, for any other text, exactly the result of the source's five `replace` calls |
| `ShareThoughtDialog.ChainIsPerCharacter` | app/src/main/java/io/legado/app/ui/book/thought/ShareThoughtDialog.kt:215-220 | The five-step `replace` chain equals escaping each character on its own. Doubling backslashes first means no later-inserted escape is escaped again |
| `ShareThoughtDialog.EscapedHasNoLineBreak` | app/src/main/java/io/legado/app/ui/book/thought/ShareThoughtDialog.kt:219-220 | The escaped text contains no carriage return and no line feed |
| `ShareThoughtDialog.EscapeCharsThrough` | app/src/main/java/io/legado/app/ui/book/thought/ShareThoughtDialog.kt:215-220 | The escaped text is a complete piece of a literal body: put in front of anything that reads as a literal body, it contributes the text without carriage returns and exactly its own length |
| `ShareThoughtDialog.ComposeThrough` | app/src/main/java/io/legado/app/ui/book/thought/ShareThoughtDialog.kt:215-220 | Two complete pieces in a row are a complete piece standing for both values in order, for any reader of literal bodies |
| `ShareThoughtDialog.ReadEscaped` | app/src/main/java/io/legado/app/ui/book/thought/ShareThoughtDialog.kt:136 | A JavaScript reader of a single-quoted literal, run on the escaped text followed by a quote and anything else, stops exactly at that quote. So no quote in the text ends the literal early. It decodes the input with every carriage return removed (ES2019 always; ES2015 when the text has no U+2028/U+2029) |
| `ShareThoughtDialog.LineSeparatorBreaksEs2015` | app/src/main/java/io/legado/app/ui/book/thought/ShareThoughtDialog.kt:214-220 | U+2028 passes the escaper unchanged, and under ECMAScript 2015 (section 11.8.4) the literal then does not parse |
| `ShareThoughtDialog.ReadQuotedArgs` | app/src/main/java/io/legado/app/ui/book/thought/ShareThoughtDialog.kt:136 | Texts each placed between quotes and followed by a comma read back, in order, as the values their bodies stand for, whatever follows the last comma |
| `ShareThoughtDialog.UpdateContentArguments` | app/src/main/java/io/legado/app/ui/book/thought/ShareThoughtDialog.kt:129-137 | The `updateContent` script starts with the call's prefix. Its five string arguments read back as book name, author, chapter, selected text and thought, in that order and each without carriage returns |
| `ShareThoughtDialog.FontSuffixesDisjoint` | app/src/main/java/io/legado/app/ui/book/thought/ShareThoughtDialog.kt:205-212 | No path ends in both `.otf` and `.woff`/`.woff2`, or in both `.woff2` and `.woff`, ignoring case. So the order of the checks does not matter |
| `ShareThoughtDialog.GuessFontMime` | app/src/main/java/io/legado/app/ui/book/thought/ShareThoughtDialog.kt:205-212 | Each MIME type is chosen if and only if its suffix matches, ignoring case. `font/ttf` is chosen exactly when none matches, so the result is always one of the four |
| `ShareThoughtDialog.InjectFont` | app/src/main/java/io/legado/app/ui/book/thought/ShareThoughtDialog.kt:146-202 | An unset path sends the system family. A set path sends its bytes with the guessed MIME type when the read succeeds, and the system family when it returned null or threw |
| `ShareThoughtDialog.FallbackFamilies` | app/src/main/java/io/legado/app/ui/book/thought/ShareThoughtDialog.kt:196-201 | With no font file, the page and the exported card use the same family. When the file fails on both sides, the card uses sans-serif and the page the configured family |
| `ShareThoughtDialog.ShareStyleState.constructor` | app/src/main/java/io/legado/app/ui/book/thought/ShareThoughtDialog.kt:49 | The dialog starts from the stored style, whatever value it holds |
| `ShareThoughtDialog.ShareStyleState.InitView` | app/src/main/java/io/legado/app/ui/book/thought/ShareThoughtDialog.kt:93-96 | An index outside the five styles is reset to 0 in both the field and the store. A valid one is left alone. Afterwards the index is valid |
| `ShareThoughtDialog.ShareStyleState.ChangeStyle` | app/src/main/java/io/legado/app/ui/book/thought/ShareThoughtDialog.kt:223-229 | A valid index becomes current, is stored and is sent to the page. Any other index changes nothing. Validity is preserved |
| `ShareThoughtDialog.TapIndexIsLastValid` | app/src/main/java/io/legado/app/ui/book/thought/ShareThoughtDialog.kt:223-229 | After any taps, the current index is the last tap on a valid style, or the starting index when no tap is valid |
| `ShareThoughtDialog.TapScriptsShape` | app/src/main/java/io/legado/app/ui/book/thought/ShareThoughtDialog.kt:341 | The page receives only valid indices, never the index already shown (the first differs from the start, each differs from the one before), at most one per valid tap, and the last one received is the current index |
| `ShareThoughtDialog.OpenAndTap` | app/src/main/java/io/legado/app/ui/book/thought/ShareThoughtDialog.kt:86-96 | Opening on any stored value (reset to 0 when invalid) and then tapping, with `changeStyle` (lines 223-229) called only for a position other than the current one (line 341), leaves a valid index equal to the stored one. That index is `TapIndex` of the taps, and the scripts sent are exactly `TapScripts` of the taps |
| `BookmarkThoughtFragment.GatherBookmarks` | app/src/main/java/io/legado/app/ui/book/toc/BookmarkThoughtFragment.kt:91-97 | The bookmark pass leaves one bucket per chapter seen, in first-seen order. Each bucket holds that chapter's bookmarks in input order, under the first-seen name |
| `BookmarkThoughtFragment.GatherThoughts` | app/src/main/java/io/legado/app/ui/book/toc/BookmarkThoughtFragment.kt:98-103 | The thought pass extends the map and key order the same way. Each bucket also holds its chapter's thoughts in input order |
| `BookmarkThoughtFragment.EmitStep` | app/src/main/java/io/legado/app/ui/book/toc/BookmarkThoughtFragment.kt:106-115 | Emitting the next sorted key appends that chapter's header, sorted bookmarks and sorted thoughts |
| `BookmarkThoughtFragment.MergeItems` | app/src/main/java/io/legado/app/ui/book/toc/BookmarkThoughtFragment.kt:81-118 | The list built by the two gathering passes and the emission loop is exactly the specification `Merged` |
| `BookmarkThoughtFragment.SeenChapter` | app/src/main/java/io/legado/app/ui/book/toc/BookmarkThoughtFragment.kt:91-103 | A chapter gets a bucket if and only if some bookmark or thought belongs to it |
| `TocMarkProperties.SortedChaptersAscending` | app/src/main/java/io/legado/app/ui/book/toc/BookmarkThoughtFragment.kt:106 | Groups come out in strictly ascending chapter order, whatever the input order. The chapters emitted are exactly the chapters of the input |
| `TocMarkProperties.SortedChaptersCount` | app/src/main/java/io/legado/app/ui/book/toc/BookmarkThoughtFragment.kt:91-106 | There are as many groups as distinct chapter indices |
| `TocMarkProperties.MergedContents` | app/src/main/java/io/legado/app/ui/book/toc/BookmarkThoughtFragment.kt:92-116 | Every bookmark and every thought appears exactly as often as in the input. There is one header per distinct chapter, and the length is chapters + bookmarks + thoughts. The list is empty if and only if both inputs are |
| `TocMarkProperties.ItemsPartition` | app/src/main/java/io/legado/app/ui/book/toc/BookmarkThoughtAdapter.kt:102-106 | Every list item is exactly one of header, bookmark or thought |
| `TocMarkProperties.ChapterBookmarksOrder` | app/src/main/java/io/legado/app/ui/book/toc/BookmarkThoughtFragment.kt:108 | A chapter's bookmarks are sorted by position and are a permutation of that chapter's input bookmarks. Bookmarks at equal positions keep their input order |
| `TocMarkProperties.ChapterThoughtsOrder` | app/src/main/java/io/legado/app/ui/book/toc/BookmarkThoughtFragment.kt:111-113 | A chapter's thoughts are sorted by position, then creation time. They are a permutation of that chapter's input thoughts, and ties keep input order |
| `TocMarkProperties.ChapterEntriesBelong` | app/src/main/java/io/legado/app/ui/book/toc/BookmarkThoughtFragment.kt:92-103 | A bucket holds only entries of its own chapter |
| `TocMarkProperties.GroupShape` | app/src/main/java/io/legado/app/ui/book/toc/BookmarkThoughtFragment.kt:107-115 | A group starts with its header under the bucket's name, and all its bookmarks come before all its thoughts. Every entry belongs to the group's chapter |
| `TocMarkProperties.MergedLayout` | app/src/main/java/io/legado/app/ui/book/toc/BookmarkThoughtFragment.kt:105-117 | The list starts with a header, and every header is directly followed by an entry. Entry chapters never decrease, and a header always separates two different chapters |
| `TocMarkProperties.HeaderNameFirstSeen` | app/src/main/java/io/legado/app/ui/book/toc/BookmarkThoughtFragment.kt:92-103 | A header's name is the chapter name of the first item seen for that index. Bookmarks are scanned before thoughts |
| `DetailedReadRecordHelper.Wrap64` | app/src/main/java/io/legado/app/help/readrecord/DetailedReadRecordHelper.kt:61 | Kotlin `Long` subtraction: the result is a `Long`, congruent to the exact difference modulo 2^64, and equal to it when it fits |
| `DetailedReadRecordHelper.LongEnoughAgrees` | app/src/main/java/io/legado/app/help/readrecord/DetailedReadRecordHelper.kt:61-62 | When the difference fits in a `Long`, the wrapped duration check agrees with the exact one |
| `DetailedReadRecordHelper.BackwardsSessionAccepted` | app/src/main/java/io/legado/app/help/readrecord/DetailedReadRecordHelper.kt:79-80 | With start 1 and end `Long.MIN_VALUE`, the check as written accepts a session that ends before it starts |
| `DetailedReadRecordHelper.LongEnoughBoundary` | app/src/main/java/io/legado/app/help/readrecord/DetailedReadRecordHelper.kt:14 | Exactly 60 000 ms is rejected and 60 001 ms accepted. Any accepted session ends after it starts |
| `DetailedReadRecordHelper.BuildExportBySortedNames` | app/src/main/java/io/legado/app/help/readrecord/DetailedReadRecordHelper.kt:28-38 | Sorting the per-book exports by name is the same as building them over the sorted distinct names, which is the shape of `buildExportJson` |
| `DetailedReadRecordHelper.BookNamesCover` | app/src/main/java/io/legado/app/help/readrecord/DetailedReadRecordHelper.kt:30 | The grouped book names are distinct and are exactly the names of the records |
| `DetailedReadRecordHelper.BuildExportEmpty` | app/src/main/java/io/legado/app/help/readrecord/DetailedReadRecordHelper.kt:29 | The export is empty if and only if there are no records |
| `DetailedReadRecordHelper.ExportBooks` | app/src/main/java/io/legado/app/help/readrecord/DetailedReadRecordHelper.kt:30-37 | There is one entry per distinct book name, in strictly ascending name order, and the names are exactly those of the records |
| `DetailedReadRecordHelper.ExportSessions` | app/src/main/java/io/legado/app/help/readrecord/DetailedReadRecordHelper.kt:33-35 | Each entry's sessions are sorted by start time and are exactly that book's records, as a multiset |
| `DetailedReadRecordHelper.ExportKeepsEveryRecord` | app/src/main/java/io/legado/app/help/readrecord/DetailedReadRecordHelper.kt:28-38 | Export then flattening gives back every record with its id reset, as a multiset. The total session count equals the record count |
| `DetailedReadRecordHelper.BuildExportJson` | app/src/main/java/io/legado/app/help/readrecord/DetailedReadRecordHelper.kt:40-57 | No records give the literal `[]`. Otherwise the tree is the `buildExport` list with the same book order and the same per-book start-time order, each book an object of name and session objects |
| `DetailedReadRecordHelper.SessionToInsert` | app/src/main/java/io/legado/app/help/readrecord/DetailedReadRecordHelper.kt:59-73 | With the exact difference: a row is inserted if and only if recording is on, the session lasts more than 60 000 ms and the name is not blank. The row carries the given name and times, and it ends more than a minute after it starts |
| `DetailedReadRecordHelper.SessionToInsertAgrees` | app/src/main/java/io/legado/app/help/readrecord/DetailedReadRecordHelper.kt:59-73 | `insertSession` as written, with the wrapping `Long` difference, inserts the same row as `SessionToInsert` whenever `endTime - startTime` fits in a `Long` |
| `DetailedReadRecordHelper.BackwardsSessionInserted` | app/src/main/java/io/legado/app/help/readrecord/DetailedReadRecordHelper.kt:61-62 | As written, `insertSession` records a session from 1 to `Long.MIN_VALUE`, which ends before it starts; `SessionToInsert` records nothing |
| `DetailedReadRecordHelper.ImportForAgrees` | app/src/main/java/io/legado/app/help/readrecord/DetailedReadRecordHelper.kt:79-80 | The import step as written, with the wrapping difference, keeps or drops a session exactly as the exact step does whenever the difference fits in a `Long` |
| `DetailedReadRecordHelper.InsertFromExport` | app/src/main/java/io/legado/app/help/readrecord/DetailedReadRecordHelper.kt:75-93 | `insertAll` is called if and only if the kept list is non-empty, and then with that list |
| `DetailedReadRecordHelper.InsertListIsFilter` | app/src/main/java/io/legado/app/help/readrecord/DetailedReadRecordHelper.kt:77-90 | With the exact difference: the kept list is exactly the flattened rows with duration over 60 000 ms and a non-blank name, in input order |
| `DetailedReadRecordHelper.ImportAfterExport` | app/src/main/java/io/legado/app/help/readrecord/DetailedReadRecordHelper.kt:75-93 | Importing an export inserts exactly the exported records the filter keeps, as a multiset |
| `DetailedReadRecordHelper.StartStep` | app/src/main/java/io/legado/app/help/readrecord/DetailedReadRecordHelper.kt:102-109 | `start` changes the state if and only if recording is on, no session is open and the trimmed name is not blank. It then records the time and the trimmed name |
| `DetailedReadRecordHelper.StartKeepsValid` | app/src/main/java/io/legado/app/help/readrecord/DetailedReadRecordHelper.kt:102-109 | `start` keeps both fields set together and the name non-blank |
| `DetailedReadRecordHelper.StopKeepsValid` | app/src/main/java/io/legado/app/help/readrecord/DetailedReadRecordHelper.kt:111-118 | `stop` keeps both fields set together and the name non-blank |
| `DetailedReadRecordHelper.StartIdempotent` | app/src/main/java/io/legado/app/help/readrecord/DetailedReadRecordHelper.kt:104 | A second `start` changes nothing, whatever its time |
| `DetailedReadRecordHelper.StopClears` | app/src/main/java/io/legado/app/help/readrecord/DetailedReadRecordHelper.kt:111-115 | With no open session, `stop` does nothing. Otherwise it always clears both fields |
| `DetailedReadRecordHelper.StopPassesSession` | app/src/main/java/io/legado/app/help/readrecord/DetailedReadRecordHelper.kt:113-117 | From a valid open session, `stop` passes the stored name, start time and current time to `insertSession` |
| `DetailedReadRecordHelper.StartThenStop` | app/src/main/java/io/legado/app/help/readrecord/DetailedReadRecordHelper.kt:96-118 | A successful `start` followed by `stop` returns to idle and passes (name, t1, t2). The row is kept exactly when recording is on at the stop and the session is long enough |
| `DetailedReadRecordHelper.DetailedReadRecordTracker.constructor` | app/src/main/java/io/legado/app/help/readrecord/DetailedReadRecordHelper.kt:96-100 | A new tracker is idle and has inserted nothing |
| `DetailedReadRecordHelper.DetailedReadRecordTracker.Start` | app/src/main/java/io/legado/app/help/readrecord/DetailedReadRecordHelper.kt:102-109 | The fields follow `StartStep`, validity is kept and nothing is inserted |
| `DetailedReadRecordHelper.DetailedReadRecordTracker.Stop` | app/src/main/java/io/legado/app/help/readrecord/DetailedReadRecordHelper.kt:111-118 | The fields follow `StopStep`, so they are cleared whenever a session was open. The database log grows by exactly what `insertSession` keeps of the passed session |
| `DetailedReadRecordHelper.DetailedReadRecordTracker.InsertSession` | app/src/main/java/io/legado/app/help/readrecord/DetailedReadRecordHelper.kt:59-73 | The log grows by the row `SessionToInsert` gives, or by nothing |
| `Ordering.SortByPermutes` | app/src/main/java/io/legado/app/help/readrecord/DetailedReadRecordHelper.kt:33 | Kotlin's `sortedBy` returns a permutation of its input |
| `Ordering.SortByIsSorted` | app/src/main/java/io/legado/app/help/readrecord/DetailedReadRecordHelper.kt:33 | The result of `sortedBy` is ordered by its key |
| `Ordering.SortByStable` | app/src/main/java/io/legado/app/ui/book/toc/BookmarkThoughtFragment.kt:108 | The sort is stable: the elements with any one key keep their input order |

## Left out

- **Drawing.** Everything `buildBitmap` draws after the geometry is fixed is left out: paints, gradients, rounded rectangles, baselines and float positions. So are bitmap saving, MediaStore and PNG compression.
- **Line breaking and font metrics.** `StaticLayout` line breaking and the font metrics are not modelled. The model takes the four measured heights as inputs. `measureText` and `TextUtils.ellipsize` are opaque functions with one stated assumption (`WellBehaved`).
- **Float rounding.** `Float` widths are real numbers, so rounding is not modelled. Header font sizes are whole half-points, which represents 12, 11.5, … 10 exactly.
- **WebView plumbing.** WebView setup, `evaluateJavascript`, page capture, the style list adapter and Base64 encoding are left out. The font bytes are passed as a byte sequence, and the Base64 text is not modelled.
- **Concurrency.** Coroutines, `lifecycleScope`, `Coroutine.async` and dispatchers are left out. Each database insert is an immediate append to a ghost log.
- **Room DAOs and SQL.** `DetailedReadRecordDao` and `BookThoughtDao` are not part of this model.
- **Gson's text.** `buildExportJson` is modelled up to the JSON tree it serialises. Gson's character-level output (quoting, escaping) is not part of this model.
- **Configuration, the platform and the clock.** `AppConfig`, `ReadBookConfig`, `isContentScheme`, `RealPathUtil`, the content resolver, `Typeface` factories, `Build.VERSION` and `System.currentTimeMillis` become arguments.
- **The book name provider.** The tracker's `bookNameProvider` is an `Option<string>` argument to each call.
- **Dialog lifecycle.** `onFragmentCreated` dismissing when there is no thought is left out, and so are the other click and lifecycle wiring.
- **Entity fields.** `BookThought` is modelled with the `chapterPos` field that `mergeItems` reads, although the entity file shows no such field. `Bookmark.kt` is not part of this model, so `Bookmark` carries the fields the table of contents reads.
- **Collection types.** The ordered map of `mergeItems` and the `MutableList`s in its buckets are Dafny values (`map` and `seq`) that the method reassigns. Object identity and aliasing of the buckets are not modelled.
- **String comparison.** Kotlin compares strings by UTF-16 code unit; the model compares them by Unicode scalar value (`Codes`). The two orders differ only between characters above U+FFFF and characters in U+E000..U+FFFF.
- **Separator characters.** `ShareThoughtDialog.ReadEscaped` is stated for texts with no raw U+2028/U+2029 when the page is read as ECMAScript 2015. `ShareThoughtDialog.LineSeparatorBreaksEs2015` shows why: the escaper passes those characters through. Under ECMAScript 2019 the round trip holds for every text.
- **ShareThoughtDialog.InjectFont:** the `setFont`/`setSystemFont` script texts are represented by the call they make, not by their characters.
- **DetailedReadRecordHelper.DetailedReadRecordTracker.Stop:** the call does not require a valid state. It only guarantees validity afterwards when a session was open or the state was valid before.
- **DetailedReadRecordHelper.SessionToInsert:** uses the exact duration `endTime - startTime`, not the wrapping `Long` difference of the source. The as-written version is `SessionToInsertAsWritten`; `SessionToInsertAgrees` shows the two agree whenever the difference fits in a `Long`, and `BackwardsSessionInserted` shows where they part.
- **DetailedReadRecordHelper.ImportFor:** the same correction for the import step. The as-written step is `ImportForAsWritten`, and `ImportForAgrees` shows the two agree whenever the difference fits in a `Long`.
- **DetailedReadRecordHelper.InsertListIsFilter:** states the import's kept list for the exact duration, so it does not cover sessions whose difference overflows a `Long`.
- **DetailedReadRecordHelper.InsertFromExport:** built on the exact `ImportFor`; see that line.
- **DetailedReadRecordHelper.ImportAfterExport:** built on the exact `ImportFor`; see that line.
- **DetailedReadRecordHelper.DetailedReadRecordTracker.InsertSession:** logs the row of the exact `SessionToInsert`, not of `SessionToInsertAsWritten`.
- **DetailedReadRecordHelper.DetailedReadRecordTracker.Stop:** inserts through `SessionToInsert`, so it also uses the exact duration.
- **KotlinText.EndsWithIgnoreCase:** folds ASCII letters only, while the JVM's `regionMatches(ignoreCase = true)` also folds some other characters (U+212A with `k`, U+0130/U+0131 with `i`). No such character folds to a character of `.otf`, `.woff` or `.woff2`, the only suffixes `GuessFontMime` compares, so its results are exact.

## Findings

| source | as written | input that shows it | evidently intended | confidence | as-written member | corrected member |
|---|---|---|---|---|---|---|
| app/src/main/java/io/legado/app/help/readrecord/DetailedReadRecordHelper.kt:61-62, 79-80 | `endTime - startTime` is a `Long` subtraction that wraps on overflow before it is compared with 60 000 | startTime = 1, endTime = `Long.MIN_VALUE`: the difference wraps to `Long.MAX_VALUE`, so a session ending long before it started is recorded or imported | keep only sessions whose true duration exceeds 60 000 ms, which all end after they start | not executed | `DetailedReadRecordHelper.BackwardsSessionInserted` | `DetailedReadRecordHelper.SessionToInsert` |

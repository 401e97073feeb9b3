/** The share-card composer (`ThoughtImageExporter`): the header that must fit
    two labels into the card's content width, the card's integer geometry
    (measured before anything is drawn), and the choice of typeface.

    Text measurement and end-ellipsis truncation belong to Android's text
    engine; they come in as the two functions of a `TextMetrics` value. Widths
    are real numbers (the source uses `Float`; rounding is not modelled) and
    font sizes are whole half-points, so 24 stands for 12sp and 20 for 10sp. */
module ThoughtImageExporter {
  import opened KotlinText
  import opened FontSources
  import opened Entities

  // Canvas geometry, in pixels.
  const CardWidth: int := 1125
  const HorizontalPadding: int := 36
  const TopBarHeight: int := 6
  const TopPadding: int := 22
  const BottomPadding: int := 28
  const ContentWidth: int := CardWidth - HorizontalPadding * 2
  const TextInset: int := 14
  const SelectedTopGap: int := 16
  const SelectedBottomGap: int := 18
  const DividerTopGap: int := 2
  const DividerThickness: int := 1
  const DividerBottomGap: int := 18
  const ThoughtPaddingTop: int := 12
  const ThoughtTitleBottomGap: int := 10
  const ThoughtPaddingBottom: int := 14
  const ThoughtTitle: string := "[感想]"

  // Header fitting: sizes in half-points, widths in pixels.
  const StartSize: int := 24
  const FloorSize: int := 20
  const Gap: real := 24.0
  const RightShare: real := 0.38
  const LeftFloorShare: real := 0.4

  /** `measureText` at a size, and `TextUtils.ellipsize(text, paint, avail,
      END)` at a size. */
  datatype TextMetrics = TextMetrics(
    measure: (string, int) -> real,
    ellipsize: (string, int, real) -> string)

  /** What the model assumes of Android's text engine: widths are never
      negative, and an ellipsized text fits the width it was given (it is
      emptied when not even the ellipsis fits). */
  ghost predicate WellBehaved(m: TextMetrics) {
    && (forall t, size :: 0.0 <= m.measure(t, size))
    && (forall t, size, avail :: 0.0 <= avail ==> m.measure(m.ellipsize(t, size, avail), size) <= avail)
  }

  /** `TopMeta`: the header's font size and its two (possibly shortened) labels. */
  datatype TopMeta = TopMeta(size: int, leftText: string, rightText: string)

  /** Both labels and the gap fit the content width at this size. */
  predicate Fits(m: TextMetrics, left: string, right: string, contentWidth: int, size: int) {
    m.measure(left, size) + m.measure(right, size) + Gap <= contentWidth as real
  }

  function MaxReal(a: real, b: real): real {
    if a < b then b else a
  }

  /** The width the left label may use after the right one was shortened:
      what is left of the content width, but never below 40% of it. */
  function LeftAllowance(m: TextMetrics, rightText: string, contentWidth: int): (a: real)
    ensures a >= LeftFloorShare * contentWidth as real
    ensures a >= contentWidth as real - m.measure(rightText, FloorSize) - Gap
  {
    MaxReal(contentWidth as real - m.measure(rightText, FloorSize) - Gap, LeftFloorShare * contentWidth as real)
  }

  /** The last resort when no size fits: at the floor size, the right label is
      cut to 38% of the width and the left label to its allowance. */
  function Fallback(m: TextMetrics, left: string, right: string, contentWidth: int): (r: TopMeta)
    ensures r.size == FloorSize
  {
    var rightText := m.ellipsize(right, FloorSize, RightShare * contentWidth as real);
    var leftText := m.ellipsize(left, FloorSize, LeftAllowance(m, rightText, contentWidth));
    TopMeta(FloorSize, leftText, rightText)
  }

  /** The header as laid out fits the content width. */
  predicate HeaderFits(m: TextMetrics, r: TopMeta, contentWidth: int) {
    Fits(m, r.leftText, r.rightText, contentWidth, r.size)
  }

  /** `fitMeta`: tries 12, 11.5, ... 10 and returns the first size at which both
      labels fit unchanged; only when none does, the labels are shortened at
      the floor size. With a well-behaved text engine and a content width of
      at least 110 (the card's is 1053) the result always fits. */
  method FitMeta(m: TextMetrics, left: string, right: string, contentWidth: int) returns (r: TopMeta)
    ensures FloorSize <= r.size <= StartSize
    ensures forall s :: r.size < s <= StartSize ==> !Fits(m, left, right, contentWidth, s)
    ensures Fits(m, left, right, contentWidth, r.size) ==> r.leftText == left && r.rightText == right
    ensures !Fits(m, left, right, contentWidth, r.size) ==> r == Fallback(m, left, right, contentWidth)
    ensures WellBehaved(m) && contentWidth >= 110 ==> HeaderFits(m, r, contentWidth)
  {
    var size := StartSize;
    while size >= FloorSize
      invariant FloorSize - 1 <= size <= StartSize
      invariant forall s :: size < s <= StartSize ==> !Fits(m, left, right, contentWidth, s)
    {
      if m.measure(left, size) + m.measure(right, size) + Gap <= contentWidth as real {
        return TopMeta(size, left, right);
      }
      size := size - 1;
    }
    r := Fallback(m, left, right, contentWidth);
    if WellBehaved(m) && contentWidth >= 110 {
      FallbackFits(m, left, right, contentWidth);
    }
  }

  /** The fallback's budgets: the right label is at most 38% of the width,
      the left label's allowance is at least 40% of it, and the left label
      stays within its allowance. */
  lemma FallbackBudgets(m: TextMetrics, left: string, right: string, contentWidth: int)
    requires WellBehaved(m)
    requires contentWidth >= 0
    ensures var r := Fallback(m, left, right, contentWidth);
      && m.measure(r.rightText, FloorSize) <= RightShare * contentWidth as real
      && LeftAllowance(m, r.rightText, contentWidth) >= LeftFloorShare * contentWidth as real
      && m.measure(r.leftText, FloorSize) <= LeftAllowance(m, r.rightText, contentWidth)
  {
    var rightText := m.ellipsize(right, FloorSize, RightShare * contentWidth as real);
    assert m.measure(rightText, FloorSize) <= RightShare * contentWidth as real;
    var allowance := LeftAllowance(m, rightText, contentWidth);
    assert m.measure(m.ellipsize(left, FloorSize, allowance), FloorSize) <= allowance;
  }

  /** When the width is at least 110, what the right label leaves over is
      above the 40% floor, so the shortened labels and the gap fit. */
  lemma FallbackFits(m: TextMetrics, left: string, right: string, contentWidth: int)
    requires WellBehaved(m)
    requires contentWidth >= 110
    ensures HeaderFits(m, Fallback(m, left, right, contentWidth), contentWidth)
  {
    FallbackBudgets(m, left, right, contentWidth);
    var r := Fallback(m, left, right, contentWidth);
    var w := contentWidth as real;
    var rw := m.measure(r.rightText, FloorSize);
    assert w - rw - Gap >= LeftFloorShare * w;
    assert LeftAllowance(m, r.rightText, contentWidth) == w - rw - Gap;
  }

  /** The header labels: book name and author joined by a space and trimmed,
      and the chapter name. */
  function LeftLabel(t: BookThought): string {
    Trim(t.bookName + " " + t.bookAuthor)
  }

  function RightLabel(t: BookThought): string {
    t.chapterName
  }

  /** When the name and author are non-blank and carry no surrounding
      whitespace, the left label is exactly "name author"; in general it never
      begins or ends with whitespace. */
  lemma LeftLabelShape(t: BookThought)
    ensures var l := LeftLabel(t); l != [] ==> !IsWhitespace(l[0]) && !IsWhitespace(l[|l| - 1])
    ensures Trim(t.bookName) == t.bookName != [] && Trim(t.bookAuthor) == t.bookAuthor != [] ==>
      LeftLabel(t) == t.bookName + " " + t.bookAuthor
  {
    var s := t.bookName + " " + t.bookAuthor;
    if Trim(t.bookName) == t.bookName != [] && Trim(t.bookAuthor) == t.bookAuthor != [] {
      assert s[0] == t.bookName[0];
      assert s[|s| - 1] == t.bookAuthor[|t.bookAuthor| - 1];
      assert LeadingBlanks(s) == 0;
      assert !IsWhitespace(s[|s| - 1]);
    }
  }

  /** Heights the text engine measured: the header and title line heights
      (font metrics truncated to whole pixels) and the two laid-out blocks. */
  datatype Measured = Measured(
    metaHeight: nat,
    thoughtTitleHeight: nat,
    selectedHeight: nat,
    thoughtHeight: nat)

  /** The card's geometry, fixed before the bitmap is allocated. */
  datatype CardGeometry = CardGeometry(
    width: int,
    height: int,
    contentWidth: int,
    layoutWidth: int,
    thoughtContainerHeight: int)

  /** The sizing half of `buildBitmap`: the card is always 1125 wide, the header
      has 1053 (the width less both paddings), both text blocks are flowed at
      1025 (less the inset on both sides), and the height is 147 plus the four
      measured heights, so it is positive. */
  function PlanCard(h: Measured): (g: CardGeometry)
    ensures g.width == 1125 && g.contentWidth == 1053 && g.layoutWidth == 1025
    ensures g.height == 147 + h.metaHeight + h.thoughtTitleHeight + h.selectedHeight + h.thoughtHeight
    ensures g.height > 0
  {
    var thoughtContainerHeight :=
      ThoughtPaddingTop + h.thoughtTitleHeight + ThoughtTitleBottomGap + h.thoughtHeight + ThoughtPaddingBottom;
    var contentHeight :=
      TopBarHeight + TopPadding + h.metaHeight + SelectedTopGap + h.selectedHeight + SelectedBottomGap
      + DividerTopGap + DividerThickness + DividerBottomGap + thoughtContainerHeight + BottomPadding;
    CardGeometry(CardWidth, contentHeight, ContentWidth, ContentWidth - TextInset * 2, thoughtContainerHeight)
  }

  /** Taller measured blocks never make the card shorter, and never change its
      width. */
  lemma PlanCardMonotone(a: Measured, b: Measured)
    requires a.metaHeight <= b.metaHeight && a.thoughtTitleHeight <= b.thoughtTitleHeight
    requires a.selectedHeight <= b.selectedHeight && a.thoughtHeight <= b.thoughtHeight
    ensures PlanCard(a).height <= PlanCard(b).height
    ensures PlanCard(a).width == PlanCard(b).width
  {
  }

  /** The typeface the card is drawn with. */
  datatype Typeface = SystemTypeface(family: Family) | LoadedTypeface(id: nat)

  /** The platform calls `resolveReadTypeface` makes: whether the SDK is at
      least Android O, building a typeface from a content URI's file
      descriptor, `RealPathUtil.getPath`, and `Typeface.createFromFile`. */
  datatype TypefacePlatform = TypefacePlatform(
    sdkAtLeastO: bool,
    fromDescriptor: string -> Attempt<nat>,
    realPath: string -> Attempt<string>,
    fromFile: string -> Attempt<nat>)

  /** The loading chain for a font path that is set: a content URI is opened
      directly from Android O on and otherwise resolved to a file path first;
      any other path is loaded as a file. */
  function LoadTypeface(path: string, isContentScheme: bool, p: TypefacePlatform): Attempt<nat>
  {
    if isContentScheme && p.sdkAtLeastO then p.fromDescriptor(path)
    else if isContentScheme then
      match p.realPath(path)
      case Done(file) => p.fromFile(file)
      case Null => Null
      case Thrown => Thrown
    else p.fromFile(path)
  }

  /** `resolveReadTypeface`: an empty path gives the configured system family;
      a set path gives the loaded typeface, and sans-serif whenever loading
      returned null or failed. Serif and monospace arise only from the
      configured family. */
  function ResolveReadTypeface(path: string, isContentScheme: bool, systemTypefaces: int, p: TypefacePlatform): (t: Typeface)
    ensures ClassifyFontPath(path, isContentScheme) == Unset ==> t == SystemTypeface(SystemFamily(systemTypefaces))
    ensures ClassifyFontPath(path, isContentScheme) != Unset ==>
      if LoadTypeface(path, isContentScheme, p).Done?
      then t == LoadedTypeface(LoadTypeface(path, isContentScheme, p).value)
      else t == SystemTypeface(SansSerif)
    ensures t.SystemTypeface? && t.family != SansSerif ==> path == [] && !isContentScheme
  {
    match ClassifyFontPath(path, isContentScheme)
    case Unset => SystemTypeface(SystemFamily(systemTypefaces))
    case _ =>
      match LoadTypeface(path, isContentScheme, p)
      case Done(id) => LoadedTypeface(id)
      case _ => SystemTypeface(SansSerif)
  }
}

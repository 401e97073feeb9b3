/** The reading font the user configured, as both font consumers see it: the
    card exporter (`resolveReadTypeface`) and the share dialog's WebView
    (`injectFont`). Both test the configured path in the same order: a
    content URI, then any other non-empty path, and otherwise the configured
    system family. */
module FontSources {

  /** What a platform call produced: a value, `null`, or an exception (which
      `runCatching` turns into a failure). */
  datatype Attempt<T> = Done(value: T) | Null | Thrown

  datatype FontPathKind = ContentUri | FilePath | Unset

  /** The branch a font path takes. Whether a path is a content URI is the
      app's `isContentScheme()`, which is not part of this model and comes in
      as a flag. */
  function ClassifyFontPath(path: string, isContentScheme: bool): (k: FontPathKind)
    ensures k == Unset <==> !isContentScheme && path == []
  {
    if isContentScheme then ContentUri
    else if path != [] then FilePath
    else Unset
  }

  datatype Family = SansSerif | Serif | Monospace

  /** `AppConfig.systemTypefaces`: 1 is serif, 2 is monospace, and every other
      value is sans-serif. */
  function SystemFamily(systemTypefaces: int): (f: Family)
    ensures f == Serif <==> systemTypefaces == 1
    ensures f == Monospace <==> systemTypefaces == 2
    ensures f == SansSerif <==> systemTypefaces != 1 && systemTypefaces != 2
  {
    if systemTypefaces == 1 then Serif
    else if systemTypefaces == 2 then Monospace
    else SansSerif
  }

  /** The CSS generic family name the share dialog sends for a family. */
  function CssFamilyName(f: Family): string
  {
    match f
    case SansSerif => "sans-serif"
    case Serif => "serif"
    case Monospace => "monospace"
  }
}

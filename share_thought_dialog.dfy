/** The share dialog's logic (`ShareThoughtDialog`): embedding text in the
    page's JavaScript calls, the reading font handed to the page, and the
    selected card style.

    The page receives the thought through a call whose arguments are
    single-quoted string literals; `ReadQuoted` reads such a literal back the
    way a JavaScript engine does (section 11.8.4 of ECMA-262), so that what
    the escaper promises can be stated as a round trip. */
module ShareThoughtDialog {
  import opened Sequences
  import opened KotlinText
  import opened FontSources
  import opened Entities
  import ThoughtImageExporter

  // ---------------------------------------------------------------------
  // Escaping text for a single-quoted JavaScript literal

  /** The replace chain of `escapeJsString`, in the source's order: backslash
      first, then single quote, double quote, line feed, and carriage returns
      are dropped. */
  function ReplaceChain(t: string): string {
    ReplaceChar(ReplaceChar(ReplaceChar(ReplaceChar(ReplaceChar(t, '\\', "\\\\"), '\'', "\\'"), '"', "\\\""), '\n', "\\n"), '\r', "")
  }

  /** The reference escaper, one character at a time. */
  function EscapeChar(c: char): string {
    if c == '\\' then "\\\\"
    else if c == '\'' then "\\'"
    else if c == '"' then "\\\""
    else if c == '\n' then "\\n"
    else if c == '\r' then ""
    else [c]
  }

  function EscapeChars(t: string): string {
    if t == [] then [] else EscapeChar(t[0]) + EscapeChars(t[1..])
  }

  /** `escapeJsString`: null becomes the empty text; otherwise each character
      is escaped on its own. `EscapeJsStringIsReplaceChain` shows this is the
      source's replace chain. */
  function EscapeJsString(text: Option<string>): string {
    match text
    case None => []
    case Some(t) => EscapeChars(t)
  }

  lemma ReplaceCharSingle(c: char, x: char, rep: string)
    ensures ReplaceChar([c], x, rep) == if c == x then rep else [c]
  {
    assert [c][1..] == [];
  }

  lemma {:induction false} ReplaceCharAbsent(s: string, x: char, rep: string)
    requires x !in s
    ensures ReplaceChar(s, x, rep) == s
    decreases |s|
  {
    if s != [] {
      ReplaceCharAbsent(s[1..], x, rep);
      assert s == [s[0]] + s[1..];
    }
  }

  lemma ChainAppend(s: string, t: string)
    ensures ReplaceChain(s + t) == ReplaceChain(s) + ReplaceChain(t)
  {
    var s1, t1 := ReplaceChar(s, '\\', "\\\\"), ReplaceChar(t, '\\', "\\\\");
    ReplaceCharAppend(s, t, '\\', "\\\\");
    var s2, t2 := ReplaceChar(s1, '\'', "\\'"), ReplaceChar(t1, '\'', "\\'");
    ReplaceCharAppend(s1, t1, '\'', "\\'");
    var s3, t3 := ReplaceChar(s2, '"', "\\\""), ReplaceChar(t2, '"', "\\\"");
    ReplaceCharAppend(s2, t2, '"', "\\\"");
    var s4, t4 := ReplaceChar(s3, '\n', "\\n"), ReplaceChar(t3, '\n', "\\n");
    ReplaceCharAppend(s3, t3, '\n', "\\n");
    ReplaceCharAppend(s4, t4, '\r', "");
  }

  /** Applying the chain to one character gives its escape. */
  lemma ChainChar(c: char)
    ensures ReplaceChain([c]) == EscapeChar(c)
  {
    var e := EscapeChar(c);
    var s1 := ReplaceChar([c], '\\', "\\\\");
    ReplaceCharSingle(c, '\\', "\\\\");
    if c == '\\' {
      var s2 := ReplaceChar(s1, '\'', "\\'");
      ReplaceCharAbsent(s1, '\'', "\\'");
      ReplaceCharAbsent(s2, '"', "\\\"");
      ReplaceCharAbsent(s2, '\n', "\\n");
      ReplaceCharAbsent(s2, '\r', "");
    } else {
      var s2 := ReplaceChar(s1, '\'', "\\'");
      ReplaceCharSingle(c, '\'', "\\'");
      if c == '\'' {
        ReplaceCharAbsent(s2, '"', "\\\"");
        ReplaceCharAbsent(s2, '\n', "\\n");
        ReplaceCharAbsent(s2, '\r', "");
      } else {
        var s3 := ReplaceChar(s2, '"', "\\\"");
        ReplaceCharSingle(c, '"', "\\\"");
        if c == '"' {
          ReplaceCharAbsent(s3, '\n', "\\n");
          ReplaceCharAbsent(s3, '\r', "");
        } else {
          var s4 := ReplaceChar(s3, '\n', "\\n");
          ReplaceCharSingle(c, '\n', "\\n");
          if c == '\n' {
            ReplaceCharAbsent(s4, '\r', "");
          } else {
            ReplaceCharSingle(c, '\r', "");
          }
        }
      }
    }
  }

  /** The replace chain is the per-character escaper: no escape inserted by an
      early step is escaped again by a later one. */
  lemma {:induction false} ChainIsPerCharacter(t: string)
    ensures ReplaceChain(t) == EscapeChars(t)
    decreases |t|
  {
    if t == [] {
      assert ReplaceChain(t) == [];
    } else {
      assert t == [t[0]] + t[1..];
      ChainAppend([t[0]], t[1..]);
      ChainChar(t[0]);
      ChainIsPerCharacter(t[1..]);
    }
  }

  /** `escapeJsString` as the source writes it: null gives the empty text,
      anything else goes through the five `replace` calls. */
  lemma EscapeJsStringIsReplaceChain(text: Option<string>)
    ensures text.None? ==> EscapeJsString(text) == []
    ensures text.Some? ==> EscapeJsString(text) == ReplaceChain(text.value)
  {
    if text.Some? {
      ChainIsPerCharacter(text.value);
    }
  }

  lemma {:induction false} EscapeCharsAppend(s: string, t: string)
    ensures EscapeChars(s + t) == EscapeChars(s) + EscapeChars(t)
    decreases |s|
  {
    if s == [] {
      assert s + t == t;
    } else {
      assert (s + t)[0] == s[0];
      assert (s + t)[1..] == s[1..] + t;
      EscapeCharsAppend(s[1..], t);
    }
  }

  /** The escaped text has no carriage return and no raw line feed, so it
      cannot break the literal across lines. */
  lemma {:induction false} EscapedHasNoLineBreak(t: string)
    ensures '\r' !in EscapeJsString(Some(t)) && '\n' !in EscapeJsString(Some(t))
    decreases |t|
  {
    if t != [] {
      EscapedHasNoLineBreak(t[1..]);
      var e := EscapeChar(t[0]);
      assert '\r' !in e && '\n' !in e;
      assert EscapeChars(t) == e + EscapeChars(t[1..]);
    }
  }

  // ---------------------------------------------------------------------
  // Reading a single-quoted literal back (section 11.8.4 of ECMA-262)

  /** ECMAScript 2015 forbids the line and paragraph separators (U+2028,
      U+2029) inside a string literal; ECMAScript 2019 allows them. */
  datatype Edition = Es2015 | Es2019

  predicate IsLineTerminator(c: char) {
    c == '\n' || c == '\r' || c == '\U{2028}' || c == '\U{2029}'
  }

  /** A character that may not appear unescaped in a string literal. */
  predicate ForbiddenInLiteral(c: char, ed: Edition) {
    c == '\n' || c == '\r' || (ed == Es2015 && (c == '\U{2028}' || c == '\U{2029}'))
  }

  predicate IsDecimalDigit(c: char) {
    '0' <= c <= '9'
  }

  /** The character a SingleEscapeCharacter stands for, if `c` is one. */
  function SingleEscape(c: char): Option<char> {
    if c == '\'' || c == '"' || c == '\\' then Some(c)
    else if c == 'b' then Some('\U{8}')
    else if c == 'f' then Some('\U{C}')
    else if c == 'n' then Some('\n')
    else if c == 'r' then Some('\r')
    else if c == 't' then Some('\t')
    else if c == 'v' then Some('\U{B}')
    else None
  }

  /** Reads the body of a single-quoted literal whose opening quote was just
      consumed: the literal's value and the index of the closing quote, or
      `None` when the text is not a complete literal. Escapes: the single
      escape characters, line continuations, `\0` not followed by a digit,
      and any other character standing for itself. Hexadecimal, Unicode and
      legacy octal escapes are not decoded and give `None`. */
  function ReadQuoted(s: string, ed: Edition): (r: Option<(string, nat)>)
    ensures r.Some? ==> r.value.1 < |s| && s[r.value.1] == '\''
    decreases |s|
  {
    if s == [] then None
    else if s[0] == '\'' then Some(([], 0))
    else if ForbiddenInLiteral(s[0], ed) then None
    else if s[0] != '\\' then
      match ReadQuoted(s[1..], ed)
      case None => None
      case Some(p) => Some(([s[0]] + p.0, p.1 + 1))
    else if |s| < 2 then None
    else
      match EscapeSequence(s)
      case None => None
      case Some(v) =>
        match ReadQuoted(s[v.1..], ed)
        case None => None
        case Some(p) => Some((v.0 + p.0, p.1 + v.1))
  }

  /** The escape sequence at the start of `s` (which begins with a
      backslash): what it stands for and how long it is. Hexadecimal, Unicode
      and legacy octal escapes are not decoded and give `None`. */
  function EscapeSequence(s: string): (r: Option<(string, nat)>)
    requires |s| >= 2 && s[0] == '\\'
    ensures r.Some? ==> 2 <= r.value.1 <= |s|
  {
    var c := s[1];
    if IsLineTerminator(c) then Some(([], if c == '\r' && |s| > 2 && s[2] == '\n' then 3 else 2))
    else if SingleEscape(c).Some? then Some(([SingleEscape(c).value], 2))
    else if c == '0' && !(|s| > 2 && IsDecimalDigit(s[2])) then Some((['\0'], 2))
    else if IsDecimalDigit(c) || c == 'x' || c == 'u' then None
    else Some(([c], 2))
  }

  /** An ordinary character is its own value. */
  lemma {:induction false} ReadPlain(c: char, tail: string, ed: Edition, p: (string, nat))
    requires c != '\'' && c != '\\' && !ForbiddenInLiteral(c, ed)
    requires ReadQuoted(tail, ed) == Some(p)
    ensures ReadQuoted([c] + tail, ed) == Some(([c] + p.0, p.1 + 1))
  {
    assert ([c] + tail)[1..] == tail;
  }

  /** A single escape character after a backslash stands for its character. */
  lemma {:induction false} ReadSingleEscape(c: char, tail: string, ed: Edition, p: (string, nat))
    requires SingleEscape(c).Some? && !IsLineTerminator(c)
    requires ReadQuoted(tail, ed) == Some(p)
    ensures ReadQuoted(['\\', c] + tail, ed) == Some(([SingleEscape(c).value] + p.0, p.1 + 2))
  {
    var s := ['\\', c] + tail;
    assert s[0] == '\\' && s[1] == c && |s| >= 2;
    assert s[2..] == tail;
    assert EscapeSequence(s) == Some(([SingleEscape(c).value], 2));
  }

  /** Text the escaper's output may carry into a literal of this edition. */
  predicate Embeddable(t: string, ed: Edition) {
    ed == Es2019 || ('\U{2028}' !in t && '\U{2029}' !in t)
  }

  /** What the page receives for a text: the text without carriage returns. */
  function Received(t: string): string {
    ReplaceChar(t, '\r', "")
  }

  /** A reader of literal bodies, such as `ReadQuoted` for one edition: the
      value read and the index of the closing quote. */
  type BodyReader = string -> Option<(string, nat)>

  function LiteralReader(ed: Edition): BodyReader {
    s => ReadQuoted(s, ed)
  }

  /** `e` followed by a quote reads back as `v` and closes at that quote,
      whatever comes after the quote. */
  ghost predicate ReadsBackAs(r: BodyReader, e: string, v: string) {
    forall t :: r(e + "'" + t) == Some((v, |e|))
  }

  /** Round trip: the escaped text followed by a quote reads back as the text
      without carriage returns, and the literal closes exactly at that quote,
      so no quote inside the text ends it early. */
  lemma ReadEscaped(t: string, ed: Edition)
    requires Embeddable(t, ed)
    ensures ReadsBackAs(LiteralReader(ed), EscapeJsString(Some(t)), Received(t))
  {
    EscapeCharsThrough(t, ed);
    ClosingQuote(ed);
    ThroughThenQuote(LiteralReader(ed), EscapeJsString(Some(t)), Received(t));
  }

  /** A quote closes the literal at once. */
  lemma ClosingQuote(ed: Edition)
    ensures forall rest :: LiteralReader(ed)("'" + rest) == Some(([], 0))
  {
    forall rest
      ensures LiteralReader(ed)("'" + rest) == Some(([], 0))
    {
      assert ("'" + rest)[0] == '\'';
    }
  }

  lemma ThroughThenQuote(r: BodyReader, e: string, v: string)
    requires ReadsThrough(r, e, v)
    requires forall rest :: r("'" + rest) == Some(([], 0))
    ensures ReadsBackAs(r, e, v)
  {
    forall t
      ensures r(e + "'" + t) == Some((v, |e|))
    {
      assert r("'" + t) == Some(([], 0));
      assert r(e + ("'" + t)) == Some((v + [], 0 + |e|));
      assert e + "'" + t == e + ("'" + t);
      assert v + [] == v;
    }
  }

  /** `e` is a complete piece of a literal body standing for `v`: in front of
      any text that reads as a literal body, it puts `v` in front of the value
      and moves the closing quote `|e|` characters on. */
  ghost predicate ReadsThrough(r: BodyReader, e: string, v: string) {
    forall tail {:trigger r(e + tail)} :: r(tail).Some? ==>
      r(e + tail) == Some((v + r(tail).value.0, r(tail).value.1 + |e|))
  }

  /** What one escaped character stands for. */
  function Decoded(c: char): string {
    if c == '\r' then [] else [c]
  }

  /** One escaped character stands for itself, and a carriage return for
      nothing. */
  lemma ReadCharThrough(c: char, ed: Edition)
    requires ed == Es2019 || (c != '\U{2028}' && c != '\U{2029}')
    ensures ReadsThrough(LiteralReader(ed), EscapeChar(c), Decoded(c))
  {
    if c == '\\' || c == '\'' || c == '"' {
      SingleEscapeThrough(c, ed);
      assert EscapeChar(c) == ['\\', c] && Decoded(c) == [SingleEscape(c).value];
    } else if c == '\n' {
      SingleEscapeThrough('n', ed);
      assert EscapeChar(c) == ['\\', 'n'] && Decoded(c) == [SingleEscape('n').value];
    } else if c == '\r' {
      EmptyThrough(LiteralReader(ed));
      assert EscapeChar(c) == [] && Decoded(c) == [];
    } else {
      PlainThrough(c, ed);
      assert EscapeChar(c) == [c] && Decoded(c) == [c];
    }
  }

  lemma PlainThrough(c: char, ed: Edition)
    requires c != '\'' && c != '\\' && !ForbiddenInLiteral(c, ed)
    ensures ReadsThrough(LiteralReader(ed), [c], [c])
  {
    forall tail | LiteralReader(ed)(tail).Some?
      ensures LiteralReader(ed)([c] + tail)
        == Some(([c] + LiteralReader(ed)(tail).value.0, LiteralReader(ed)(tail).value.1 + 1))
    {
      ReadPlain(c, tail, ed, ReadQuoted(tail, ed).value);
    }
  }

  lemma SingleEscapeThrough(c: char, ed: Edition)
    requires SingleEscape(c).Some? && !IsLineTerminator(c)
    ensures ReadsThrough(LiteralReader(ed), ['\\', c], [SingleEscape(c).value])
  {
    forall tail | LiteralReader(ed)(tail).Some?
      ensures LiteralReader(ed)(['\\', c] + tail)
        == Some(([SingleEscape(c).value] + LiteralReader(ed)(tail).value.0, LiteralReader(ed)(tail).value.1 + 2))
    {
      ReadSingleEscape(c, tail, ed, ReadQuoted(tail, ed).value);
    }
  }

  /** Two complete pieces in a row are a complete piece. */
  lemma ComposeThrough(r: BodyReader, e1: string, v1: string, e2: string, v2: string)
    requires ReadsThrough(r, e1, v1) && ReadsThrough(r, e2, v2)
    ensures ReadsThrough(r, e1 + e2, v1 + v2)
  {
    forall tail | r(tail).Some?
      ensures r((e1 + e2) + tail) == Some(((v1 + v2) + r(tail).value.0, r(tail).value.1 + |e1 + e2|))
    {
      var p := r(tail).value;
      assert r(e2 + tail) == Some((v2 + p.0, p.1 + |e2|));
      assert r(e1 + (e2 + tail)) == Some((v1 + (v2 + p.0), p.1 + |e2| + |e1|));
      assert (e1 + e2) + tail == e1 + (e2 + tail);
      assert (v1 + v2) + p.0 == v1 + (v2 + p.0);
    }
  }

  lemma EmptyThrough(r: BodyReader)
    ensures ReadsThrough(r, [], [])
  {
    forall tail | r(tail).Some?
      ensures r([] + tail) == Some(([] + r(tail).value.0, r(tail).value.1 + 0))
    {
      assert [] + tail == tail;
      assert [] + r(tail).value.0 == r(tail).value.0;
    }
  }

  lemma {:induction false} EmbeddableCons(t: string, ed: Edition)
    requires t != [] && Embeddable(t, ed)
    ensures Embeddable(t[1..], ed)
    ensures ed == Es2019 || (t[0] != '\U{2028}' && t[0] != '\U{2029}')
  {
    assert t == [t[0]] + t[1..];
  }

  /** The escaped text is a complete piece standing for the text without
      carriage returns. */
  lemma {:induction false} EscapeCharsThrough(t: string, ed: Edition)
    requires Embeddable(t, ed)
    ensures ReadsThrough(LiteralReader(ed), EscapeChars(t), Received(t))
    decreases |t|
  {
    if t == [] {
      assert EscapeChars(t) == [] && Received(t) == [];
      EmptyThrough(LiteralReader(ed));
    } else {
      var c, u := t[0], t[1..];
      EmbeddableCons(t, ed);
      EscapeCharsThrough(u, ed);
      ReadCharThrough(c, ed);
      ComposeThrough(LiteralReader(ed), EscapeChar(c), Decoded(c), EscapeChars(u), Received(u));
      assert EscapeChars(t) == EscapeChar(c) + EscapeChars(u);
      assert Received(t) == Decoded(c) + Received(u);
    }
  }

  /** In ECMAScript 2015 the escaper is not enough: a line separator passes
      through unescaped and the literal no longer parses. */
  lemma LineSeparatorBreaksEs2015()
    ensures EscapeJsString(Some("\U{2028}")) == "\U{2028}"
    ensures ReadQuoted(EscapeJsString(Some("\U{2028}")) + "'", Es2015).None?
  {
    assert EscapeChars("\U{2028}") == "\U{2028}" + EscapeChars([]);
  }

  // ---------------------------------------------------------------------
  // The content call sent to the page

  function NatText(n: nat): string
    decreases n
  {
    if n < 10 then [('0' as int + n) as char] else NatText(n / 10) + [('0' as int + n % 10) as char]
  }

  /** Kotlin's `Int.toString()` for the style index. */
  function IntText(n: int): string {
    if n < 0 then "-" + NatText(-n) else NatText(n)
  }

  /** Already escaped texts, each between single quotes and followed by a
      comma, then `rest`. */
  function QuotedArgs(es: seq<string>, rest: string): string {
    if es == [] then rest else "'" + es[0] + "'," + QuotedArgs(es[1..], rest)
  }

  /** `escapeJsString` on a text that is not null. */
  function EscapeText(t: string): string {
    EscapeJsString(Some(t))
  }

  /** The script of `injectDataToWebView`: `updateContent` with the book name,
      author, chapter, selected text and thought as literals, then the style
      index. */
  function UpdateContentScript(bt: BookThought, thoughtText: string, styleIndex: int): string {
    UpdateContentPrefix + QuotedArgs(Map(ContentFields(bt, thoughtText), EscapeText), IntText(styleIndex) + ");")
  }

  const UpdateContentPrefix: string := "javascript:updateContent("

  /** The texts the page shows, in argument order. */
  function ContentFields(bt: BookThought, thoughtText: string): seq<string> {
    [bt.bookName, bt.bookAuthor, bt.chapterName, bt.selectedText, thoughtText]
  }

  /** Reads `n` literal arguments, each followed by a comma, with `r` reading
      each literal's body. */
  function ReadArgs(r: BodyReader, s: string, n: nat): Option<seq<string>>
    decreases n
  {
    if n == 0 then Some([])
    else if s == [] || s[0] != '\'' then None
    else
      match r(s[1..])
      case None => None
      case Some(p) =>
        if p.1 + 2 < |s| && s[p.1 + 2] == ',' then
          match ReadArgs(r, s[p.1 + 3..], n - 1)
          case None => None
          case Some(vs) => Some([p.0] + vs)
        else None
  }

  /** A quoted argument whose body reads back as `v`, closing `k` characters
      after the opening quote and followed by a comma, is read as `v` in front
      of the arguments after the comma. */
  lemma ReadArgsCons(r: BodyReader, s: string, k: nat, tail: string, n: nat, v: string, vs: seq<string>)
    requires k + 2 < |s| && s[0] == '\'' && s[k + 2] == ',' && s[k + 3..] == tail
    requires r(s[1..]) == Some((v, k))
    requires n >= 1 && ReadArgs(r, tail, n - 1) == Some(vs)
    ensures ReadArgs(r, s, n) == Some([v] + vs)
  {
  }

  /** Where the parts of one quoted argument sit in the script. */
  lemma QuotedArgSplit(s: string, e: string, tail: string)
    requires s == "'" + e + "'," + tail
    ensures |e| + 2 < |s| && s[0] == '\'' && s[|e| + 2] == ',' && s[|e| + 3..] == tail
    ensures s[1..] == e + "'" + ("," + tail)
  {
    assert s[|e| + 3..] == tail;
  }

  /** One quoted argument followed by a comma reads back as its value. */
  lemma ReadArgsStep(r: BodyReader, e: string, v: string, tail: string, n: nat, s: string, vs: seq<string>)
    requires ReadsBackAs(r, e, v)
    requires s == "'" + e + "'," + tail
    requires n >= 1 && ReadArgs(r, tail, n - 1) == Some(vs)
    ensures ReadArgs(r, s, n) == Some([v] + vs)
  {
    QuotedArgSplit(s, e, tail);
    assert r(e + "'" + ("," + tail)) == Some((v, |e|));
    ReadArgsCons(r, s, |e|, tail, n, v, vs);
  }

  lemma {:induction false} ReadQuotedArgs(r: BodyReader, es: seq<string>, vs: seq<string>, rest: string)
    requires |es| == |vs|
    requires forall i :: 0 <= i < |es| ==> ReadsBackAs(r, es[i], vs[i])
    ensures ReadArgs(r, QuotedArgs(es, rest), |es|) == Some(vs)
    decreases |es|
  {
    if es != [] {
      var tail := QuotedArgs(es[1..], rest);
      ReadQuotedArgs(r, es[1..], vs[1..], rest);
      assert |es[1..]| == |es| - 1;
      ReadArgsStep(r, es[0], vs[0], tail, |es|, QuotedArgs(es, rest), vs[1..]);
      assert [vs[0]] + vs[1..] == vs;
    }
  }

  /** The page recovers each of the five texts exactly (less carriage
      returns), in order: text cannot escape its argument. */
  lemma {:induction false} UpdateContentArguments(bt: BookThought, thoughtText: string, styleIndex: int, ed: Edition)
    requires forall i :: 0 <= i < |ContentFields(bt, thoughtText)| ==> Embeddable(ContentFields(bt, thoughtText)[i], ed)
    ensures var script := UpdateContentScript(bt, thoughtText, styleIndex);
      var fields := ContentFields(bt, thoughtText);
      |UpdateContentPrefix| <= |script| && script[..|UpdateContentPrefix|] == UpdateContentPrefix
      && ReadArgs(LiteralReader(ed), script[|UpdateContentPrefix|..], |fields|) == Some(Map(fields, Received))
  {
    var fields := ContentFields(bt, thoughtText);
    var es, vs := Map(fields, EscapeText), Map(fields, Received);
    var rest := IntText(styleIndex) + ");";
    forall i | 0 <= i < |es|
      ensures ReadsBackAs(LiteralReader(ed), es[i], vs[i])
    {
      ReadEscaped(fields[i], ed);
    }
    PrefixSplit(UpdateContentPrefix, QuotedArgs(es, rest));
    ReadQuotedArgs(LiteralReader(ed), es, vs, rest);
  }

  lemma PrefixSplit(p: string, m: string)
    ensures |p| <= |p + m| && (p + m)[..|p|] == p && (p + m)[|p|..] == m
  {
  }

  // ---------------------------------------------------------------------
  // The font handed to the page

  lemma SuffixCharMatches(path: string, suffix: string, i: int)
    requires EndsWithIgnoreCase(path, suffix) && 0 <= i < |suffix|
    ensures SameIgnoringCase(path[|path| - |suffix| + i], suffix[i])
  {
  }

  lemma SuffixCharDiffers(path: string, suffix: string, i: int)
    requires 0 <= i < |suffix| <= |path|
    requires !SameIgnoringCase(path[|path| - |suffix| + i], suffix[i])
    ensures !EndsWithIgnoreCase(path, suffix)
  {
  }

  /** The suffixes `guessFontMime` tests exclude each other: their last
      characters differ, or (for `.otf` and `.woff`) their fourth-last. */
  lemma FontSuffixesDisjoint(path: string)
    ensures EndsWithIgnoreCase(path, ".otf") ==> !EndsWithIgnoreCase(path, ".woff2") && !EndsWithIgnoreCase(path, ".woff")
    ensures EndsWithIgnoreCase(path, ".woff2") ==> !EndsWithIgnoreCase(path, ".woff")
  {
    var n := |path|;
    if EndsWithIgnoreCase(path, ".otf") {
      SuffixCharMatches(path, ".otf", 3);
      SuffixCharMatches(path, ".otf", 0);
      if n >= 6 {
        SuffixCharDiffers(path, ".woff2", 5);
      }
      if n >= 5 {
        SuffixCharDiffers(path, ".woff", 1);
      }
    }
    if EndsWithIgnoreCase(path, ".woff2") {
      SuffixCharMatches(path, ".woff2", 5);
      SuffixCharDiffers(path, ".woff", 4);
    }
  }

  /** `guessFontMime`: the MIME type named by the path's suffix, ignoring case,
      and TrueType when it has none of the three. */
  function GuessFontMime(path: string): (mime: string)
    ensures mime == "font/otf" <==> EndsWithIgnoreCase(path, ".otf")
    ensures mime == "font/woff2" <==> EndsWithIgnoreCase(path, ".woff2")
    ensures mime == "font/woff" <==> EndsWithIgnoreCase(path, ".woff")
    ensures mime == "font/ttf" <==>
      !EndsWithIgnoreCase(path, ".otf") && !EndsWithIgnoreCase(path, ".woff2") && !EndsWithIgnoreCase(path, ".woff")
  {
    FontSuffixesDisjoint(path);
    if EndsWithIgnoreCase(path, ".otf") then "font/otf"
    else if EndsWithIgnoreCase(path, ".woff2") then "font/woff2"
    else if EndsWithIgnoreCase(path, ".woff") then "font/woff"
    else "font/ttf"
  }

  newtype byte = x: int | 0 <= x < 256

  /** The file access `injectFont` uses: opening a content URI as a stream,
      `RealPathUtil.getPath`, and reading a file. */
  datatype FontFiles = FontFiles(
    openStream: string -> Attempt<seq<byte>>,
    realPath: string -> Attempt<string>,
    readFile: string -> Attempt<seq<byte>>)

  /** The font bytes for a configured path that is set: a content URI is read
      as a stream; another path is read directly when it is absolute and
      resolved to a file path first otherwise. */
  function FontBytes(path: string, isContentScheme: bool, f: FontFiles): Attempt<seq<byte>>
  {
    if isContentScheme then f.openStream(path)
    else if StartsWith(path, "/") then f.readFile(path)
    else
      match f.realPath(path)
      case Done(file) => f.readFile(file)
      case Null => Null
      case Thrown => Thrown
  }

  /** The call made to the page: `setFont` with the file's bytes (sent
      Base64-encoded) and its MIME type, or `setSystemFont` with a CSS family. */
  datatype FontInjection = SetFont(data: seq<byte>, mime: string) | SetSystemFont(family: string)

  /** `injectFont`: the configured font file when it is set and reads, typed by
      the configured path's suffix; the configured system family otherwise,
      also when reading returned null or failed. */
  function InjectFont(path: string, isContentScheme: bool, systemTypefaces: int, f: FontFiles): (r: FontInjection)
    ensures ClassifyFontPath(path, isContentScheme) == Unset ==>
      r == SetSystemFont(CssFamilyName(SystemFamily(systemTypefaces)))
    ensures ClassifyFontPath(path, isContentScheme) != Unset ==>
      if FontBytes(path, isContentScheme, f).Done?
      then r == SetFont(FontBytes(path, isContentScheme, f).value, GuessFontMime(path))
      else r == SetSystemFont(CssFamilyName(SystemFamily(systemTypefaces)))
  {
    match ClassifyFontPath(path, isContentScheme)
    case Unset => SetSystemFont(CssFamilyName(SystemFamily(systemTypefaces)))
    case _ =>
      match FontBytes(path, isContentScheme, f)
      case Done(bytes) => SetFont(bytes, GuessFontMime(path))
      case _ => SetSystemFont(CssFamilyName(SystemFamily(systemTypefaces)))
  }

  /** The page and the exported card agree on the family when no font file is
      configured. When a configured file fails to load, the card falls back to
      sans-serif but the page to the configured system family. */
  lemma FallbackFamilies(path: string, isContentScheme: bool, systemTypefaces: int,
                         f: FontFiles, p: ThoughtImageExporter.TypefacePlatform)
    ensures ClassifyFontPath(path, isContentScheme) == Unset ==>
      InjectFont(path, isContentScheme, systemTypefaces, f).family
        == CssFamilyName(ThoughtImageExporter.ResolveReadTypeface(path, isContentScheme, systemTypefaces, p).family)
    ensures (ClassifyFontPath(path, isContentScheme) != Unset
             && !FontBytes(path, isContentScheme, f).Done?
             && !ThoughtImageExporter.LoadTypeface(path, isContentScheme, p).Done?) ==>
      && ThoughtImageExporter.ResolveReadTypeface(path, isContentScheme, systemTypefaces, p)
           == ThoughtImageExporter.SystemTypeface(SansSerif)
      && InjectFont(path, isContentScheme, systemTypefaces, f)
           == SetSystemFont(CssFamilyName(SystemFamily(systemTypefaces)))
  {
  }

  // ---------------------------------------------------------------------
  // The selected card style

  /** The five card styles, by name. */
  const StyleNames: seq<string> := ["默认", "黏土", "水墨", "复古", "黑金"]

  predicate IsStyleIndex(i: int) {
    0 <= i < |StyleNames|
  }

  /** The dialog's style state: `currentStyleIndex`, the stored
      `AppConfig.thoughtShareStyle`, and the `changeStyle` calls sent to the
      page. */
  class ShareStyleState {
    var currentStyleIndex: int
    var savedStyle: int
    ghost var styleScripts: seq<int>

    /** Index and store agree on a valid style. */
    predicate Valid()
      reads this
    {
      IsStyleIndex(currentStyleIndex) && savedStyle == currentStyleIndex
    }

    /** The dialog starts from the stored style, whatever it holds. */
    constructor(saved: int)
      ensures currentStyleIndex == saved && savedStyle == saved && styleScripts == []
    {
      currentStyleIndex := saved;
      savedStyle := saved;
      styleScripts := [];
    }

    /** The check in `initView`: an index outside the five styles is reset to
        0 in the field and in the store; a valid one is kept. */
    method InitView()
      modifies this
      ensures IsStyleIndex(currentStyleIndex)
      ensures IsStyleIndex(old(currentStyleIndex)) ==>
        currentStyleIndex == old(currentStyleIndex) && savedStyle == old(savedStyle)
      ensures !IsStyleIndex(old(currentStyleIndex)) ==> currentStyleIndex == 0 && savedStyle == 0
      ensures styleScripts == old(styleScripts)
      ensures old(savedStyle) == old(currentStyleIndex) ==> Valid()
    {
      if !(0 <= currentStyleIndex < |StyleNames|) {
        currentStyleIndex := 0;
        savedStyle := 0;
      }
    }

    /** `changeStyle`: a valid index becomes current, is stored and is sent to
        the page; any other index changes nothing. */
    method ChangeStyle(index: int)
      modifies this
      ensures IsStyleIndex(index) ==>
        currentStyleIndex == index && savedStyle == index && styleScripts == old(styleScripts) + [index]
      ensures !IsStyleIndex(index) ==>
        currentStyleIndex == old(currentStyleIndex) && savedStyle == old(savedStyle)
        && styleScripts == old(styleScripts)
      ensures old(Valid()) ==> Valid()
    {
      if 0 <= index < |StyleNames| {
        currentStyleIndex := index;
        savedStyle := index;
        styleScripts := styleScripts + [index];
      }
    }
  }

  /** The index after `taps` on the style list, starting from `start`: each
      tap on a valid style other than the current one makes it current. */
  function TapIndex(start: int, taps: seq<int>): int {
    if taps == [] then start
    else
      var prev := TapIndex(start, taps[..|taps| - 1]);
      var t := taps[|taps| - 1];
      if IsStyleIndex(t) && t != prev then t else prev
  }

  /** The `changeStyle` scripts those taps send to the page. */
  function TapScripts(start: int, taps: seq<int>): seq<int> {
    if taps == [] then []
    else
      var n := |taps| - 1;
      var prev := TapIndex(start, taps[..n]);
      TapScripts(start, taps[..n]) + (if IsStyleIndex(taps[n]) && taps[n] != prev then [taps[n]] else [])
  }

  /** The final index is the last valid tap, or the start when no tap is
      valid. */
  lemma {:induction false} TapIndexIsLastValid(start: int, taps: seq<int>)
    ensures var v := Filter(taps, IsStyleIndex);
      TapIndex(start, taps) == if v == [] then start else v[|v| - 1]
    decreases |taps|
  {
    if taps != [] {
      TapIndexIsLastValid(start, taps[..|taps| - 1]);
    }
  }

  /** The page receives only valid indices, never the one already shown (the
      start, or the previous script), at most one per valid tap, and the last
      one it receives is the final index. */
  lemma {:induction false} TapScriptsShape(start: int, taps: seq<int>)
    ensures var sc, i := TapScripts(start, taps), TapIndex(start, taps);
      && (sc == [] ==> i == start)
      && (sc != [] ==> sc[|sc| - 1] == i && sc[0] != start)
      && (forall k :: 0 < k < |sc| ==> sc[k] != sc[k - 1])
      && (forall k :: 0 <= k < |sc| ==> IsStyleIndex(sc[k]))
      && |sc| <= |Filter(taps, IsStyleIndex)|
    decreases |taps|
  {
    if taps != [] {
      var n := |taps| - 1;
      TapScriptsShape(start, taps[..n]);
    }
  }

  /** A dialog opened on any stored value, then driven by taps on the style
      list, whose click handler calls `changeStyle` only for a position other
      than the current one. */
  method OpenAndTap(saved: int, taps: seq<int>) returns (state: ShareStyleState)
    ensures state.Valid()
    ensures var start := if IsStyleIndex(saved) then saved else 0;
      && state.currentStyleIndex == TapIndex(start, taps)
      && state.styleScripts == TapScripts(start, taps)
  {
    state := new ShareStyleState(saved);
    state.InitView();
    ghost var start := state.currentStyleIndex;
    var k := 0;
    while k < |taps|
      invariant 0 <= k <= |taps|
      invariant state.Valid()
      invariant state.currentStyleIndex == TapIndex(start, taps[..k])
      invariant state.styleScripts == TapScripts(start, taps[..k])
    {
      assert taps[..k + 1][..k] == taps[..k];
      if taps[k] != state.currentStyleIndex {
        state.ChangeStyle(taps[k]);
      }
      k := k + 1;
    }
    assert taps[..|taps|] == taps;
  }
}

/**
 * The brace-matching scanners of the story loader: `extractSection`,
 * which cuts the body of a `"name": { … }` entry out of a story file, and
 * the scan inside `parsePythonStory` that finds where the main
 * `flowchart_data = {` block ends.  Both walk the text once, counting `{`
 * and `}` outside double-quoted strings and skipping the character after
 * a backslash.
 */
module StoryScan {
  import opened Wrappers
  import opened JsText

  /** The scanner's variables between two characters */
  datatype Scan = Scan(braceCount: int, inString: bool, escapeNext: bool, startBraceFound: bool)

  /**
   * `guarded` is `extractSection`'s rule that a `}` only counts once a `{`
   * has been counted; the scan of `parsePythonStory` counts every `}`.
   */
  predicate CountsClose(s: Scan, guarded: bool) {
    s.startBraceFound || !guarded
  }

  /** Whether character `c` ends the scan: a counted `}` that brings the count back to 0 */
  predicate Closes(s: Scan, c: char, guarded: bool) {
    !s.escapeNext && !s.inString && c == '}' && CountsClose(s, guarded) && s.braceCount - 1 == 0
  }

  /** The scanner's variables after character `c`, when it does not end the scan */
  function Step(s: Scan, c: char, guarded: bool): Scan {
    if s.escapeNext then s.(escapeNext := false)
    else if c == '\\' then s.(escapeNext := true)
    else if c == '"' then s.(inString := !s.inString)
    else if s.inString then s
    else if c == '{' then s.(braceCount := s.braceCount + 1, startBraceFound := true)
    else if c == '}' && CountsClose(s, guarded) then s.(braceCount := s.braceCount - 1)
    else s
  }

  /** The position where a scan that is at position `i` in state `s` stops, if it does */
  function CloseFrom(data: string, i: nat, s: Scan, guarded: bool): (r: Option<nat>)
    requires i <= |data|
    decreases |data| - i
    ensures r.Some? ==> i <= r.value < |data| && data[r.value] == '}'
  {
    if i == |data| then None
    else if Closes(s, data[i], guarded) then Some(i)
    else CloseFrom(data, i + 1, Step(s, data[i], guarded), guarded)
  }

  /**
   * The scan loop shared by both scanners: from position `from` and the
   * given starting variables, the position of the closing brace, or -1.
   */
  method FindClose(data: string, from: nat, init: Scan, guarded: bool) returns (sectionEnd: int)
    requires from <= |data|
    ensures sectionEnd == -1 <==> CloseFrom(data, from, init, guarded).None?
    ensures sectionEnd != -1 ==> sectionEnd == CloseFrom(data, from, init, guarded).value
  {
    var braceCount, inString, escapeNext, startBraceFound := init.braceCount, init.inString, init.escapeNext, init.startBraceFound;
    sectionEnd := -1;
    var i := from;
    while i < |data|
      invariant from <= i <= |data|
      invariant CloseFrom(data, from, init, guarded) == CloseFrom(data, i, Scan(braceCount, inString, escapeNext, startBraceFound), guarded)
    {
      var c := data[i];
      if escapeNext {
        escapeNext := false;
      } else if c == '\\' {
        escapeNext := true;
      } else {
        if c == '"' && !inString {
          inString := true;
        } else if c == '"' && inString {
          inString := false;
        }
        if !inString {
          if c == '{' {
            braceCount := braceCount + 1;
            startBraceFound := true;
          } else if c == '}' && (startBraceFound || !guarded) {
            braceCount := braceCount - 1;
            if braceCount == 0 {
              sectionEnd := i;
              break;
            }
          }
        }
      }
      i := i + 1;
    }
  }

  /** `s.substring(a, b)`: the two ends are swapped when `a > b` */
  function Substring(s: string, a: nat, b: nat): string
    requires a <= |s| && b <= |s|
  {
    if a <= b then s[a..b] else s[b..a]
  }

  function SectionHeader(name: string): string {
    "\"" + name + "\": {"
  }

  const Fresh := Scan(0, false, false, false)

  /**
   * What `extractSection(data, name)` returns: nothing when the header is
   * absent or no matching `}` follows it, else the text from just after
   * the first `{` at or after the header up to that `}`.
   */
  function Section(data: string, name: string): Option<string> {
    var start := IndexOf(data, SectionHeader(name));
    if start == -1 then None
    else match CloseFrom(data, start, Fresh, true)
      case None => None
      case Some(sectionEnd) =>
        Some(Substring(data, IndexOfFrom(data, "{", start) + 1, sectionEnd))
  }

  /** `extractSection` */
  method ExtractSection(data: string, name: string) returns (r: Option<string>)
    ensures r == Section(data, name)
  {
    var sectionStart := IndexOf(data, SectionHeader(name));
    if sectionStart == -1 {
      return None;
    }
    var sectionEnd := FindClose(data, sectionStart, Fresh, true);
    if sectionEnd != -1 {
      var contentStart := IndexOfFrom(data, "{", sectionStart) + 1;
      return Some(Substring(data, contentStart, sectionEnd));
    }
    return None;
  }

  const FlowchartHeader := "flowchart_data = {"

  /**
   * The main data block of `parsePythonStory`: the scan starts just after
   * the header's `{` with the count at 0, and the block runs from that `{`
   * up to and including the `}` where the scan stops.
   */
  function MainBlock(content: string): Option<string> {
    var start := IndexOf(content, FlowchartHeader);
    if start == -1 then None
    else match CloseFrom(content, start + |FlowchartHeader|, Fresh, false)
      case None => None
      case Some(blockEnd) => Some(Substring(content, start + |FlowchartHeader| - 1, blockEnd + 1))
  }

  /** The block-finding part of `parsePythonStory` */
  method MainDataBlock(content: string) returns (r: Option<string>)
    ensures r == MainBlock(content)
  {
    var mainStart := IndexOf(content, FlowchartHeader);
    if mainStart == -1 {
      return None;
    }
    var mainEnd := FindClose(content, mainStart + |FlowchartHeader|, Fresh, false);
    if mainEnd == -1 {
      return None;
    }
    return Some(Substring(content, mainStart + |FlowchartHeader| - 1, mainEnd + 1));
  }

  // ------------------------------------------------------------ well-nested text

  /** A character of a double-quoted string: a plain one, or a backslash and the character it escapes */
  datatype Inside = StrChar(c: char) | StrEscape(c: char)

  /**
   * One piece of the text between a pair of braces, as the scanners read
   * it: a character that is not a brace, quote or backslash; a backslash
   * and the character after it; a double-quoted string; or a nested pair
   * of braces around more pieces.
   */
  datatype Piece = Other(c: char) | Escaped(c: char) | Quoted(parts: seq<Inside>) | Braced(body: seq<Piece>)

  /** The text one character of a string is written as */
  function InsideText(q: Inside): string {
    if q.StrChar? then [q.c] else ['\\', q.c]
  }

  function QuotedText(qs: seq<Inside>): string {
    if qs == [] then "" else InsideText(qs[0]) + QuotedText(qs[1..])
  }

  /** The text a piece is written as */
  function PieceText(p: Piece): string
    decreases p
  {
    match p
    case Other(c) => [c]
    case Escaped(c) => ['\\', c]
    case Quoted(qs) => "\"" + QuotedText(qs) + "\""
    case Braced(body) => "{" + Text(body) + "}"
  }

  /** The text a sequence of pieces is written as */
  function Text(ps: seq<Piece>): string
    decreases ps
  {
    if ps == [] then "" else PieceText(ps[0]) + Text(ps[1..])
  }

  /** The characters of a string piece that are written bare are neither a quote nor a backslash. */
  predicate QuotedOk(qs: seq<Inside>) {
    forall k :: 0 <= k < |qs| ==> qs[k].StrChar? ==> qs[k].c !in "\"\\"
  }

  /** A piece that is what it claims to be, at every depth */
  predicate PieceOk(p: Piece)
    decreases p
  {
    match p
    case Other(c) => c !in "{}\"\\"
    case Escaped(_) => true
    case Quoted(qs) => QuotedOk(qs)
    case Braced(body) => WellNested(body)
  }

  predicate WellNested(ps: seq<Piece>)
    decreases ps
  {
    ps == [] || (PieceOk(ps[0]) && WellNested(ps[1..]))
  }

  /** Pieces without a nested brace pair at the top level */
  predicate Flat(ps: seq<Piece>) {
    forall k :: 0 <= k < |ps| ==> !ps[k].Braced?
  }

  /** Text in which no character changes the scanner's state outside a string */
  predicate Plain(s: string) {
    forall k :: 0 <= k < |s| ==> s[k] !in "{}\"\\"
  }

  /** Text that can sit inside a string: no quote and no backslash */
  predicate Quotable(s: string) {
    forall k :: 0 <= k < |s| ==> s[k] !in "\"\\"
  }

  /** `x` is written in `data` from position `i` on. */
  predicate TextAt(data: string, i: nat, x: string) {
    i + |x| <= |data| && data[i..i + |x|] == x
  }

  /** Where the two parts of a concatenation sit in a text that holds it at `i` */
  lemma Split(data: string, i: nat, x: string, y: string)
    requires i + |x| + |y| <= |data| && data[i..i + |x| + |y|] == x + y
    ensures data[i..i + |x|] == x && data[i + |x|..i + |x| + |y|] == y
  {
    assert data[i..i + |x|] == data[i..i + |x| + |y|][..|x|];
    assert data[i + |x|..i + |x| + |y|] == data[i..i + |x| + |y|][|x|..];
  }

  /** The same, for texts written at a position */
  lemma SplitAt(data: string, i: nat, z: string, x: string, y: string)
    requires TextAt(data, i, z) && z == x + y
    ensures TextAt(data, i, x) && TextAt(data, i + |x|, y)
  {
    Split(data, i, x, y);
  }

  /**
   * Scanning the characters of a string, from inside the string, changes
   * nothing: quotes are escaped or absent and braces do not count there.
   */
  lemma {:induction false} InsideString(data: string, i: nat, qs: seq<Inside>, s: Scan, guarded: bool)
    requires QuotedOk(qs) && s.inString && !s.escapeNext && TextAt(data, i, QuotedText(qs))
    ensures CloseFrom(data, i, s, guarded) == CloseFrom(data, i + |QuotedText(qs)|, s, guarded)
    decreases qs
  {
    if qs != [] {
      var h := InsideText(qs[0]);
      SplitAt(data, i, QuotedText(qs), h, QuotedText(qs[1..]));
      InsideOne(data, i, qs[0], s, guarded);
      QuotedOkTail(qs);
      InsideString(data, i + |h|, qs[1..], s, guarded);
    }
  }

  /** One character of a string, plain or escaped, leaves the scan inside the string. */
  lemma InsideOne(data: string, i: nat, q: Inside, s: Scan, guarded: bool)
    requires s.inString && !s.escapeNext
    requires q.StrChar? ==> q.c !in "\"\\"
    requires TextAt(data, i, InsideText(q))
    ensures CloseFrom(data, i, s, guarded) == CloseFrom(data, i + |InsideText(q)|, s, guarded)
  {
    var h := InsideText(q);
    assert data[i] == h[0];
    if q.StrEscape? {
      assert data[i + 1] == h[1];
    }
  }

  lemma QuotedOkTail(qs: seq<Inside>)
    requires qs != [] && QuotedOk(qs)
    ensures QuotedOk(qs[1..])
  {
    forall k | 0 <= k < |qs[1..]| ensures qs[1..][k].StrChar? ==> qs[1..][k].c !in "\"\\" {
      assert qs[1..][k] == qs[k + 1];
    }
  }

  /** Where the parts of a text between two delimiters sit, in a text that holds it at `i` */
  lemma Delimited(data: string, i: nat, open: char, x: string, close: char)
    requires TextAt(data, i, [open] + x + [close])
    ensures data[i] == open && TextAt(data, i + 1, x) && data[i + 1 + |x|] == close
  {
    var w := data[i..i + |x| + 2];
    assert data[i] == w[0];
    SliceOfSlice(data, i, i + |x| + 2, 1, 1 + |x|);
    assert w[1..1 + |x|] == x by { Middle([open], x, [close]); }
    assert data[i + 1 + |x|] == w[1 + |x|];
  }

  /**
   * Scanning one well-formed piece leaves the scanner as it was, without
   * stopping: strings and escapes hide their braces, and a nested `{` is
   * matched by a `}` that only brings the count back.  A nested pair needs
   * the scan to be inside a counted pair already.
   */
  lemma {:induction false} PassOverPiece(data: string, i: nat, p: Piece, s: Scan, guarded: bool)
    requires PieceOk(p)
    requires TextAt(data, i, PieceText(p))
    requires !s.inString && !s.escapeNext
    requires !p.Braced? || (s.braceCount >= 1 && s.startBraceFound)
    ensures CloseFrom(data, i, s, guarded) == CloseFrom(data, i + |PieceText(p)|, s, guarded)
    decreases p, 2
  {
    match p
    case Other(c) => PassOverChar(data, i, c, s, guarded);
    case Escaped(c) => PassOverEscape(data, i, c, s, guarded);
    case Quoted(qs) => PassOverQuoted(data, i, qs, s, guarded);
    case Braced(body) => PassOverBraced(data, i, body, s, guarded);
  }

  /** A character that is not a brace, quote or backslash, outside strings */
  lemma PassOverChar(data: string, i: nat, c: char, s: Scan, guarded: bool)
    requires TextAt(data, i, [c]) && c !in "{}\"\\"
    requires !s.inString && !s.escapeNext
    ensures CloseFrom(data, i, s, guarded) == CloseFrom(data, i + 1, s, guarded)
  {
    assert data[i] == data[i..i + 1][0];
  }

  /** A backslash and the character it escapes, outside strings */
  lemma PassOverEscape(data: string, i: nat, c: char, s: Scan, guarded: bool)
    requires TextAt(data, i, ['\\', c])
    requires !s.inString && !s.escapeNext
    ensures CloseFrom(data, i, s, guarded) == CloseFrom(data, i + 2, s, guarded)
  {
    assert data[i] == data[i..i + 2][0];
    assert CloseFrom(data, i, s, guarded) == CloseFrom(data, i + 1, s.(escapeNext := true), guarded);
  }

  /** An opening brace outside strings is counted. */
  lemma OpenBrace(data: string, i: nat, s: Scan, guarded: bool)
    requires i < |data| && data[i] == '{' && !s.inString && !s.escapeNext
    ensures CloseFrom(data, i, s, guarded)
         == CloseFrom(data, i + 1, s.(braceCount := s.braceCount + 1, startBraceFound := true), guarded)
  {
  }

  /** A string, entered and left */
  lemma PassOverQuoted(data: string, i: nat, qs: seq<Inside>, s: Scan, guarded: bool)
    requires QuotedOk(qs) && !s.inString && !s.escapeNext
    requires TextAt(data, i, "\"" + QuotedText(qs) + "\"")
    ensures CloseFrom(data, i, s, guarded) == CloseFrom(data, i + |QuotedText(qs)| + 2, s, guarded)
  {
    Delimited(data, i, '"', QuotedText(qs), '"');
    InsideString(data, i + 1, qs, s.(inString := true), guarded);
  }

  /** A nested brace pair, inside a counted pair */
  lemma {:induction false} PassOverBraced(data: string, i: nat, body: seq<Piece>, s: Scan, guarded: bool)
    requires WellNested(body) && !s.inString && !s.escapeNext && s.braceCount >= 1 && s.startBraceFound
    requires TextAt(data, i, "{" + Text(body) + "}")
    ensures CloseFrom(data, i, s, guarded) == CloseFrom(data, i + |Text(body)| + 2, s, guarded)
    decreases body, 1
  {
    Delimited(data, i, '{', Text(body), '}');
    var inner := s.(braceCount := s.braceCount + 1, startBraceFound := true);
    OpenBrace(data, i, s, guarded);
    PassOver(data, i + 1, body, inner, guarded);
  }

  /** Where the first piece and the rest sit, in a text that holds a sequence of pieces at `i` */
  lemma SplitText(data: string, i: nat, ps: seq<Piece>)
    requires ps != [] && TextAt(data, i, Text(ps))
    ensures |Text(ps)| == |PieceText(ps[0])| + |Text(ps[1..])|
    ensures TextAt(data, i, PieceText(ps[0])) && TextAt(data, i + |PieceText(ps[0])|, Text(ps[1..]))
  {
    var h, t := PieceText(ps[0]), Text(ps[1..]);
    SplitAt(data, i, Text(ps), h, t);
  }

  lemma FlatTail(ps: seq<Piece>)
    requires ps != []
    ensures Flat(ps) ==> !ps[0].Braced? && Flat(ps[1..])
  {
    if Flat(ps) {
      forall k | 0 <= k < |ps[1..]| ensures !ps[1..][k].Braced? {
        assert ps[1..][k] == ps[k + 1];
      }
    }
  }

  /**
   * Scanning a well-nested sequence of pieces leaves the scanner as it
   * was, without stopping.  Outside any brace pair this needs pieces
   * without nested pairs.
   */
  lemma {:induction false} PassOver(data: string, i: nat, ps: seq<Piece>, s: Scan, guarded: bool)
    requires WellNested(ps) && TextAt(data, i, Text(ps))
    requires !s.inString && !s.escapeNext
    requires Flat(ps) || (s.braceCount >= 1 && s.startBraceFound)
    ensures CloseFrom(data, i, s, guarded) == CloseFrom(data, i + |Text(ps)|, s, guarded)
    decreases ps, 0
  {
    if ps != [] {
      var h := PieceText(ps[0]);
      SplitText(data, i, ps);
      FlatTail(ps);
      PassOverPiece(data, i, ps[0], s, guarded);
      PassOver(data, i + |h|, ps[1..], s, guarded);
    }
  }

  /**
   * Scanning text that holds no quote and no backslash, and no brace unless
   * the scan is inside a string, changes nothing.
   */
  lemma {:induction false} ScanPassesOver(data: string, i: nat, j: nat, s: Scan, guarded: bool)
    requires i <= j <= |data| && !s.escapeNext
    requires Quotable(data[i..j]) && (s.inString || Plain(data[i..j]))
    ensures CloseFrom(data, i, s, guarded) == CloseFrom(data, j, s, guarded)
    decreases j - i
  {
    if i < j {
      assert data[i] == data[i..j][0];
      assert data[i + 1..j] == data[i..j][1..];
      ScanPassesOver(data, i + 1, j, s, guarded);
    }
  }

  /** A quoted string: the scan enters and leaves it with its variables as they were. */
  lemma QuotedString(data: string, i: nat, text: string, s: Scan, guarded: bool)
    requires i + |text| + 2 <= |data| && data[i..i + |text| + 2] == "\"" + text + "\""
    requires !s.escapeNext && !s.inString && Quotable(text)
    ensures CloseFrom(data, i, s, guarded) == CloseFrom(data, i + |text| + 2, s, guarded)
  {
    var w := data[i..i + |text| + 2];
    assert data[i] == w[0] == '"';
    Middle("\"", text, "\"");
    SliceOfSlice(data, i, i + |text| + 2, 1, |text| + 1);
    assert data[i + 1..i + 1 + |text|] == w[1..|text| + 1] == text;
    assert data[i + 1 + |text|] == w[|text| + 1];
    ScanPassesOver(data, i + 1, i + 1 + |text|, s.(inString := true), guarded);
    assert data[i + 1 + |text|] == '"';
  }

  /** The header `"name": {` is scanned into a count of 1, its brace counted. */
  lemma HeaderScan(data: string, i: nat, name: string)
    requires i + |SectionHeader(name)| <= |data| && OccursAt(data, SectionHeader(name), i)
    requires Quotable(name)
    ensures CloseFrom(data, i, Fresh, true) == CloseFrom(data, i + |SectionHeader(name)|, Scan(1, false, false, true), true)
  {
    var h := SectionHeader(name);
    assert data[i..i + |name| + 2] == "\"" + name + "\"" by {
      assert data[i..i + |h|][..|name| + 2] == "\"" + name + "\"";
    }
    QuotedString(data, i, name, Fresh, true);
    var k := i + |name| + 2;
    var w := data[i..i + |h|];
    assert data[k] == w[|name| + 2] == ':';
    assert data[k + 1] == w[|name| + 3] == ' ';
    assert data[k + 2] == w[|name| + 4] == '{';
    assert CloseFrom(data, k, Fresh, true) == CloseFrom(data, k + 1, Fresh, true);
    assert CloseFrom(data, k + 1, Fresh, true) == CloseFrom(data, k + 2, Fresh, true);
    assert CloseFrom(data, k + 2, Fresh, true) == CloseFrom(data, k + 3, Scan(1, false, false, true), true);
  }

  lemma SliceOfSlice(s: string, i: nat, j: nat, a: nat, b: nat)
    requires i <= j <= |s| && a <= b <= j - i
    ensures s[i..j][a..b] == s[i + a..i + b]
  {
    assert forall k :: 0 <= k < b - a ==> s[i..j][a..b][k] == s[i + a..i + b][k];
  }

  /** The middle part of a concatenation */
  lemma Middle(x: string, y: string, z: string)
    ensures (x + y + z)[|x|..|x| + |y|] == y
  {
  }

  /**
   * `extractSection` cuts out exactly the body of the first `"name": {`
   * entry, for any well-nested body: braces inside strings or after a
   * backslash, and nested objects, do not end the section early.
   */
  lemma SectionOfBody(data: string, pre: string, name: string, body: seq<Piece>, post: string)
    requires data == pre + SectionHeader(name) + Text(body) + "}" + post
    requires forall i :: 0 <= i < |pre| ==> !OccursAt(data, SectionHeader(name), i)
    requires Plain(name) && WellNested(body)
    ensures Section(data, name) == Some(Text(body))
  {
    var h := SectionHeader(name);
    var z := "}" + post;
    assert data == pre + h + Text(body) + z;
    Parts(pre, h, Text(body), z);
    IndexOfFirst(data, h, 0, |pre|);
    assert data[|pre| + |h| + |Text(body)|] == z[0];
    SectionAt(data, |pre|, name, body);
  }

  /** The same, once the header and the body are located */
  lemma SectionAt(data: string, start: nat, name: string, body: seq<Piece>)
    requires start + |SectionHeader(name)| + |Text(body)| < |data|
    requires IndexOf(data, SectionHeader(name)) == start && OccursAt(data, SectionHeader(name), start)
    requires data[start + |SectionHeader(name)|..start + |SectionHeader(name)| + |Text(body)|] == Text(body)
    requires data[start + |SectionHeader(name)| + |Text(body)|] == '}'
    requires Plain(name) && WellNested(body)
    ensures Section(data, name) == Some(Text(body))
  {
    var b := start + |SectionHeader(name)|;
    BodyCloses(data, start, name, body);
    BraceInHeader(data, start, name);
    SectionFrom(data, name, start, b, b + |Text(body)|);
  }

  /** From the header, the scan stops at the `}` after a well-nested body. */
  lemma BodyCloses(data: string, start: nat, name: string, body: seq<Piece>)
    requires start + |SectionHeader(name)| + |Text(body)| < |data|
    requires OccursAt(data, SectionHeader(name), start)
    requires data[start + |SectionHeader(name)|..start + |SectionHeader(name)| + |Text(body)|] == Text(body)
    requires data[start + |SectionHeader(name)| + |Text(body)|] == '}'
    requires Plain(name) && WellNested(body)
    ensures CloseFrom(data, start, Fresh, true) == Some(start + |SectionHeader(name)| + |Text(body)|)
  {
    var b := start + |SectionHeader(name)|;
    PlainQuotable(name);
    HeaderScan(data, start, name);
    PassOver(data, b, body, Scan(1, false, false, true), true);
  }

  /** `extractSection`'s result once the header, its `{` and the closing `}` are known */
  lemma SectionFrom(data: string, name: string, start: nat, b: nat, e: nat)
    requires 1 <= b <= e < |data|
    requires IndexOf(data, SectionHeader(name)) == start
    requires CloseFrom(data, start, Fresh, true) == Some(e)
    requires IndexOfFrom(data, "{", start) == b - 1
    ensures Section(data, name) == Some(data[b..e])
  {
  }

  /** The first `{` at or after the header is the header's own. */
  lemma BraceInHeader(data: string, start: nat, name: string)
    requires OccursAt(data, SectionHeader(name), start) && Plain(name)
    ensures IndexOfFrom(data, "{", start) == start + |SectionHeader(name)| - 1
  {
    var h := SectionHeader(name);
    var p := start + |h| - 1;
    assert data[p] == h[|h| - 1] == '{';
    assert OccursAt(data, "{", p) by {
      assert data[p..p + 1] == [data[p]];
    }
    forall i | start <= i < p ensures !OccursAt(data, "{", i) {
      assert data[i] == h[i - start];
      if i - start > 0 && i - start <= |name| {
        assert h[i - start] == name[i - start - 1];
      }
      assert data[i] != '{';
      assert data[i..i + 1] == [data[i]];
    }
    IndexOfFirst(data, "{", start, p);
  }

  /** `indexOf` finds an occurrence with none before it. */
  lemma IndexOfFirst(s: string, t: string, from: nat, p: nat)
    requires from <= p <= |s| && OccursAt(s, t, p)
    requires forall i :: from <= i < p ==> !OccursAt(s, t, i)
    ensures IndexOfFrom(s, t, from) == p
  {
  }

  /**
   * As written, the scan of `parsePythonStory` begins after the opening
   * brace with the count at 0, so it stops at the `}` that closes the first
   * object nested in `flowchart_data`, not at the one that closes
   * `flowchart_data` itself.  Strings, escapes and the objects nested in
   * that first object do not stop it earlier.
   */
  lemma MainBlockEndsAtFirstNested(content: string, pre: string, a: seq<Piece>, b: seq<Piece>, rest: string)
    requires content == pre + FlowchartHeader + Text(a) + "{" + Text(b) + "}" + rest
    requires IndexOf(content, FlowchartHeader) == |pre|
    requires WellNested(a) && Flat(a) && WellNested(b)
    ensures MainBlock(content) == Some("{" + Text(a) + "{" + Text(b) + "}")
  {
    BlockLayout(content, pre, Text(a), Text(b), rest);
    FirstNestedAfterHeader(content, |pre|, a, b);
  }

  /** The same, for a text that holds the flat pieces and the brace pair right after the header at `s` */
  lemma FirstNestedAfterHeader(content: string, s: nat, a: seq<Piece>, b: seq<Piece>)
    requires IndexOf(content, FlowchartHeader) == s && s + |FlowchartHeader| <= |content|
    requires content[s + |FlowchartHeader| - 1] == '{'
    requires TextAt(content, s + |FlowchartHeader|, Text(a))
    requires TextAt(content, s + |FlowchartHeader| + |Text(a)|, "{" + Text(b) + "}")
    requires WellNested(a) && Flat(a) && WellNested(b)
    ensures MainBlock(content) == Some("{" + Text(a) + "{" + Text(b) + "}")
  {
    FirstNestedPieces(content, s, a, b);
    NestedClose(content, s + |FlowchartHeader|, a, b);
  }

  /** The block, if the scan stops after the brace pair */
  lemma FirstNestedPieces(content: string, s: nat, a: seq<Piece>, b: seq<Piece>)
    requires IndexOf(content, FlowchartHeader) == s && s + |FlowchartHeader| <= |content|
    requires content[s + |FlowchartHeader| - 1] == '{'
    requires TextAt(content, s + |FlowchartHeader|, Text(a))
    requires TextAt(content, s + |FlowchartHeader| + |Text(a)|, "{" + Text(b) + "}")
    ensures CloseFrom(content, s + |FlowchartHeader|, Fresh, false) == Some(s + |FlowchartHeader| + |Text(a)| + |Text(b)| + 1)
        ==> MainBlock(content) == Some("{" + Text(a) + "{" + Text(b) + "}")
  {
    if CloseFrom(content, s + |FlowchartHeader|, Fresh, false) == Some(s + |FlowchartHeader| + |Text(a)| + |Text(b)| + 1) {
      FirstNestedBlock(content, s, Text(a), Text(b));
    }
  }

  /** The block found when the scan from the header at `s` stops at the end of `x{y}` */
  lemma FirstNestedBlock(content: string, s: nat, x: string, y: string)
    requires IndexOf(content, FlowchartHeader) == s && s + |FlowchartHeader| <= |content|
    requires content[s + |FlowchartHeader| - 1] == '{'
    requires TextAt(content, s + |FlowchartHeader|, x)
    requires TextAt(content, s + |FlowchartHeader| + |x|, "{" + y + "}")
    requires CloseFrom(content, s + |FlowchartHeader|, Fresh, false) == Some(s + |FlowchartHeader| + |x| + |y| + 1)
    ensures MainBlock(content) == Some("{" + x + "{" + y + "}")
  {
    var p := "{" + y + "}";
    Join(content, s + |FlowchartHeader|, x, p);
    MainBlockAt(content, s, x + p);
    BraceRegroup(x, y);
  }

  /** Two adjacent slices make the slice of their concatenation. */
  lemma Join(data: string, i: nat, x: string, y: string)
    requires TextAt(data, i, x) && TextAt(data, i + |x|, y)
    ensures TextAt(data, i, x + y)
  {
    assert data[i..i + |x| + |y|] == data[i..i + |x|] + data[i + |x|..i + |x| + |y|];
  }

  /** Where the parts of the block sit in `pre + FlowchartHeader + x{y} + rest` */
  lemma BlockLayout(content: string, pre: string, x: string, y: string, rest: string)
    requires content == pre + FlowchartHeader + x + "{" + y + "}" + rest
    ensures |pre| + |FlowchartHeader| <= |content| && content[|pre| + |FlowchartHeader| - 1] == '{'
    ensures TextAt(content, |pre| + |FlowchartHeader|, x)
    ensures TextAt(content, |pre| + |FlowchartHeader| + |x|, "{" + y + "}")
  {
    var u := x + "{" + y + "}";
    Associate(pre + FlowchartHeader, x, y, rest);
    ThirdPart(pre, FlowchartHeader, u, rest);
    PairSlices(content, |pre| + |FlowchartHeader|, x, y);
  }

  /** Regrouping the parts of the block */
  lemma Associate(w: string, x: string, y: string, z: string)
    ensures w + x + "{" + y + "}" + z == w + (x + "{" + y + "}") + z
  {
  }

  lemma BraceRegroup(x: string, y: string)
    ensures "{" + (x + ("{" + y + "}")) == "{" + x + "{" + y + "}"
  {
  }

  /** The block, once the header and the scan's stopping point are located */
  lemma MainBlockAt(content: string, s: nat, u: string)
    requires s + |FlowchartHeader| <= |content| && |u| >= 1 && TextAt(content, s + |FlowchartHeader|, u)
    requires IndexOf(content, FlowchartHeader) == s && content[s + |FlowchartHeader| - 1] == '{'
    requires CloseFrom(content, s + |FlowchartHeader|, Fresh, false) == Some(s + |FlowchartHeader| + |u| - 1)
    ensures MainBlock(content) == Some("{" + u)
  {
    BlockText(content, s + |FlowchartHeader| - 1, u);
  }

  /** Where the second and third parts of a four-part concatenation sit */
  lemma ThirdPart(w: string, x: string, y: string, z: string)
    requires |x| > 0
    ensures (w + x + y + z)[|w| + |x|..|w| + |x| + |y|] == y
    ensures (w + x + y + z)[|w| + |x| - 1] == x[|x| - 1]
  {
    Parts(w, x, y, z);
  }

  /** The block that starts at an opening brace */
  lemma BlockText(content: string, k: nat, u: string)
    requires k + 1 + |u| <= |content| && content[k] == '{' && content[k + 1..k + 1 + |u|] == u
    ensures content[k..k + 1 + |u|] == "{" + u
  {
    assert content[k..k + 1 + |u|] == [content[k]] + content[k + 1..k + 1 + |u|];
  }

  /** Where the parts of a four-part concatenation sit */
  lemma Parts(w: string, x: string, y: string, z: string)
    ensures var t := w + x + y + z;
      && t[|w|..|w| + |x|] == x
      && t[|w| + |x|..|w| + |x| + |y|] == y
      && t[|w| + |x| + |y|..] == z
      && (|x| > 0 ==> t[|w| + |x| - 1] == x[|x| - 1])
  {
    var t := w + x + y + z;
    assert t == (w + x) + y + z;
    Middle(w + x, y, z);
    assert t == w + x + (y + z);
    Middle(w, x, y + z);
  }

  /** Where the parts of `x{y}` sit, in a text that holds it at `i` */
  lemma PairSlices(data: string, i: nat, x: string, y: string)
    requires TextAt(data, i, x + "{" + y + "}")
    ensures TextAt(data, i, x) && TextAt(data, i + |x|, "{" + y + "}")
  {
    var p := "{" + y + "}";
    SplitAt(data, i, x + "{" + y + "}", x, p);
  }

  /** A brace pair around well-nested pieces, scanned from a count of 0, closes at its own `}`. */
  lemma BracedClose(data: string, j: nat, b: seq<Piece>, guarded: bool)
    requires TextAt(data, j, "{" + Text(b) + "}")
    requires WellNested(b)
    ensures CloseFrom(data, j, Fresh, guarded) == Some(j + 1 + |Text(b)|)
  {
    var inner := Scan(1, false, false, true);
    Delimited(data, j, '{', Text(b), '}');
    OpenBrace(data, j, Fresh, guarded);
    PassOver(data, j + 1, b, inner, guarded);
  }

  /**
   * Flat pieces followed by one brace pair around well-nested pieces: an
   * unguarded scan from a count of 0 stops at that pair's `}`.
   */
  lemma NestedClose(content: string, i: nat, a: seq<Piece>, b: seq<Piece>)
    requires TextAt(content, i, Text(a)) && TextAt(content, i + |Text(a)|, "{" + Text(b) + "}")
    requires WellNested(a) && Flat(a) && WellNested(b)
    ensures CloseFrom(content, i, Fresh, false) == Some(i + |Text(a)| + |Text(b)| + 1)
  {
    PassOver(content, i, a, Fresh, false);
    BracedClose(content, i + |Text(a)|, b, false);
  }

  lemma PlainQuotable(s: string)
    requires Plain(s)
    ensures Quotable(s)
  {
    forall k | 0 <= k < |s| ensures s[k] !in "\"\\" {
      assert s[k] !in "{}\"\\";
    }
  }
}

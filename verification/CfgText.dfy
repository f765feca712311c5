/** The board configuration text: what the parser extracts and what the printer writes. A pointer
    into the text is modelled as the rest of the text from there on. */
module CfgText {
  import opened Wrappers

  predicate IsWord(c: char) {
    'A' <= c <= 'Z' || 'a' <= c <= 'z' || '0' <= c <= '9' || c == '_' || c == '-' || c == '.'
  }

  const BOARD_SECTION := "Board:"

  /** The word a pointer stands at. */
  function LeadingWord(s: string): string {
    if s != "" && IsWord(s[0]) then [s[0]] + LeadingWord(s[1..]) else ""
  }

  /** The text starts with b and the word, if it was one, ends there. The text is NUL-terminated. */
  predicate StrSame(s: string, b: string) {
    |b| <= |s| && s[..|b|] == b && (|s| == |b| || !IsWord(s[|b|]))
  }

  datatype Line = Line(kind: string, attrs: seq<(string, string)>)

  // ----- parser -----

  /** Skips to the first word outside comments; a comment runs from '#' to the end of its line. */
  function SkipToWord(s: string, comment: bool): (r: string)
    ensures |r| <= |s| && (r != "" ==> IsWord(r[0]))
  {
    if s == "" then ""
    else if comment || s[0] == '#' then SkipToWord(s[1..], s[0] != '\n')
    else if IsWord(s[0]) then s
    else SkipToWord(s[1..], false)
  }

  /** Behind the first '{'; None when the text has none and the search runs off its end. */
  function AfterBrace(s: string): (r: Option<string>)
    ensures r.Some? ==> |r.value| < |s|
  {
    if s == "" then None else if s[0] == '{' then Some(s[1..]) else AfterBrace(s[1..])
  }

  /** Words alternate between attribute and value. `rest` is what follows the closing brace. */
  datatype Scan = Scan(attrs: seq<(string, string)>, rest: Option<string>)

  function ScanAttrs(s: string, inWord: bool, attr: Option<string>, acc: seq<(string, string)>): (r: Scan)
    ensures r.rest.Some? ==> |r.rest.value| < |s|
  {
    if s == "" then Scan(acc, None)
    else if s[0] == '}' then Scan(acc, Some(s[1..]))
    else if !IsWord(s[0]) then ScanAttrs(s[1..], false, attr, acc)
    else if inWord then ScanAttrs(s[1..], true, attr, acc)
    else if attr == None then ScanAttrs(s[1..], true, Some(s), acc)
    else ScanAttrs(s[1..], true, None, acc + [(LeadingWord(attr.value), LeadingWord(s))])
  }

  /** `NoLine` ends the section; `Overrun` reads past the text. An unclosed line leaves the
      caller's `consume` as it was. */
  datatype Parsed = NoLine | Overrun | Closed(line: Line, rest: string) | Unclosed(line: Line)

  function ParseSection(s: string): (r: Parsed)
    ensures r.Closed? ==> |r.rest| < |s|
  {
    var name := SkipToWord(s, false);
    if name == "" || StrSame(name, BOARD_SECTION) then NoLine
    else
      match AfterBrace(name)
      case None => Overrun
      case Some(body) =>
        var scan := ScanAttrs(body, false, None, []);
        match scan.rest
        case None => Unclosed(Line(LeadingWord(name), scan.attrs))
        case Some(rest) => Closed(Line(LeadingWord(name), scan.attrs), rest)
  }

  // ----- the board tables the lines fill -----

  const MAX_I2C_NUM: nat := 2
  const MAX_CODEC_NUM: nat := 2

  datatype Table = I2c | I2s | Codec | Lcd | Sdcard | Camera

  /** Lines of any other type are taken without effect. */
  function TableOf(kind: string): Option<Table> {
    if kind == "i2c" then Some(I2c)
    else if kind == "i2s" then Some(I2s)
    else if kind == "sdcard" then Some(Sdcard)
    else if kind == "in_out" || kind == "out" || kind == "in" then Some(Codec)
    else if kind == "lcd" then Some(Lcd)
    else if kind == "camera" then Some(Camera)
    else None
  }

  function Capacity(t: Table): nat {
    match t
    case I2c => MAX_I2C_NUM
    case I2s => MAX_I2C_NUM
    case Codec => MAX_CODEC_NUM
    case _ => 1
  }

  function Entries(lines: seq<Line>, t: Table): nat {
    if lines == [] then 0 else (if TableOf(lines[0].kind) == Some(t) then 1 else 0) + Entries(lines[1..], t)
  }

  /** Whether the newest of the lines handed on so far is refused: its table is full, or it is a
      codec line refused for its attributes, which is left open here. */
  predicate FillFails(handed: seq<Line>, rejects: seq<Line> -> bool)
    requires handed != []
  {
    var last := |handed| - 1;
    match TableOf(handed[last].kind)
    case None => false
    case Some(t) => Entries(handed[..last], t) >= Capacity(t) || (t == Codec && rejects(handed))
  }

  datatype Status = Running | Finished | Failed | OffTheEnd

  /** So many rounds of the parse loop: the lines handed on, in order, and whether it has ended. The
      first refused line ends it. `consume` is the last closed line's length: an unclosed line
      moves on by that stale amount. */
  function ParseCfg(s: string, consume: nat, done: seq<Line>, rejects: seq<Line> -> bool, rounds: nat)
    : (seq<Line>, Status)
    decreases rounds
  {
    if rounds == 0 then (done, Running)
    else
      match ParseSection(s)
      case NoLine => (done, Finished)
      case Overrun => (done, OffTheEnd)
      case Closed(line, rest) =>
        if FillFails(done + [line], rejects) then (done + [line], Failed)
        else ParseCfg(rest, |s| - |rest|, done + [line], rejects, rounds - 1)
      case Unclosed(line) =>
        if FillFails(done + [line], rejects) then (done + [line], Failed)
        else if consume > |s| then (done + [line], OffTheEnd)
        else ParseCfg(s[consume..], consume, done + [line], rejects, rounds - 1)
  }

  // ----- printer -----

  function PrintAttrs(attrs: seq<(string, string)>): string {
    if attrs == [] then ""
    else attrs[0].0 + ": " + attrs[0].1 + (if |attrs| > 1 then ", " + PrintAttrs(attrs[1..]) else "")
  }

  function PrintLine(line: Line): string { line.kind + ": {" + PrintAttrs(line.attrs) + "}\n" }

  predicate AllWord(s: string) { forall c <- s :: IsWord(c) }

  predicate Word(s: string) { s != "" && AllWord(s) }

  predicate PlainLine(line: Line) {
    && Word(line.kind) && line.kind != "Board"
    && forall i :: 0 <= i < |line.attrs| ==> Word(line.attrs[i].0) && Word(line.attrs[i].1)
  }

  /** Text between lines: comment lines, blanks and any other non-word characters, not ending
      inside a comment. */
  predicate Gap(s: string, comment: bool) {
    if s == "" then !comment
    else if comment || s[0] == '#' then Gap(s[1..], s[0] != '\n')
    else !IsWord(s[0]) && Gap(s[1..], false)
  }

  /** Printed lines, each with a gap in front, and a gap at the end. */
  function Text(gaps: seq<string>, lines: seq<Line>, tail: string): string
    requires |gaps| == |lines|
  {
    if lines == [] then tail else gaps[0] + (PrintLine(lines[0]) + Text(gaps[1..], lines[1..], tail))
  }

  // ----- the parser undoes the printer -----

  lemma {:induction false} GapSkipped(g: string, comment: bool, rest: string)
    requires Gap(g, comment) && (rest == "" || IsWord(rest[0]))
    ensures SkipToWord(g + rest, comment) == rest
  {
    if g == "" {
      assert g + rest == rest;
    } else {
      assert (g + rest)[1..] == g[1..] + rest;
      GapSkipped(g[1..], if comment || g[0] == '#' then g[0] != '\n' else false, rest);
    }
  }

  lemma {:induction false} WordRead(w: string, rest: string)
    requires AllWord(w) && (rest == "" || !IsWord(rest[0]))
    ensures LeadingWord(w + rest) == w
  {
    if w == "" {
      assert w + rest == rest;
    } else {
      assert (w + rest)[1..] == w[1..] + rest;
      WordRead(w[1..], rest);
    }
  }

  /** Only the type "Board" looks like the start of the next section. */
  lemma BoardOnly(w: string, rest: string)
    requires Word(w) && |rest| > 1 && rest[0] == ':' && !IsWord(rest[1])
    ensures StrSame(w + rest, BOARD_SECTION) <==> w == "Board"
  {
    var s := w + rest;
    if |w| == 5 {
      assert s[..6] == w + ":" && s[6] == rest[1];
      assert "Board" + ":" == BOARD_SECTION && (w + ":")[..5] == w && BOARD_SECTION[..5] == "Board";
    } else if |w| < 5 {
      assert BOARD_SECTION[|w|] != ':';
      assert |s| >= 6 ==> s[..6][|w|] == ':';
    } else {
      assert BOARD_SECTION[5] == ':' && s[..6][5] == w[5] && IsWord(w[5]);
    }
  }

  lemma {:induction false} BraceFound(w: string, rest: string)
    requires '{' !in w
    ensures AfterBrace(w + "{" + rest) == Some(rest)
  {
    var s := w + "{" + rest;
    if w == "" {
      assert s[1..] == rest;
    } else {
      assert s[1..] == w[1..] + "{" + rest;
      BraceFound(w[1..], rest);
    }
  }

  /** Inside a word the scan only moves on. */
  lemma {:induction false} ScanThroughWord(w: string, rest: string, attr: Option<string>, acc: seq<(string, string)>)
    requires AllWord(w)
    ensures ScanAttrs(w + rest, true, attr, acc) == ScanAttrs(rest, true, attr, acc)
  {
    if w == "" {
      assert w + rest == rest;
    } else {
      assert (w + rest)[1..] == w[1..] + rest && (w + rest)[0] == w[0] && w[0] in w;
      ScanThroughWord(w[1..], rest, attr, acc);
    }
  }

  /** The first character of a word starts an attribute, or the value of one. */
  lemma {:induction false} ScanWordStart(s: string, attr: Option<string>, acc: seq<(string, string)>)
    requires s != "" && IsWord(s[0])
    ensures ScanAttrs(s, false, attr, acc)
         == if attr == None then ScanAttrs(s[1..], true, Some(s), acc)
            else ScanAttrs(s[1..], true, None, acc + [(LeadingWord(attr.value), LeadingWord(s))])
  {
    hide LeadingWord;
    assert s[0] != '}';
  }

  lemma {:induction false} ScanAttrName(w: string, rest: string, acc: seq<(string, string)>)
    requires Word(w)
    ensures ScanAttrs(w + rest, false, None, acc) == ScanAttrs(rest, true, Some(w + rest), acc)
  {
    hide ScanAttrs, LeadingWord;
    assert (w + rest)[0] == w[0] && w[0] in w && (w + rest)[1..] == w[1..] + rest;
    ScanWordStart(w + rest, None, acc);
    ScanThroughWord(w[1..], rest, Some(w + rest), acc);
  }

  lemma ScanValue(w: string, rest: string, attr: string, acc: seq<(string, string)>)
    requires Word(w) && (rest == "" || !IsWord(rest[0]))
    ensures ScanAttrs(w + rest, false, Some(attr), acc) == ScanAttrs(rest, true, None, acc + [(LeadingWord(attr), w)])
  {
    hide ScanAttrs, LeadingWord;
    assert (w + rest)[0] == w[0] && w[0] in w && (w + rest)[1..] == w[1..] + rest;
    WordRead(w, rest);
    ScanWordStart(w + rest, Some(attr), acc);
    ScanThroughWord(w[1..], rest, None, acc + [(LeadingWord(attr), w)]);
  }

  /** Two separator characters end a word and leave the pairing as it is. */
  lemma ScanSeparator(sep: string, rest: string, attr: Option<string>, acc: seq<(string, string)>)
    requires |sep| == 2 && forall c <- sep :: !IsWord(c) && c != '}'
    ensures ScanAttrs(sep + rest, true, attr, acc) == ScanAttrs(rest, false, attr, acc)
  {
    var s := sep + rest;
    assert s[0] == sep[0] && s[1..][0] == sep[1] && s[1..][1..] == rest;
    assert sep[0] in sep && sep[1] in sep;
  }

  lemma OneAttrScanned(a: string, v: string, end: string, acc: seq<(string, string)>)
    requires Word(a) && Word(v) && (end == "" || !IsWord(end[0]))
    ensures ScanAttrs(a + (": " + (v + end)), false, None, acc) == ScanAttrs(end, true, None, acc + [(a, v)])
  {
    hide ScanAttrs, LeadingWord;
    var s := a + (": " + (v + end));
    ScanAttrName(a, ": " + (v + end), acc);
    ScanSeparator(": ", v + end, Some(s), acc);
    WordRead(a, ": " + (v + end));
    ScanValue(v, end, s, acc);
  }

  lemma Joined(a: string, v: string, more: string, rest: string)
    ensures a + ": " + v + more + "}" + rest == a + (": " + (v + (more + "}" + rest)))
  {
  }

  lemma {:induction false} BraceScanned(rest: string, inWord: bool, acc: seq<(string, string)>)
    ensures ScanAttrs("}" + rest, inWord, None, acc) == Scan(acc, Some(rest))
  {
    assert ("}" + rest)[1..] == rest;
  }

  /** A printed attribute list, up to and past its closing brace. */
  lemma {:induction false} AttrsScanned(attrs: seq<(string, string)>, rest: string, acc: seq<(string, string)>)
    requires forall i :: 0 <= i < |attrs| ==> Word(attrs[i].0) && Word(attrs[i].1)
    ensures ScanAttrs(PrintAttrs(attrs) + "}" + rest, false, None, acc) == Scan(acc + attrs, Some(rest))
    decreases |attrs|, 0
  {
    hide ScanAttrs, Word;
    if attrs == [] {
      assert PrintAttrs(attrs) + "}" + rest == "}" + rest && acc + attrs == acc;
      BraceScanned(rest, false, acc);
    } else {
      var (a, v) := attrs[0];
      var more := if |attrs| > 1 then ", " + PrintAttrs(attrs[1..]) else "";
      var end := more + "}" + rest;
      Joined(a, v, more, rest);
      OneAttrScanned(a, v, end, acc);
      assert attrs[1..] == [] <==> |attrs| == 1;
      MoreAttrsScanned(attrs[1..], rest, acc + [(a, v)]);
      assert acc + attrs == acc + [(a, v)] + attrs[1..];
    }
  }

  /** What follows the first attribute: the brace, or a separator and the other attributes. */
  lemma {:induction false} MoreAttrsScanned(attrs: seq<(string, string)>, rest: string, acc: seq<(string, string)>)
    requires forall i :: 0 <= i < |attrs| ==> Word(attrs[i].0) && Word(attrs[i].1)
    ensures var more := if attrs == [] then "" else ", " + PrintAttrs(attrs);
      ScanAttrs(more + "}" + rest, true, None, acc) == Scan(acc + attrs, Some(rest))
    decreases |attrs|, 1
  {
    hide ScanAttrs, Word;
    if attrs == [] {
      assert "" + "}" + rest == "}" + rest && acc + attrs == acc;
      BraceScanned(rest, true, acc);
    } else {
      var tail := PrintAttrs(attrs) + "}" + rest;
      assert ", " + PrintAttrs(attrs) + "}" + rest == ", " + tail;
      ScanSeparator(", ", tail, None, acc);
      AttrsScanned(attrs, rest, acc);
    }
  }

  /** A printed line behind a gap is parsed back whole, and what follows it is left. */
  lemma LineParsed(gap: string, line: Line, rest: string)
    requires Gap(gap, false) && PlainLine(line)
    ensures ParseSection(gap + (PrintLine(line) + rest)) == Closed(line, "\n" + rest)
  {
    hide LeadingWord, ScanAttrs, AfterBrace, SkipToWord, PrintAttrs, Gap, StrSame;
    var w, inner := line.kind, PrintAttrs(line.attrs);
    var name := PrintLine(line) + rest;
    var body := inner + "}" + ("\n" + rest);
    var after := ": {" + body;
    assert name == w + after;
    assert name[0] == w[0] && w[0] in w;
    GapSkipped(gap, false, name);
    BoardOnly(w, after);
    WordRead(w, after);
    assert name == (w + ": ") + "{" + body;
    BraceFound(w + ": ", body);
    AttrsScanned(line.attrs, "\n" + rest, []);
    assert [] + line.attrs == line.attrs;
  }

  /** With no word left the section ends. */
  lemma TailEnds(tail: string)
    requires Gap(tail, false)
    ensures ParseSection(tail) == NoLine
  {
    GapSkipped(tail, false, "");
    assert tail + "" == tail;
  }

  /** Lines handed on one by one, up to the first that is refused. */
  function HandOn(done: seq<Line>, lines: seq<Line>, rejects: seq<Line> -> bool): (seq<Line>, Status)
    decreases |lines|
  {
    if lines == [] then (done, Finished)
    else if FillFails(done + [lines[0]], rejects) then (done + [lines[0]], Failed)
    else HandOn(done + [lines[0]], lines[1..], rejects)
  }

  /** All lines are handed on exactly when none is refused; otherwise the last one handed on is. */
  lemma {:induction false} AllHandedOnIff(done: seq<Line>, lines: seq<Line>, rejects: seq<Line> -> bool)
    ensures var (out, status) := HandOn(done, lines, rejects);
      && done <= out <= done + lines
      && (status == Finished <==> forall k :: 0 < k <= |lines| ==> !FillFails(done + lines[..k], rejects))
      && (status == Finished ==> out == done + lines)
      && (status != Finished ==> status == Failed && |out| > |done| && FillFails(out, rejects))
    decreases |lines|
  {
    hide FillFails;
    if lines != [] {
      var d := done + [lines[0]];
      AllHandedOnIff(d, lines[1..], rejects);
      assert d + lines[1..] == done + lines && done + lines[..1] == d;
      forall k | 0 < k <= |lines| - 1 ensures d + lines[1..][..k] == done + lines[..k + 1] {
      }
      assert forall k :: 1 < k <= |lines| ==> done + lines[..k] == d + lines[1..][..k - 1];
    }
  }

  /** One more line of a text: the line, and the rest as a text again. */
  lemma NextLine(gaps: seq<string>, lines: seq<Line>, tail: string) returns (gaps': seq<string>, tail': string)
    requires |gaps| == |lines| && lines != [] && PlainText(gaps, lines, tail)
    ensures |gaps'| == |lines| - 1 && PlainText(gaps', lines[1..], tail')
    ensures ParseSection(Text(gaps, lines, tail)) == Closed(lines[0], Text(gaps', lines[1..], tail'))
  {
    hide ParseSection, PlainLine, Gap, PrintLine;
    LineParsed(gaps[0], lines[0], Text(gaps[1..], lines[1..], tail));
    LeadingNewline(gaps[1..], lines[1..], tail);
    var next := WithNewline(gaps[1..], tail);
    gaps', tail' := next.0, next.1;
  }

  ghost predicate PlainText(gaps: seq<string>, lines: seq<Line>, tail: string)
    requires |gaps| == |lines|
  {
    Gap(tail, false) && forall i :: 0 <= i < |lines| ==> PlainLine(lines[i]) && Gap(gaps[i], false)
  }

  /** What is printed is parsed back: the same lines with the same attributes, in order, whatever
      comments and blanks stand between them, up to the first line that is refused; and one round
      a line and one for the end are enough. */
  lemma {:induction false} ParserUndoesPrinter(gaps: seq<string>, lines: seq<Line>, tail: string, consume: nat,
                                               done: seq<Line>, rejects: seq<Line> -> bool, rounds: nat)
    requires |gaps| == |lines| < rounds && PlainText(gaps, lines, tail)
    ensures ParseCfg(Text(gaps, lines, tail), consume, done, rejects, rounds) == HandOn(done, lines, rejects)
    decreases |lines|
  {
    hide PlainText, FillFails, ParseSection;
    if lines == [] {
      assert Gap(tail, false) by { TailIsGap(gaps, lines, tail); }
      TailEnds(tail);
    } else {
      var gaps', tail' := NextLine(gaps, lines, tail);
      var s, rest := Text(gaps, lines, tail), Text(gaps', lines[1..], tail');
      hide Text;
      ParserUndoesPrinter(gaps', lines[1..], tail', |s| - |rest|, done + [lines[0]], rejects, rounds - 1);
    }
  }

  lemma TailIsGap(gaps: seq<string>, lines: seq<Line>, tail: string)
    requires |gaps| == |lines| && PlainText(gaps, lines, tail)
    ensures Gap(tail, false)
  {
  }

  /** The newline behind a line belongs to the next gap. */
  function WithNewline(gaps: seq<string>, tail: string): (seq<string>, string) {
    if gaps == [] then ([], "\n" + tail) else (["\n" + gaps[0]] + gaps[1..], tail)
  }

  lemma NewlineGap(g: string)
    requires Gap(g, false)
    ensures Gap("\n" + g, false)
  {
    assert ("\n" + g)[1..] == g;
  }

  lemma LeadingNewline(gaps: seq<string>, lines: seq<Line>, tail: string)
    requires |gaps| == |lines| && Gap(tail, false) && forall i :: 0 <= i < |gaps| ==> Gap(gaps[i], false)
    ensures var (gaps', tail') := WithNewline(gaps, tail);
      && |gaps'| == |gaps| && Gap(tail', false) && (forall i :: 0 <= i < |gaps'| ==> Gap(gaps'[i], false))
      && Text(gaps', lines, tail') == "\n" + Text(gaps, lines, tail)
  {
    hide Gap, PrintLine;
    if gaps == [] {
      NewlineGap(tail);
    } else {
      NewlineGap(gaps[0]);
      var gaps' := ["\n" + gaps[0]] + gaps[1..];
      var more := PrintLine(lines[0]) + Text(gaps[1..], lines[1..], tail);
      assert gaps'[1..] == gaps[1..] && Text(gaps', lines, tail) == ("\n" + gaps[0]) + more;
      Regrouped("\n", gaps[0], more);
    }
  }

  lemma Regrouped(a: string, b: string, c: string)
    ensures (a + b) + c == a + (b + c)
  {
  }

  // ----- in plain characters -----

  /** The words of a line: its type, then attributes and values in turn. */
  function WordsOf(line: Line): seq<string> { [line.kind] + AttrWords(line.attrs) }

  function AttrWords(attrs: seq<(string, string)>): seq<string> {
    if attrs == [] then [] else [attrs[0].0, attrs[0].1] + AttrWords(attrs[1..])
  }

  lemma {:induction false} AttrWordsAre(attrs: seq<(string, string)>)
    ensures forall i :: 0 <= i < |attrs| ==> attrs[i].0 in AttrWords(attrs) && attrs[i].1 in AttrWords(attrs)
  {
    if attrs != [] {
      AttrWordsAre(attrs[1..]);
      assert attrs[0].0 == AttrWords(attrs)[0] && attrs[0].1 == AttrWords(attrs)[1];
      assert forall i :: 0 < i < |attrs| ==> attrs[i] == attrs[1..][i - 1];
    }
  }

  /** Comment lines. */
  function Comments(cs: seq<string>): string {
    if cs == [] then "" else "#" + cs[0] + "\n" + Comments(cs[1..])
  }

  lemma {:induction false} CommentSkipped(c: string, rest: string)
    requires '\n' !in c && Gap(rest, false)
    ensures Gap(c + "\n" + rest, true)
  {
    var s := c + "\n" + rest;
    if c == "" {
      assert s[1..] == rest;
    } else {
      assert s[1..] == c[1..] + "\n" + rest && s[0] == c[0] && c[0] in c;
      CommentSkipped(c[1..], rest);
    }
  }

  lemma {:induction false} CommentsAreGap(cs: seq<string>)
    requires forall c <- cs :: '\n' !in c
    ensures Gap(Comments(cs), false)
  {
    if cs != [] {
      CommentsAreGap(cs[1..]);
      CommentSkipped(cs[0], Comments(cs[1..]));
      var s := Comments(cs);
      assert s[1..] == cs[0] + "\n" + Comments(cs[1..]) && cs[0] in cs;
    }
  }

  function CommentGaps(comments: seq<seq<string>>): (gaps: seq<string>)
    ensures |gaps| == |comments|
    ensures forall i :: 0 <= i < |gaps| ==> gaps[i] == Comments(comments[i])
  {
    if comments == [] then [] else [Comments(comments[0])] + CommentGaps(comments[1..])
  }

  /** Printed lines with comment lines before each and behind the last. */
  function BoardText(comments: seq<seq<string>>, lines: seq<Line>, after: seq<string>): string
    requires |comments| == |lines|
  { Text(CommentGaps(comments), lines, Comments(after)) }

  lemma PlainFromCharacters(line: Line)
    requires line.kind != "Board"
    requires forall w <- WordsOf(line) :: w != "" && forall c <- w ::
      'A' <= c <= 'Z' || 'a' <= c <= 'z' || '0' <= c <= '9' || c == '_' || c == '-' || c == '.'
    ensures PlainLine(line)
  {
    AttrWordsAre(line.attrs);
    assert WordsOf(line)[0] == line.kind;
    assert forall w <- AttrWords(line.attrs) :: w in WordsOf(line);
    hide WordsOf, AttrWords;
    forall w | w in WordsOf(line) ensures Word(w) {
    }
    hide Word;
    forall i | 0 <= i < |line.attrs| ensures Word(line.attrs[i].0) && Word(line.attrs[i].1) {
      assert line.attrs[i].0 in WordsOf(line) && line.attrs[i].1 in WordsOf(line);
    }
  }

  /** The parser undoes the printer, for words of letters, digits, '_', '-' and '.', and whatever the
      comments say. */
  lemma PrintedBoardIsParsed(comments: seq<seq<string>>, lines: seq<Line>, after: seq<string>,
                             rejects: seq<Line> -> bool, rounds: nat)
    requires |comments| == |lines| < rounds
    requires forall i, c | 0 <= i < |comments| && c in comments[i] :: '\n' !in c
    requires forall c <- after :: '\n' !in c
    requires forall l <- lines :: l.kind != "Board"
    requires forall l <- lines, w <- WordsOf(l) :: w != "" && forall c <- w ::
      'A' <= c <= 'Z' || 'a' <= c <= 'z' || '0' <= c <= '9' || c == '_' || c == '-' || c == '.'
    ensures ParseCfg(BoardText(comments, lines, after), 0, [], rejects, rounds) == HandOn([], lines, rejects)
  {
    hide Text, PlainLine, Gap, ParseCfg, HandOn, Comments, IsWord, CommentGaps;
    var gaps := CommentGaps(comments);
    forall i | 0 <= i < |lines| ensures PlainLine(lines[i]) && Gap(gaps[i], false) {
      assert lines[i] in lines;
      PlainFromCharacters(lines[i]);
      CommentsAreGap(comments[i]);
    }
    CommentsAreGap(after);
    ParserUndoesPrinter(gaps, lines, Comments(after), 0, [], rejects, rounds);
  }

  const I2C_LINE := Line("i2c", [("sda", "17"), ("scl", "18")])

  lemma BoardLinePrinted()
    ensures PrintLine(I2C_LINE) == "i2c: {sda: 17, scl: 18}\n"
  {
    var rest := [("scl", "18")];
    assert I2C_LINE.attrs[1..] == rest;
    assert PrintAttrs(rest) == "scl: 18";
    assert PrintAttrs(I2C_LINE.attrs) == "sda: 17, scl: 18";
  }

  /** A line of the board file. */
  lemma BoardLineParsed(rejects: seq<Line> -> bool)
    ensures ParseCfg("i2c: {sda: 17, scl: 18}\n", 0, [], rejects, 2)
         == ([Line("i2c", [("sda", "17"), ("scl", "18")])], Finished)
  {
    hide ParseCfg, HandOn, PrintLine, PlainLine, Gap;
    BoardLinePrinted();
    I2cIsPlain();
    OneLineText();
    ParserUndoesPrinter([""], [I2C_LINE], "", 0, [], rejects, 2);
    OneLineHandedOn(I2C_LINE, rejects);
  }

  lemma OneLineText()
    ensures Text([""], [I2C_LINE], "") == PrintLine(I2C_LINE) && Gap("", false)
  {
    hide PrintLine;
    assert [I2C_LINE][1..] == [] && [""][1..] == [];
    assert "" + (PrintLine(I2C_LINE) + "") == PrintLine(I2C_LINE);
  }

  lemma I2cIsPlain()
    ensures PlainLine(I2C_LINE)
  {
    assert Word("i2c") && Word("sda") && Word("17") && Word("scl") && Word("18");
  }

  lemma OneLineHandedOn(line: Line, rejects: seq<Line> -> bool)
    requires line.kind == "i2c"
    ensures HandOn([], [line], rejects) == ([line], Finished)
  {
    assert [] + [line] == [line] && [line][1..] == [] && [line][..0] == [];
  }

  // ----- any layout -----

  /** Words with something before each. */
  function Spread(words: seq<string>, seps: seq<string>): string
    requires |words| == |seps|
  { if words == [] then "" else seps[0] + (words[0] + Spread(words[1..], seps[1..])) }

  /** Words two by two; an odd one at the end is left out. */
  function Pairs(words: seq<string>): seq<(string, string)> {
    if |words| < 2 then [] else [(words[0], words[1])] + Pairs(words[2..])
  }

  predicate Between(s: string) { forall c <- s :: !IsWord(c) && c != '}' }

  lemma {:induction false} BetweenSkipped(sep: string, rest: string, inWord: bool, attr: Option<string>,
                                          acc: seq<(string, string)>)
    requires Between(sep)
    ensures ScanAttrs(sep + rest, inWord, attr, acc) == ScanAttrs(rest, inWord && sep == "", attr, acc)
  {
    if sep == "" {
      assert sep + rest == rest;
    } else {
      assert (sep + rest)[0] == sep[0] && sep[0] in sep && (sep + rest)[1..] == sep[1..] + rest;
      BetweenSkipped(sep[1..], rest, false, attr, acc);
    }
  }

  /** Words up to a closing brace make pairs, whatever stands between them, lines ends included. */
  lemma {:induction false} SpreadScanned(words: seq<string>, seps: seq<string>, end: string, rest: string, inWord: bool,
                                         acc: seq<(string, string)>)
    requires |words| == |seps| && (inWord && words != [] ==> seps[0] != "")
    requires forall i :: 0 <= i < |words| ==> Word(words[i]) && Between(seps[i]) && (i > 0 ==> seps[i] != "")
    requires Between(end)
    ensures ScanAttrs(Spread(words, seps) + (end + ("}" + rest)), inWord, None, acc)
         == Scan(acc + Pairs(words), Some(rest))
    decreases |words|
  {
    hide ScanAttrs, Word, Between, LeadingWord, IsWord;
    var tail := end + ("}" + rest);
    if words == [] {
      assert Spread(words, seps) + tail == tail && acc + [] == acc;
      BetweenSkipped(end, "}" + rest, inWord, None, acc);
      BraceEnds(rest, inWord && end == "", None, acc);
    } else {
      var more := Spread(words[1..], seps[1..]) + tail;
      Regrouped(words[0], Spread(words[1..], seps[1..]), tail);
      Regrouped(seps[0], words[0] + Spread(words[1..], seps[1..]), tail);
      BetweenSkipped(seps[0], words[0] + more, inWord, None, acc);
      ScanAttrName(words[0], more, acc);
      if |words| == 1 {
        assert more == tail && acc + [] == acc;
        BetweenSkipped(end, "}" + rest, true, Some(words[0] + more), acc);
        BraceEnds(rest, end == "", Some(words[0] + more), acc);
      } else {
        SpreadPair(words, seps, end, rest, acc);
        SpreadScanned(words[2..], seps[2..], end, rest, true, acc + [(words[0], words[1])]);
        assert acc + [(words[0], words[1])] + Pairs(words[2..]) == acc + Pairs(words);
      }
    }
  }

  lemma SpreadPair(words: seq<string>, seps: seq<string>, end: string, rest: string, acc: seq<(string, string)>)
    requires |words| == |seps| >= 2
    requires forall i :: 0 <= i < |words| ==> Word(words[i]) && Between(seps[i]) && (i > 0 ==> seps[i] != "")
    requires Between(end)
    ensures var tail := end + ("}" + rest);
      var more := Spread(words[1..], seps[1..]) + tail;
      ScanAttrs(more, true, Some(words[0] + more), acc)
      == ScanAttrs(Spread(words[2..], seps[2..]) + tail, true, None, acc + [(words[0], words[1])])
  {
    hide ScanAttrs, Word, Between, LeadingWord, IsWord, Spread;
    var tail := end + ("}" + rest);
    TailStart(end, rest);
    ValueScanned(words, seps, Spread(words[1..], seps[1..]) + tail, tail, acc);
  }

  lemma TailStart(end: string, rest: string)
    requires Between(end)
    ensures var tail := end + ("}" + rest); tail != "" && !IsWord(tail[0])
  {
    assert end != "" ==> end[0] in end;
  }

  lemma {:induction false} BraceEnds(rest: string, inWord: bool, attr: Option<string>, acc: seq<(string, string)>)
    ensures ScanAttrs("}" + rest, inWord, attr, acc) == Scan(acc, Some(rest))
  {
    assert ("}" + rest)[1..] == rest;
  }

  /** After the first of two words the second is its value. */
  lemma ValueScanned(words: seq<string>, seps: seq<string>, more: string, tail: string, acc: seq<(string, string)>)
    requires |words| == |seps| >= 2 && more == Spread(words[1..], seps[1..]) + tail
    requires Word(words[0]) && Word(words[1]) && Between(seps[1]) && seps[1] != ""
    requires |words| > 2 ==> Between(seps[2]) && seps[2] != ""
    requires tail != "" && !IsWord(tail[0])
    ensures ScanAttrs(more, true, Some(words[0] + more), acc)
         == ScanAttrs(Spread(words[2..], seps[2..]) + tail, true, None, acc + [(words[0], words[1])])
  {
    hide ScanAttrs, LeadingWord;
    var last := Spread(words[2..], seps[2..]) + tail;
    assert words[1..][1..] == words[2..] && seps[1..][1..] == seps[2..];
    Regrouped(words[1], Spread(words[2..], seps[2..]), tail);
    Regrouped(seps[1], words[1] + Spread(words[2..], seps[2..]), tail);
    assert more == seps[1] + (words[1] + last);
    assert more[0] == seps[1][0] && seps[1][0] in seps[1];
    assert |words| > 2 ==> last[0] == seps[2][0] && seps[2][0] in seps[2];
    BetweenSkipped(seps[1], words[1] + last, true, Some(words[0] + more), acc);
    WordRead(words[0], more);
    ScanValue(words[1], last, words[0] + more, acc);
  }

  lemma NotBoard(w: string, rest: string)
    requires Word(w) && w != "Board" && rest != "" && !IsWord(rest[0])
    ensures !StrSame(w + rest, BOARD_SECTION)
  {
    hide LeadingWord;
    var s := w + rest;
    WordRead(w, rest);
    if StrSame(s, BOARD_SECTION) {
      var back := ":" + s[6..];
      assert s == BOARD_SECTION + s[6..] && BOARD_SECTION + s[6..] == "Board" + back;
      WordRead("Board", back);
      assert false;
    }
  }

  /** A line whose attributes scan is read, whatever stands before its brace. */
  lemma LineRead(gap: string, kind: string, before: string, body: string, attrs: seq<(string, string)>, rest: string)
    requires Gap(gap, false) && Word(kind) && kind != "Board"
    requires '{' !in before && (before != "" ==> !IsWord(before[0]))
    requires ScanAttrs(body, false, None, []) == Scan(attrs, Some(rest))
    ensures ParseSection(gap + (kind + (before + ("{" + body)))) == Closed(Line(kind, attrs), rest)
  {
    hide LeadingWord, ScanAttrs, AfterBrace, SkipToWord, Gap, StrSame;
    var after := before + ("{" + body);
    var name := kind + after;
    assert name[0] == kind[0] && kind[0] in kind;
    assert after[0] == if before == "" then '{' else before[0];
    GapSkipped(gap, false, name);
    NotBoard(kind, after);
    WordRead(kind, after);
    NoBraceInWord(kind);
    assert name == (kind + before) + "{" + body;
    BraceFound(kind + before, body);
  }

  /** A line in any layout: its type, anything up to a brace, words with anything else between them,
      and a brace. */
  lemma LineLaidOut(gap: string, kind: string, before: string, words: seq<string>, seps: seq<string>, end: string,
                    rest: string)
    requires Gap(gap, false) && Word(kind) && kind != "Board"
    requires '{' !in before && (before != "" ==> !IsWord(before[0]))
    requires |words| == |seps| && Between(end)
    requires forall i :: 0 <= i < |words| ==> Word(words[i]) && Between(seps[i]) && (i > 0 ==> seps[i] != "")
    ensures ParseSection(gap + (kind + (before + ("{" + (Spread(words, seps) + (end + ("}" + rest)))))))
         == Closed(Line(kind, Pairs(words)), rest)
  {
    hide ParseSection, ScanAttrs, Gap, Spread, Pairs, Word, Between, IsWord;
    SpreadScanned(words, seps, end, rest, false, []);
    assert [] + Pairs(words) == Pairs(words);
    LineRead(gap, kind, before, Spread(words, seps) + (end + ("}" + rest)), Pairs(words), rest);
  }

  lemma NoBraceInWord(w: string)
    requires Word(w)
    ensures '{' !in w
  {
  }

  // ----- when a line is refused -----

  /** How many of the lines are of one of the types. */
  function CountOf(lines: seq<Line>, kinds: set<string>): nat {
    if lines == [] then 0 else (if lines[0].kind in kinds then 1 else 0) + CountOf(lines[1..], kinds)
  }

  lemma {:induction false} EntriesCounted(lines: seq<Line>, t: Table, kinds: set<string>)
    requires forall kind :: TableOf(kind) == Some(t) <==> kind in kinds
    ensures Entries(lines, t) == CountOf(lines, kinds)
  {
    hide TableOf;
    if lines != [] {
      EntriesCounted(lines[1..], t, kinds);
    }
  }

  /** A line is refused exactly when it is the third of the type i2c or i2s, the third of in, out and
      in_out together, the second of lcd, sdcard or camera, or a codec line with bad attributes. */
  lemma RefusedIff(before: seq<Line>, line: Line, rejects: seq<Line> -> bool)
    ensures FillFails(before + [line], rejects) <==>
      || (line.kind == "i2c" && CountOf(before, {"i2c"}) >= 2)
      || (line.kind == "i2s" && CountOf(before, {"i2s"}) >= 2)
      || (line.kind in {"in", "out", "in_out"}
          && (CountOf(before, {"in", "out", "in_out"}) >= 2 || rejects(before + [line])))
      || (line.kind in {"lcd", "sdcard", "camera"} && CountOf(before, {line.kind}) >= 1)
  {
    hide Entries, CountOf, TableOf;
    assert (before + [line])[..|before|] == before && (before + [line])[|before|] == line;
    TableKinds();
    EntriesCounted(before, I2c, {"i2c"});
    EntriesCounted(before, I2s, {"i2s"});
    EntriesCounted(before, Codec, {"in", "out", "in_out"});
    EntriesCounted(before, Lcd, {"lcd"});
    EntriesCounted(before, Sdcard, {"sdcard"});
    EntriesCounted(before, Camera, {"camera"});
    var table := TableOf(line.kind);
    assert table == Some(Lcd) ==> line.kind == "lcd";
    assert table == Some(Sdcard) ==> line.kind == "sdcard";
    assert table == Some(Camera) ==> line.kind == "camera";
  }

  lemma TableKinds()
    ensures forall kind :: TableOf(kind) == Some(I2c) <==> kind in {"i2c"}
    ensures forall kind :: TableOf(kind) == Some(I2s) <==> kind in {"i2s"}
    ensures forall kind :: TableOf(kind) == Some(Codec) <==> kind in {"in", "out", "in_out"}
    ensures forall kind :: TableOf(kind) == Some(Lcd) <==> kind in {"lcd"}
    ensures forall kind :: TableOf(kind) == Some(Sdcard) <==> kind in {"sdcard"}
    ensures forall kind :: TableOf(kind) == Some(Camera) <==> kind in {"camera"}
  {
  }

  // ----- progress -----

  /** The parse is still running after any number of rounds. */
  ghost predicate RunsForever(s: string, rejects: seq<Line> -> bool) {
    forall rounds: nat :: ParseCfg(s, 0, [], rejects, rounds).1 == Running
  }

  /** Once a line has been closed every round consumes text, stale amounts included. */
  lemma {:induction false} EndsOnceMoving(s: string, consume: nat, done: seq<Line>, rejects: seq<Line> -> bool)
    requires consume > 0
    ensures ParseCfg(s, consume, done, rejects, |s| + 1).1 != Running
    decreases |s|
  {
    hide ParseSection, FillFails;
    match ParseSection(s)
    case Closed(line, rest) =>
      SectionShrinks(s);
      EndsOnceMoving(rest, |s| - |rest|, done + [line], rejects);
      MoreRounds(rest, |s| - |rest|, done + [line], rejects, |rest| + 1, |s|);
    case Unclosed(line) =>
      if consume <= |s| {
        EndsOnceMoving(s[consume..], consume, done + [line], rejects);
        MoreRounds(s[consume..], consume, done + [line], rejects, |s| - consume + 1, |s|);
      }
    case _ =>
  }

  lemma SectionShrinks(s: string)
    ensures ParseSection(s).Closed? ==> |ParseSection(s).rest| < |s|
  {
  }

  /** What has ended stays as it is. */
  lemma {:induction false} MoreRounds(s: string, consume: nat, done: seq<Line>, rejects: seq<Line> -> bool, n: nat,
      m: nat)
    requires n <= m && ParseCfg(s, consume, done, rejects, n).1 != Running
    ensures ParseCfg(s, consume, done, rejects, m) == ParseCfg(s, consume, done, rejects, n)
    decreases n
  {
    hide ParseSection, FillFails;
    match ParseSection(s)
    case Closed(line, rest) =>
      SectionShrinks(s);
      if !FillFails(done + [line], rejects) {
        MoreRounds(rest, |s| - |rest|, done + [line], rejects, n - 1, m - 1);
      }
    case Unclosed(line) =>
      if !FillFails(done + [line], rejects) && consume <= |s| {
        MoreRounds(s[consume..], consume, done + [line], rejects, n - 1, m - 1);
      }
    case _ =>
  }

  /** An unclosed first line that fills no table is parsed again and again. */
  lemma {:induction false} Repeats(s: string, done: seq<Line>, rejects: seq<Line> -> bool, rounds: nat)
    requires ParseSection(s).Unclosed? && TableOf(ParseSection(s).line.kind) == None
    ensures ParseCfg(s, 0, done, rejects, rounds).1 == Running
    decreases rounds
  {
    hide ParseSection;
    if rounds > 0 {
      assert s[0..] == s;
      Repeats(s, done + [ParseSection(s).line], rejects, rounds - 1);
    }
  }

  lemma {:induction false} EntriesSnoc(lines: seq<Line>, line: Line, t: Table)
    ensures Entries(lines + [line], t) == Entries(lines, t) + if TableOf(line.kind) == Some(t) then 1 else 0
  {
    if lines == [] {
      assert lines + [line] == [line] && [line][1..] == [];
    } else {
      assert (lines + [line])[1..] == lines[1..] + [line];
      EntriesSnoc(lines[1..], line, t);
    }
  }

  /** One that fills a table is refused once the table is full, which ends the parse. */
  lemma {:induction false} TableFillsUp(s: string, done: seq<Line>, rejects: seq<Line> -> bool, t: Table, rounds: nat)
    requires ParseSection(s).Unclosed? && TableOf(ParseSection(s).line.kind) == Some(t)
    requires rounds + Entries(done, t) > Capacity(t) && rounds > 0
    ensures ParseCfg(s, 0, done, rejects, rounds).1 == Failed
    decreases rounds
  {
    hide ParseSection, Entries, TableOf;
    var line := ParseSection(s).line;
    assert (done + [line])[..|done|] == done;
    if !FillFails(done + [line], rejects) {
      assert s[0..] == s;
      EntriesSnoc(done, line, t);
      TableFillsUp(s, done + [line], rejects, t, rounds - 1);
    }
  }

  /** The parse never ends exactly when its first line is opened and never closed, and is of a type
      that fills no table. */
  lemma RunsForeverIff(s: string, rejects: seq<Line> -> bool)
    ensures RunsForever(s, rejects) <==> ParseSection(s).Unclosed? && TableOf(ParseSection(s).line.kind) == None
  {
    hide ParseSection, TableOf, FillFails;
    match ParseSection(s)
    case Closed(line, rest) =>
      SectionShrinks(s);
      EndsOnceMoving(rest, |s| - |rest|, [] + [line], rejects);
      assert ParseCfg(s, 0, [], rejects, |rest| + 2).1 != Running;
    case Unclosed(line) =>
      match TableOf(line.kind) {
        case None =>
          forall rounds: nat ensures ParseCfg(s, 0, [], rejects, rounds).1 == Running {
            Repeats(s, [], rejects, rounds);
          }
        case Some(t) =>
          TableFillsUp(s, [], rejects, t, Capacity(t) + 1);
      }
    case _ =>
      assert ParseCfg(s, 0, [], rejects, 1).1 != Running;
  }

  /** A text that hangs the parser, whatever codec lines it would refuse, and one that differs only in
      its type and does not. */
  lemma UnclosedFirstLineHangs(rejects: seq<Line> -> bool)
    ensures RunsForever("a{", rejects) && !RunsForever("in{", rejects)
  {
    var s, t := "a{", "in{";
    assert s[1..] == "{" && s[1..][1..] == "" && t[1..] == "n{" && t[1..][1..] == "{" && t[1..][1..][1..] == "";
    assert LeadingWord(s) == "a" && LeadingWord(t) == "in";
    RunsForeverIff(s, rejects);
    RunsForeverIff(t, rejects);
  }

  // ----- leaving the text -----

  /** Where the loop is before a round. */
  datatype Progress = Progress(rest: string, consume: nat, done: seq<Line>)

  /** Where it is n rounds later, if it goes on so long. */
  function After(p: Progress, rejects: seq<Line> -> bool, n: nat): Option<Progress>
    decreases n
  {
    if n == 0 then Some(p)
    else
      match ParseSection(p.rest)
      case Closed(line, rest) =>
        if FillFails(p.done + [line], rejects) then None
        else After(Progress(rest, |p.rest| - |rest|, p.done + [line]), rejects, n - 1)
      case Unclosed(line) =>
        if FillFails(p.done + [line], rejects) || p.consume > |p.rest| then None
        else After(Progress(p.rest[p.consume..], p.consume, p.done + [line]), rejects, n - 1)
      case _ => None
  }

  /** A last word without a brace, or an unclosed line that is taken and is shorter than the last
      closed one. */
  predicate Leaves(p: Progress, rejects: seq<Line> -> bool) {
    match ParseSection(p.rest)
    case Overrun => true
    case Unclosed(line) => !FillFails(p.done + [line], rejects) && p.consume > |p.rest|
    case _ => false
  }

  ghost predicate LeavesAfter(p: Progress, rejects: seq<Line> -> bool, n: nat) {
    After(p, rejects, n).Some? && Leaves(After(p, rejects, n).value, rejects)
  }

  /** The parse stays inside its text for so many rounds exactly when it meets no such place. */
  lemma {:induction false} StaysInsideIff(p: Progress, rejects: seq<Line> -> bool, rounds: nat)
    ensures ParseCfg(p.rest, p.consume, p.done, rejects, rounds).1 != OffTheEnd
       <==> forall n: nat :: n < rounds ==> !LeavesAfter(p, rejects, n)
    decreases rounds
  {
    hide ParseSection, FillFails;
    if rounds > 0 {
      if After(p, rejects, 1).Some? {
        var next := After(p, rejects, 1).value;
        StaysInsideIff(next, rejects, rounds - 1);
        forall n: nat | n > 0 ensures LeavesAfter(p, rejects, n) <==> LeavesAfter(next, rejects, n - 1) {
        }
        if n: nat :| n < rounds && LeavesAfter(p, rejects, n) {
          assert n > 0 ==> LeavesAfter(next, rejects, n - 1);
        }
        if n: nat :| n < rounds - 1 && LeavesAfter(next, rejects, n) {
          assert LeavesAfter(p, rejects, n + 1);
        }
      } else {
        assert LeavesAfter(p, rejects, 0) <==> Leaves(p, rejects);
        assert forall n: nat :: n > 0 ==> !LeavesAfter(p, rejects, n);
      }
    }
  }

  /** A printed line and then an unclosed one, both taken: the parse leaves the text there exactly
      when the unclosed line with what follows it is shorter than the line before. */
  lemma UnclosedLastLineIff(gap: string, line: Line, rest: string, rejects: seq<Line> -> bool)
    requires Gap(gap, false) && PlainLine(line) && ParseSection("\n" + rest).Unclosed?
    requires !FillFails([line], rejects) && !FillFails([line, ParseSection("\n" + rest).line], rejects)
    ensures ParseCfg(gap + (PrintLine(line) + rest), 0, [], rejects, 2).1 == OffTheEnd
       <==> |gap| + |PrintLine(line)| > |rest| + 2
  {
    hide ParseSection, FillFails, PrintLine;
    LineParsed(gap, line, rest);
    var s, tail := gap + (PrintLine(line) + rest), "\n" + rest;
    assert [] + [line] == [line] && [line] + [ParseSection(tail).line] == [line, ParseSection(tail).line];
  }

  /** Such a text: the second line is unclosed and shorter than the first. */
  lemma ShortUnclosedLineLeaves(rejects: seq<Line> -> bool)
    ensures ParseCfg("a: {}\nb{", 0, [], rejects, 2).1 == OffTheEnd
  {
    var line := Line("a", []);
    var rest := "b{";
    UnclosedAfterNewline();
    assert "a: {}\nb{" == "" + (PrintLine(line) + rest) by {
      assert PrintLine(line) == "a" + ": {" + "" + "}\n" == "a: {}\n";
    }
    UnclosedLastLineIff("", line, rest, rejects);
  }

  lemma UnclosedAfterNewline()
    ensures ParseSection("\n" + "b{") == Unclosed(Line("b", []))
  {
    var b := "b{";
    assert ("\n" + b)[1..] == b && b[1..] == "{" && b[1..][1..] == "";
    assert SkipToWord("\n" + b, false) == SkipToWord(b, false) == b;
    assert AfterBrace(b) == AfterBrace(b[1..]) == Some("");
    assert LeadingWord(b[1..]) == "" && LeadingWord(b) == "b";
  }
}

/** The parser in its own form: loops that advance positions in the text. */
module CfgParse {
  import T = CfgText
  import opened CfgText
  import opened Wrappers

  method WordAt(text: string, at: nat) returns (word: string)
    requires at <= |text|
    ensures word == LeadingWord(text[at..])
  {
    var s := at;
    word := "";
    while s < |text| && IsWord(text[s])
      invariant at <= s <= |text|
      invariant word + LeadingWord(text[s..]) == LeadingWord(text[at..])
    {
      assert text[s..][1..] == text[s + 1..];
      word := word + [text[s]];
      s := s + 1;
    }
    assert LeadingWord(text[s..]) == "";
  }

  method ParseSection(text: string, start: nat) returns (r: Parsed)
    requires start <= |text|
    ensures r == T.ParseSection(text[start..])
  {
    hide SkipToWord, AfterBrace, StrSame, LeadingWord, ScanAttrs;
    var name := FindName(text, start);
    assert text[name..] == "" <==> name == |text|;
    if name == |text| || StrSame(text[name..], BOARD_SECTION) {
      return NoLine;
    }
    var kind := WordAt(text, name);
    var found, s := FindBrace(text, name);
    if !found {
      return Overrun;
    }
    r := ScanBody(text, s, kind);
  }

  /** Passes over comments and other non-word characters. */
  method FindName(text: string, start: nat) returns (name: nat)
    requires start <= |text|
    ensures name <= |text| && text[name..] == SkipToWord(text[start..], false)
  {
    var isComment := false;
    name := start;
    while name < |text|
      invariant start <= name <= |text|
      invariant SkipToWord(text[name..], isComment) == SkipToWord(text[start..], false)
    {
      assert text[name..][1..] == text[name + 1..];
      if text[name] == '#' {
        isComment := true;
      }
      if isComment {
        if text[name] == '\n' {
          isComment := false;
        }
      } else if IsWord(text[name]) {
        break;
      }
      name := name + 1;
    }
  }

  /** Passes the next opening brace, if the text has one. */
  method FindBrace(text: string, from: nat) returns (found: bool, s: nat)
    requires from <= |text|
    ensures s <= |text| && AfterBrace(text[from..]) == if found then Some(text[s..]) else None
  {
    s := from;
    while s < |text| && text[s] != '{'
      invariant from <= s <= |text|
      invariant AfterBrace(text[s..]) == AfterBrace(text[from..])
    {
      assert text[s..][1..] == text[s + 1..];
      s := s + 1;
    }
    found := s < |text|;
    if found {
      assert text[s..][1..] == text[s + 1..];
      s := s + 1;
    }
  }

  /** The loop over the characters between the braces. */
  method ScanBody(text: string, from: nat, kind: string) returns (r: Parsed)
    requires from <= |text|
    ensures var scan := ScanAttrs(text[from..], false, None, []);
      r == match scan.rest
           case None => Unclosed(Line(kind, scan.attrs))
           case Some(rest) => Closed(Line(kind, scan.attrs), rest)
  {
    var s, wordLen := from, 0;
    var attr: Option<nat> := None;
    var attrs: seq<(string, string)> := [];
    while s < |text|
      invariant from <= s <= |text| && (attr.Some? ==> attr.value <= |text|)
      invariant var at := if attr.Some? then Some(text[attr.value..]) else None;
        ScanAttrs(text[s..], wordLen > 0, at, attrs) == ScanAttrs(text[from..], false, None, [])
    {
      assert text[s..][1..] == text[s + 1..];
      if text[s] == '}' {
        return Closed(Line(kind, attrs), text[s + 1..]);
      }
      if IsWord(text[s]) {
        if wordLen == 0 {
          if attr == None {
            attr := Some(s);
          } else {
            var a := WordAt(text, attr.value);
            var v := WordAt(text, s);
            attrs := attrs + [(a, v)];
            attr := None;
          }
        }
        wordLen := wordLen + 1;
      } else {
        wordLen := 0;
      }
      s := s + 1;
    }
    r := Unclosed(Line(kind, attrs));
  }

  /** Hands the lines on one by one until the text ends or a line is refused; watched for so many
      rounds, as the source's loop need not end. */
  method ParseCfg(text: string, rejects: seq<Line> -> bool, rounds: nat) returns (lines: seq<Line>, status: Status)
    ensures (lines, status) == T.ParseCfg(text, 0, [], rejects, rounds)
  {
    hide T.ParseSection, FillFails;
    var section: nat, consume: nat, left := 0, 0, rounds;
    lines := [];
    assert text[0..] == text;
    while left > 0
      invariant section <= |text|
      invariant T.ParseCfg(text, 0, [], rejects, rounds) == T.ParseCfg(text[section..], consume, lines, rejects, left)
      decreases left
    {
      var parsed := ParseSection(text, section);
      match parsed {
        case NoLine =>
          return lines, Finished;
        case Overrun =>
          return lines, OffTheEnd;
        case Closed(line, rest) =>
          SectionShrinks(text[section..]);
          RestIsSuffix(text[section..]);
          consume := |text| - section - |rest|;
          assert rest == text[section..][consume..];
        case Unclosed(line) =>
      }
      lines := lines + [parsed.line];
      if FillFails(lines, rejects) {
        return lines, Failed;
      }
      if consume > |text| - section {
        return lines, OffTheEnd;
      }
      assert text[section..][consume..] == text[section + consume..];
      section := section + consume;
      left := left - 1;
    }
    status := Running;
  }

  /** What is left after a line is the end of the text. */
  lemma RestIsSuffix(s: string)
    ensures var p := T.ParseSection(s); p.Closed? ==> p.rest == s[|s| - |p.rest|..]
  {
    hide SkipToWord, AfterBrace, ScanAttrs, StrSame, LeadingWord;
    SkipIsSuffix(s, false);
    var name := SkipToWord(s, false);
    BraceIsSuffix(name);
    if AfterBrace(name).Some? {
      var body := AfterBrace(name).value;
      ScanIsSuffix(body, false, None, []);
    }
  }

  lemma {:induction false} SkipIsSuffix(s: string, comment: bool)
    ensures var r := SkipToWord(s, comment); r == s[|s| - |r|..]
  {
    if s != "" && (comment || s[0] == '#') {
      SkipIsSuffix(s[1..], s[0] != '\n');
    } else if s != "" && !IsWord(s[0]) {
      SkipIsSuffix(s[1..], false);
    }
  }

  lemma {:induction false} BraceIsSuffix(s: string)
    ensures var r := AfterBrace(s); r.Some? ==> r.value == s[|s| - |r.value|..]
  {
    if s != "" && s[0] != '{' {
      BraceIsSuffix(s[1..]);
    }
  }

  lemma {:induction false} ScanIsSuffix(s: string, inWord: bool, attr: Option<string>, acc: seq<(string, string)>)
    ensures var r := ScanAttrs(s, inWord, attr, acc).rest; r.Some? ==> r.value == s[|s| - |r.value|..]
    decreases |s|
  {
    if s == "" || s[0] == '}' {
    } else if !IsWord(s[0]) {
      ScanIsSuffix(s[1..], false, attr, acc);
    } else if inWord {
      ScanIsSuffix(s[1..], true, attr, acc);
    } else if attr == None {
      ScanIsSuffix(s[1..], true, Some(s), acc);
    } else {
      ScanIsSuffix(s[1..], true, None, acc + [(LeadingWord(attr.value), LeadingWord(s))]);
    }
  }
}

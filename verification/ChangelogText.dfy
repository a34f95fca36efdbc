/**
 The text layer of the release script (scripts/prepare-release.py): lines, the three
 patterns it recognises, and cutting a list of lines into headed sections, which serves
 both version blocks and sub-sections.
 */
module ChangelogText {
  import opened Common

  // --------------------------------------------------------------------- lines

  function SplitLines(text: string): (lines: seq<string>)
    ensures lines != []
  {
    if text == "" then [""]
    else if text[0] == '\n' then [""] + SplitLines(text[1..])
    else Prepend(text[0], SplitLines(text[1..]))
  }

  /** The first line, one character longer. */
  function Prepend(c: char, lines: seq<string>): (r: seq<string>)
    requires lines != []
    ensures r != []
  {
    [[c] + lines[0]] + lines[1..]
  }

  function JoinLines(lines: seq<string>): string {
    if lines == [] then ""
    else if |lines| == 1 then lines[0]
    else lines[0] + ['\n'] + JoinLines(lines[1..])
  }

  predicate OneLine(line: string) {
    '\n' !in line
  }

  predicate AllOneLine(lines: seq<string>) {
    forall l :: l in lines ==> OneLine(l)
  }

  lemma PrependJoins(c: char, lines: seq<string>)
    requires lines != []
    ensures JoinLines(Prepend(c, lines)) == [c] + JoinLines(lines)
  {
    assert Prepend(c, lines)[1..] == lines[1..];
  }

  lemma {:induction false} JoinUndoesSplit(text: string)
    ensures JoinLines(SplitLines(text)) == text
    decreases |text|
  {
    if text != "" {
      JoinUndoesSplit(text[1..]);
      var rest := SplitLines(text[1..]);
      if text[0] == '\n' {
        assert ([""] + rest)[1..] == rest;
      } else {
        PrependJoins(text[0], rest);
      }
    }
  }

  lemma {:induction false} SplitGivesLines(text: string)
    ensures AllOneLine(SplitLines(text))
    decreases |text|
  {
    if text != "" {
      SplitGivesLines(text[1..]);
      var rest := SplitLines(text[1..]);
      assert rest[0] in rest && OneLine(rest[0]);
      if text[0] != '\n' {
        assert OneLine([text[0]] + rest[0]);
      }
    }
  }

  lemma {:induction false} SplitConcat(a: string, b: string)
    ensures SplitLines(a + ['\n'] + b) == SplitLines(a) + SplitLines(b)
    decreases |a|
  {
    var t := a + ['\n'] + b;
    if a == "" {
      assert t[1..] == b;
    } else {
      SplitConcat(a[1..], b);
      assert t[1..] == a[1..] + ['\n'] + b && t[0] == a[0];
      if a[0] == '\n' {
        assert [""] + (SplitLines(a[1..]) + SplitLines(b)) == ([""] + SplitLines(a[1..])) + SplitLines(b);
      } else {
        PrependConcat(a[0], SplitLines(a[1..]), SplitLines(b));
      }
    }
  }

  lemma PrependConcat(c: char, x: seq<string>, y: seq<string>)
    requires x != []
    ensures Prepend(c, x + y) == Prepend(c, x) + y
  {
  }

  lemma {:induction false} SplitOne(line: string)
    requires OneLine(line)
    ensures SplitLines(line) == [line]
    decreases |line|
  {
    if line != "" {
      assert line[0] != '\n' && forall c :: c in line[1..] ==> c in line;
      SplitOne(line[1..]);
      assert [line[0]] + line[1..] == line;
    }
  }

  /** The lines of each string, one after the other. */
  function SplitAll(lines: seq<string>): seq<string> {
    if lines == [] then [] else SplitLines(lines[0]) + SplitAll(lines[1..])
  }

  lemma {:induction false} SplitOfJoin(lines: seq<string>)
    requires lines != []
    ensures SplitLines(JoinLines(lines)) == SplitAll(lines)
    decreases |lines|
  {
    if |lines| > 1 {
      SplitOfJoin(lines[1..]);
      SplitConcat(lines[0], JoinLines(lines[1..]));
    } else {
      assert SplitAll(lines[1..]) == [];
    }
  }

  lemma {:induction false} SplitAllConcat(a: seq<string>, b: seq<string>)
    ensures SplitAll(a + b) == SplitAll(a) + SplitAll(b)
    decreases |a|
  {
    if a == [] {
      assert a + b == b;
    } else {
      assert (a + b)[1..] == a[1..] + b;
      SplitAllConcat(a[1..], b);
    }
  }

  lemma {:induction false} SplitAllOneLine(lines: seq<string>)
    requires AllOneLine(lines)
    ensures SplitAll(lines) == lines
    decreases |lines|
  {
    if lines != [] {
      SplitOne(lines[0]);
      SplitAllOneLine(lines[1..]);
    }
  }

  lemma {:induction false} JoinConcat(a: seq<string>, b: seq<string>)
    requires a != [] && b != []
    ensures JoinLines(a + b) == JoinLines(a) + ['\n'] + JoinLines(b)
    decreases |a|
  {
    assert (a + b)[1..] == a[1..] + b;
    if |a| > 1 {
      JoinConcat(a[1..], b);
    } else {
      assert (a + b)[1..] == b;
    }
  }

  // ------------------------------------------------------------------ patterns

  /** Python's `str.isspace` for one character, which `\s` and `strip` both use. */
  predicate Space(c: char) {
    var n := c as int;
    9 <= n <= 13 || 28 <= n <= 32 || n == 0x85 || n == 0xA0 || n == 0x1680 || 0x2000 <= n <= 0x200A
    || n == 0x2028 || n == 0x2029 || n == 0x202F || n == 0x205F || n == 0x3000
  }

  predicate Blank(s: string) {
    forall c :: c in s ==> Space(c)
  }

  function LeftTrim(s: string): (t: string)
    ensures |t| <= |s| && (t != "" ==> !Space(t[0]))
    ensures t == "" <==> Blank(s)
  {
    if s != "" && Space(s[0]) then
      assert s == [s[0]] + s[1..];
      LeftTrim(s[1..])
    else s
  }

  function Strip(s: string): (t: string)
    ensures |t| <= |s|
  {
    RightTrim(LeftTrim(s))
  }

  function RightTrim(s: string): (t: string)
    ensures |t| <= |s|
  {
    if s != "" && Space(s[|s| - 1]) then RightTrim(s[..|s| - 1]) else s
  }

  /** The index of the first closing bracket from `i` on, or the length. */
  function CloseAt(s: string, i: nat): (e: nat)
    requires i <= |s|
    ensures i <= e <= |s| && (e < |s| ==> s[e] == ']') && forall k :: i <= k < e ==> s[k] != ']'
    decreases |s| - i
  {
    if i == |s| || s[i] == ']' then i else CloseAt(s, i + 1)
  }

  /** What may follow the bracketed name: blanks, or ` - ` and a date. */
  predicate HeaderTail(tail: string) {
    var t := LeftTrim(tail);
    t == "" || (|t| < |tail| && t[0] == '-' && |t| >= 3 && Space(t[1]))
  }

  predicate OpensHeader(line: string) {
    |line| >= 4 && line[0] == '#' && line[1] == '#' && line[2] == ' ' && line[3] == '['
  }

  /** The name in a version header line. */
  function HeaderName(line: string): Option<string> {
    if !OpensHeader(line) then None
    else
      var e := CloseAt(line, 4);
      if e == |line| || e == 4 || !HeaderTail(line[e + 1..]) then None else Some(line[4..e])
  }

  /** A header line is `## [name]` with a bracket-free, non-empty name and a proper tail. */
  lemma HeaderNameIsBracketed(name: string, tail: string)
    ensures HeaderName("## [" + name + "]" + tail) == Some(name)
            <==> name != "" && ']' !in name && HeaderTail(tail)
  {
    Brackets("## [", name, tail);
    BracketedLine("## [" + name + "]" + tail, name, tail);
  }

  lemma Brackets(open: string, name: string, tail: string)
    requires |open| == 4
    ensures var line := open + name + "]" + tail;
            |line| == 5 + |name| + |tail| && line[..4] == open && line[4..4 + |name|] == name
            && line[4 + |name|] == ']' && line[5 + |name|..] == tail
  {
  }

  lemma BracketedLine(line: string, name: string, tail: string)
    requires |line| == 5 + |name| + |tail| && line[..4] == "## [" && line[4..4 + |name|] == name
    requires line[4 + |name|] == ']' && line[5 + |name|..] == tail
    ensures HeaderName(line) == Some(name) <==> name != "" && ']' !in name && HeaderTail(tail)
  {
    assert line[0] == line[..4][0] && line[1] == line[..4][1] && line[2] == line[..4][2] && line[3] == line[..4][3];
    var e := CloseAt(line, 4);
    if e < 4 + |name| {
      assert name[e - 4] == ']';
      assert |line[4..e]| < |name|;
    } else {
      forall k | 0 <= k < |name| ensures name[k] != ']' {
        assert line[4 + k] == name[k];
      }
    }
  }

  predicate Word(c: char) {
    'a' <= c <= 'z' || 'A' <= c <= 'Z' || '0' <= c <= '9' || c == '_'
  }

  predicate Digit(c: char) {
    '0' <= c <= '9'
  }

  function WordRun(s: string): (n: nat)
    ensures n <= |s|
  {
    if s != "" && Word(s[0]) then 1 + WordRun(s[1..]) else 0
  }

  function DigitRun(s: string): (n: nat)
    ensures n <= |s|
  {
    if s != "" && Digit(s[0]) then 1 + DigitRun(s[1..]) else 0
  }

  /** The word in a sub-section line, `### Word`. */
  function Heading(line: string): Option<string> {
    if |line| < 4 || line[0] != '#' || line[1] != '#' || line[2] != '#' || line[3] != ' ' then None
    else
      var n := WordRun(line[4..]);
      if n == 0 || !Blank(line[4 + n..]) then None else Some(line[4..4 + n])
  }

  /** A list entry: `-`, `*` or `12.`, then a blank. */
  predicate IsBullet(line: string) {
    var t := LeftTrim(line);
    var n := DigitRun(t);
    t != ""
    && (((t[0] == '-' || t[0] == '*') && |t| > 1 && Space(t[1]))
        || (n > 0 && n + 1 < |t| && t[n] == '.' && Space(t[n + 1])))
  }

  /** Headers, sub-section lines and blank lines are never entries. */
  lemma NotBullets(line: string)
    requires Blank(line) || (line != "" && line[0] == '#') || (line != "" && line[0] == '[')
    ensures !IsBullet(line)
  {
  }

  /** After any white space a dash or a star, or digits and a dot, and then white space,
      make an entry. */
  lemma MarkedLinesAreBullets(indent: string, mark: string, gap: char, text: string)
    requires Blank(indent) && Space(gap)
    requires mark == ['-'] || mark == ['*']
             || (|mark| > 1 && mark[|mark| - 1] == '.' && forall k :: 0 <= k < |mark| - 1 ==> Digit(mark[k]))
    ensures IsBullet(indent + (mark + ([gap] + text)))
  {
    var t := mark + ([gap] + text);
    assert t[0] == mark[0] && t[|mark|] == gap;
    LeftTrimOf(indent, t);
    if |mark| > 1 {
      var n := |mark| - 1;
      assert t[n] == '.' && forall k :: 0 <= k < n ==> t[k] == mark[k];
      DigitRunOf(t, n);
    }
  }

  lemma {:induction false} LeftTrimOf(indent: string, t: string)
    requires Blank(indent) && t != "" && !Space(t[0])
    ensures LeftTrim(indent + t) == t
    decreases |indent|
  {
    if indent == "" {
      assert indent + t == t;
    } else {
      assert indent[0] in indent && (indent + t)[1..] == indent[1..] + t;
      LeftTrimOf(indent[1..], t);
    }
  }

  lemma {:induction false} DigitRunOf(t: string, n: nat)
    requires n < |t| && !Digit(t[n]) && forall k :: 0 <= k < n ==> Digit(t[k])
    ensures DigitRun(t) == n
    decreases n
  {
    if n > 0 { DigitRunOf(t[1..], n - 1); }
  }

  // ------------------------------------------------------------------ sections

  datatype Section = Section(header: string, name: string, body: seq<string>)
  datatype Doc = Doc(lead: seq<string>, sections: seq<Section>)

  /** Lines cut at those that `heads` names. */
  function Sections(lines: seq<string>, heads: string -> Option<string>): Doc {
    if lines == [] then Doc([], [])
    else
      var rest := Sections(lines[1..], heads);
      match heads(lines[0])
      case Some(name) => Doc([], [Section(lines[0], name, rest.lead)] + rest.sections)
      case None => Doc([lines[0]] + rest.lead, rest.sections)
  }

  function FlatSections(sections: seq<Section>): seq<string> {
    if sections == [] then []
    else [sections[0].header] + sections[0].body + FlatSections(sections[1..])
  }

  function Flat(d: Doc): seq<string> {
    d.lead + FlatSections(d.sections)
  }

  predicate NoHeads(lines: seq<string>, heads: string -> Option<string>) {
    forall l :: l in lines ==> heads(l) == None
  }

  predicate ProperSections(sections: seq<Section>, heads: string -> Option<string>) {
    forall s :: s in sections ==> heads(s.header) == Some(s.name) && NoHeads(s.body, heads)
  }

  predicate Proper(d: Doc, heads: string -> Option<string>) {
    NoHeads(d.lead, heads) && ProperSections(d.sections, heads)
  }

  /** Cutting loses nothing, and what it gives is properly headed. */
  lemma {:induction false} FlatUndoesSections(lines: seq<string>, heads: string -> Option<string>)
    ensures Flat(Sections(lines, heads)) == lines
    ensures Proper(Sections(lines, heads), heads)
    decreases |lines|
  {
    if lines != [] {
      FlatUndoesSections(lines[1..], heads);
      var rest := Sections(lines[1..], heads);
      if heads(lines[0]).Some? {
        var s := Section(lines[0], heads(lines[0]).value, rest.lead);
        assert ([s] + rest.sections)[1..] == rest.sections;
        assert [] + FlatSections([s] + rest.sections) == [lines[0]] + (rest.lead + FlatSections(rest.sections));
      } else {
        assert ([lines[0]] + rest.lead) + FlatSections(rest.sections) == [lines[0]] + Flat(rest);
      }
    }
  }

  /** Printing a properly headed document and cutting it again gives it back. */
  lemma {:induction false} SectionsUndoesFlat(d: Doc, heads: string -> Option<string>)
    requires Proper(d, heads)
    ensures Sections(Flat(d), heads) == d
    decreases |d.sections|, |d.lead|
  {
    var lines := Flat(d);
    if d.lead != [] {
      assert lines[1..] == Flat(Doc(d.lead[1..], d.sections));
      SectionsUndoesFlat(Doc(d.lead[1..], d.sections), heads);
    } else if d.sections != [] {
      var s := d.sections[0];
      assert s in d.sections;
      assert lines[1..] == Flat(Doc(s.body, d.sections[1..]));
      SectionsUndoesFlat(Doc(s.body, d.sections[1..]), heads);
      assert [s] + d.sections[1..] == d.sections;
    }
  }

  /** A half-cut document: `rest` continues the last section, or the lead if none. */
  function Extend(lead: seq<string>, sections: seq<Section>, rest: Doc): Doc {
    if sections == [] then Doc(lead + rest.lead, rest.sections)
    else Doc(lead, WithLine(sections, rest.lead) + rest.sections)
  }

  function WithLine(sections: seq<Section>, more: seq<string>): seq<Section>
    requires sections != []
  {
    var n := |sections| - 1;
    sections[..n] + [sections[n].(body := sections[n].body + more)]
  }

  lemma ExtendByOne(lines: seq<string>, heads: string -> Option<string>, i: nat, lead: seq<string>,
                    sections: seq<Section>)
    requires i < |lines|
    ensures Extend(lead, sections, Sections(lines[i..], heads)) ==
            (match heads(lines[i])
             case Some(name) => Extend(lead, sections + [Section(lines[i], name, [])], Sections(lines[i + 1..], heads))
             case None =>
               if sections == [] then Extend(lead + [lines[i]], [], Sections(lines[i + 1..], heads))
               else Extend(lead, WithLine(sections, [lines[i]]), Sections(lines[i + 1..], heads)))
  {
    assert lines[i..][1..] == lines[i + 1..];
    var rest := Sections(lines[i + 1..], heads);
    match heads(lines[i]) {
      case Some(name) =>
        ExtendByHeader(lead, sections, lines[i], name, rest);
      case None =>
        ExtendByLine(lead, sections, lines[i], rest);
    }
  }

  lemma ExtendByHeader(lead: seq<string>, sections: seq<Section>, line: string, name: string, rest: Doc)
    ensures Extend(lead, sections, Doc([], [Section(line, name, rest.lead)] + rest.sections))
            == Extend(lead, sections + [Section(line, name, [])], rest)
  {
    var all := sections + [Section(line, name, [])];
    assert all[..|sections|] == sections;
    assert [] + rest.lead == rest.lead && lead + [] == lead;
    if sections != [] {
      var n := |sections| - 1;
      assert sections[n].body + [] == sections[n].body;
      assert sections[..n] + [sections[n]] == sections;
    }
    assert sections + ([Section(line, name, rest.lead)] + rest.sections)
        == (sections + [Section(line, name, rest.lead)]) + rest.sections;
  }

  lemma ExtendByLine(lead: seq<string>, sections: seq<Section>, line: string, rest: Doc)
    ensures Extend(lead, sections, Doc([line] + rest.lead, rest.sections)) ==
            (if sections == [] then Extend(lead + [line], [], rest)
             else Extend(lead, WithLine(sections, [line]), rest))
  {
    if sections == [] {
      assert lead + ([line] + rest.lead) == (lead + [line]) + rest.lead;
    } else {
      var n := |sections| - 1;
      assert WithLine(sections, [line])[..n] == sections[..n];
      assert sections[n].body + ([line] + rest.lead) == (sections[n].body + [line]) + rest.lead;
    }
  }

  /** Sections already closed, and the open one. */
  function WithOpen(closed: seq<Section>, cur: Option<Section>): seq<Section> {
    if cur.Some? then closed + [cur.value] else closed
  }

  /** The loop between two lines: what is cut so far, continued by the cut of the rest. */
  ghost predicate HalfCut(lines: seq<string>, heads: string -> Option<string>, i: nat,
                          lead: seq<string>, closed: seq<Section>, cur: Option<Section>)
    requires i <= |lines|
  {
    (cur == None ==> closed == [])
    && Sections(lines, heads) == Extend(lead, WithOpen(closed, cur), Sections(lines[i..], heads))
  }

  lemma CutOneLine(lines: seq<string>, heads: string -> Option<string>, i: nat,
                   lead: seq<string>, closed: seq<Section>, cur: Option<Section>)
    requires i < |lines| && HalfCut(lines, heads, i, lead, closed, cur)
    ensures var line := lines[i];
            match heads(line)
            case Some(name) => HalfCut(lines, heads, i + 1, lead, WithOpen(closed, cur), Some(Section(line, name, [])))
            case None =>
              if cur.Some? then HalfCut(lines, heads, i + 1, lead, closed,
                                        Some(cur.value.(body := cur.value.body + [line])))
              else HalfCut(lines, heads, i + 1, lead + [line], closed, None)
  {
    ExtendByOne(lines, heads, i, lead, WithOpen(closed, cur));
    if cur.Some? { GrowOpen(closed, cur.value, lines[i]); }
  }

  /** The shared loop of `parse_changelog` and `split_subsections`. */
  method CutSections(lines: seq<string>, heads: string -> Option<string>) returns (d: Doc)
    ensures d == Sections(lines, heads)
  {
    var lead: seq<string> := [];
    var closed: seq<Section> := [];
    var cur: Option<Section> := None;
    var i := 0;
    assert lines[0..] == lines;
    while i < |lines|
      invariant i <= |lines| && HalfCut(lines, heads, i, lead, closed, cur)
    {
      var line := lines[i];
      CutOneLine(lines, heads, i, lead, closed, cur);
      match heads(line) {
        case Some(name) =>
          if cur.Some? {
            closed := closed + [cur.value];
          }
          cur := Some(Section(line, name, []));
        case None =>
          if cur.Some? {
            cur := Some(cur.value.(body := cur.value.body + [line]));
          } else {
            lead := lead + [line];
          }
      }
      i := i + 1;
    }
    if cur.Some? {
      NothingMore(closed, cur.value);
      closed := closed + [cur.value];
    }
    d := Doc(lead, closed);
  }

  lemma NothingMore(closed: seq<Section>, s: Section)
    ensures WithLine(closed + [s], []) == closed + [s]
  {
    assert s.body + [] == s.body;
  }

  lemma GrowOpen(closed: seq<Section>, s: Section, line: string)
    ensures WithLine(closed + [s], [line]) == closed + [s.(body := s.body + [line])]
  {
  }
}

/**
 Promoting the unreleased notes (scripts/prepare-release.py): rename, merge or leave
 alone, then print the file again with its link reference.
 */
module Changelog {
  import opened Common
  import opened ChangelogText

  // ------------------------------------------------------------------- entries

  /** The lines that `keep` picks, in order. */
  function Kept(lines: seq<string>, keep: string -> bool): seq<string> {
    if lines == [] then []
    else (if keep(lines[0]) then [lines[0]] else []) + Kept(lines[1..], keep)
  }

  function Bullets(lines: seq<string>): seq<string> {
    Kept(lines, IsBullet)
  }

  /** Blank lines and headings are never picked. */
  ghost predicate Entrylike(keep: string -> bool) {
    forall l :: keep(l) ==> !Blank(l) && l[0] != '#'
  }

  lemma BulletsAreEntrylike()
    ensures Entrylike(IsBullet)
  {
    var keep := IsBullet;
    forall l | keep(l) ensures !Blank(l) && l[0] != '#' {
      if Blank(l) || l[0] == '#' { NotBullets(l); }
    }
  }

  lemma {:induction false} KeptConcat(a: seq<string>, b: seq<string>, keep: string -> bool)
    ensures Kept(a + b, keep) == Kept(a, keep) + Kept(b, keep)
    decreases |a|
  {
    if a == [] {
      assert a + b == b;
    } else {
      assert (a + b)[1..] == a[1..] + b;
      KeptConcat(a[1..], b, keep);
      var head := if keep(a[0]) then [a[0]] else [];
      assert head + (Kept(a[1..], keep) + Kept(b, keep)) == (head + Kept(a[1..], keep)) + Kept(b, keep);
    }
  }

  predicate HasContent(body: seq<string>) {
    exists i :: 0 <= i < |body| && IsBullet(body[i])
  }

  lemma {:induction false} ContentIsBullets(body: seq<string>)
    ensures HasContent(body) <==> Bullets(body) != []
    decreases |body|
  {
    if body != [] {
      ContentIsBullets(body[1..]);
      if HasContent(body[1..]) {
        var i :| 0 <= i < |body[1..]| && IsBullet(body[1..][i]);
        assert IsBullet(body[i + 1]);
      }
      if HasContent(body) && !IsBullet(body[0]) {
        var i :| 0 <= i < |body| && IsBullet(body[i]);
        assert IsBullet(body[1..][i - 1]);
      }
    }
  }

  // ------------------------------------------------------------ printing it back

  function Parts(sections: seq<Section>): seq<string> {
    if sections == [] then [] else [JoinLines([sections[0].header] + sections[0].body)] + Parts(sections[1..])
  }

  /** `join_changelog`. */
  function JoinDoc(d: Doc): string {
    JoinLines([JoinLines(d.lead)] + Parts(d.sections))
  }

  /** `rebuild_body`. */
  function RebuildBody(d: Doc): seq<string> {
    SplitLines(JoinLines((if d.lead != [] then [JoinLines(d.lead)] else []) + Parts(d.sections)))
  }

  lemma {:induction false} JoinParts(first: seq<string>, sections: seq<Section>)
    requires first != []
    ensures JoinLines([JoinLines(first)] + Parts(sections)) == JoinLines(first + FlatSections(sections))
    decreases |sections|
  {
    var parts := [JoinLines(first)] + Parts(sections);
    if sections == [] {
      assert first + FlatSections(sections) == first;
    } else {
      var next := [sections[0].header] + sections[0].body;
      assert parts[1..] == [JoinLines(next)] + Parts(sections[1..]);
      JoinParts(next, sections[1..]);
      JoinConcat(first, next + FlatSections(sections[1..]));
    }
  }

  /** The lines `join_changelog` prints: an empty preface still costs a line. */
  function Printed(d: Doc): (lines: seq<string>)
    ensures lines != []
  {
    (if d.lead == [] then [""] else d.lead) + FlatSections(d.sections)
  }

  lemma JoinDocPrints(d: Doc)
    ensures JoinDoc(d) == JoinLines(Printed(d))
  {
    if d.lead == [] {
      assert JoinLines([""]) == JoinLines([]);
      JoinParts([""], d.sections);
    } else {
      JoinParts(d.lead, d.sections);
    }
  }

  lemma OneLonger(text: string)
    ensures "" + ['\n'] + text == ['\n'] + text != text
  {
    assert |['\n'] + text| == 1 + |text|;
  }

  /** Parsing and printing keeps the text, and adds a newline when it starts with a version
      header: the round trip is exact if and only if it does not. */
  lemma PrintUndoesParse(text: string)
    ensures var d := Sections(SplitLines(text), HeaderName);
            var headerFirst := HeaderName(SplitLines(text)[0]).Some?;
            JoinDoc(d) == (if headerFirst then ['\n'] + text else text) && (JoinDoc(d) == text <==> !headerFirst)
  {
    var lines := SplitLines(text);
    var d := Sections(lines, HeaderName);
    FlatUndoesSections(lines, HeaderName);
    JoinDocPrints(d);
    JoinUndoesSplit(text);
    if HeaderName(lines[0]).Some? {
      assert d.lead == [];
      BlankLineFirst(text, lines, Printed(d));
    }
  }

  lemma BlankLineFirst(text: string, lines: seq<string>, printed: seq<string>)
    requires lines != [] && JoinLines(lines) == text && printed == [""] + lines
    ensures JoinLines(printed) == ['\n'] + text != text
  {
    JoinConcat([""], lines);
    OneLonger(text);
  }

  lemma RebuildIsFlat(d: Doc)
    requires AllOneLine(Flat(d))
    ensures RebuildBody(d) == (if Flat(d) == [] then [""] else Flat(d))
  {
    if d.lead != [] {
      JoinParts(d.lead, d.sections);
      SplitOfJoin(Flat(d));
      SplitAllOneLine(Flat(d));
    } else if d.sections != [] {
      var first := [d.sections[0].header] + d.sections[0].body;
      JoinParts(first, d.sections[1..]);
      assert [] + Parts(d.sections) == Parts(d.sections);
      assert Flat(d) == first + FlatSections(d.sections[1..]);
      SplitOfJoin(Flat(d));
      SplitAllOneLine(Flat(d));
    } else {
      assert [] + Parts(d.sections) == [] && Flat(d) == [];
    }
  }

  /** A body survives splitting into sub-sections and rebuilding if and only if it is not
      empty. */
  lemma RebuildUndoesSplit(body: seq<string>)
    requires AllOneLine(body)
    ensures RebuildBody(Sections(body, Heading)) == body <==> body != []
  {
    FlatUndoesSections(body, Heading);
    RebuildIsFlat(Sections(body, Heading));
  }

  // ------------------------------------------------------------------- trimming

  function TrimBlank(lines: seq<string>): (r: seq<string>)
    ensures |r| <= |lines| && r == lines[..|r|]
    ensures r != [] ==> !Blank(r[|r| - 1])
  {
    if lines != [] && Blank(lines[|lines| - 1]) then TrimBlank(lines[..|lines| - 1]) else lines
  }

  method TrimTrailingBlank(arr: seq<string>) returns (r: seq<string>)
    ensures r == TrimBlank(arr)
  {
    var i := |arr|;
    assert arr[..i] == arr;
    while i > 0 && Blank(arr[i - 1])
      invariant 0 <= i <= |arr|
      invariant TrimBlank(arr[..i]) == TrimBlank(arr)
    {
      assert arr[..i][..i - 1] == arr[..i - 1];
      i := i - 1;
    }
    r := arr[..i];
  }

  /** Trimming drops no entry. */
  lemma {:induction false} TrimKeepsEntries(lines: seq<string>, keep: string -> bool)
    requires Entrylike(keep)
    ensures Kept(TrimBlank(lines), keep) == Kept(lines, keep)
    decreases |lines|
  {
    if lines != [] && Blank(lines[|lines| - 1]) {
      var n := |lines| - 1;
      TrimKeepsEntries(lines[..n], keep);
      KeptConcat(lines[..n], [lines[n]], keep);
      assert lines[..n] + [lines[n]] == lines;
      KeptOne(lines[n], keep);
    }
  }

  lemma KeptOne(line: string, keep: string -> bool)
    ensures Kept([line], keep) == if keep(line) then [line] else []
  {
    assert [line][1..] == [];
    assert Kept([], keep) == [];
  }

  // -------------------------------------------------------------------- merging

  /** The first section called `name`. */
  function IndexNamed(sections: seq<Section>, name: string): (r: Option<nat>)
    ensures r.Some? ==> r.value < |sections| && sections[r.value].name == name
  {
    if sections == [] then None
    else if sections[0].name == name then Some(0)
    else
      match IndexNamed(sections[1..], name)
      case None => None
      case Some(i) => Some(i + 1)
  }

  function Joined(existing: seq<string>, more: seq<string>): seq<string> {
    var kept := TrimBlank(existing);
    kept + (if kept != [] then [""] else []) + more + [""]
  }

  /** One unreleased sub-section into the released ones. */
  function MergeOne(vs: seq<Section>, u: Section): seq<Section> {
    var more := TrimBlank(u.body);
    if more == [] then vs
    else
      match IndexNamed(vs, u.name)
      case Some(i) => vs[i := vs[i].(body := Joined(vs[i].body, more))]
      case None => vs + [Section(u.header, u.name, more + [""])]
  }

  function MergeSubs(vs: seq<Section>, us: seq<Section>): seq<Section>
    decreases |us|
  {
    if us == [] then vs else MergeOne(MergeSubs(vs, us[..|us| - 1]), us[|us| - 1])
  }

  /** The entries merged: those under the unreleased sub-sections. */
  function Merged(us: seq<Section>): nat
    decreases |us|
  {
    if us == [] then 0 else Merged(us[..|us| - 1]) + |Bullets(TrimBlank(us[|us| - 1].body))|
  }

  lemma OneMoreMerged(vs: seq<Section>, us: seq<Section>, i: nat)
    requires i < |us|
    ensures MergeSubs(vs, us[..i + 1]) == MergeOne(MergeSubs(vs, us[..i]), us[i])
    ensures Merged(us[..i + 1]) == Merged(us[..i]) + |Bullets(TrimBlank(us[i].body))|
  {
    assert us[..i + 1][..i] == us[..i];
  }

  /** One turn of the loop: its unreleased sub-section goes into the released one of its name. */
  method MergeSection(before: seq<Section>, us: Section) returns (subs: seq<Section>, merged: nat)
    ensures subs == MergeOne(before, us) && merged == |Bullets(TrimBlank(us.body))|
  {
    subs, merged := before, 0;
    var usBody := TrimTrailingBlank(us.body);
    if usBody != [] {
      match IndexNamed(subs, us.name) {
        case Some(t) =>
          var existing := TrimTrailingBlank(subs[t].body);
          var sep := if existing != [] && !Blank(existing[|existing| - 1]) then [""] else [];
          subs := subs[t := subs[t].(body := existing + sep + usBody + [""])];
        case None =>
          subs := subs + [Section(us.header, us.name, usBody + [""])];
      }
      merged := |Bullets(usBody)|;
    }
  }

  method MergeSubsections(verSubs: seq<Section>, unrelSubs: seq<Section>) returns (subs: seq<Section>, merged: nat)
    ensures subs == MergeSubs(verSubs, unrelSubs) && merged == Merged(unrelSubs)
  {
    subs, merged := verSubs, 0;
    for i := 0 to |unrelSubs|
      invariant subs == MergeSubs(verSubs, unrelSubs[..i]) && merged == Merged(unrelSubs[..i])
    {
      OneMoreMerged(verSubs, unrelSubs, i);
      var n;
      subs, n := MergeSection(subs, unrelSubs[i]);
      merged := merged + n;
    }
    assert unrelSubs[..|unrelSubs|] == unrelSubs;
  }

  /** The entries of the first sub-section called `name`. */
  function FirstUnder(sections: seq<Section>, name: string, keep: string -> bool): seq<string> {
    match IndexNamed(sections, name)
    case Some(i) => Kept(sections[i].body, keep)
    case None => []
  }

  /** The entries of every sub-section called `name`, in order. */
  function AllUnder(sections: seq<Section>, name: string, keep: string -> bool): seq<string>
    decreases |sections|
  {
    if sections == [] then []
    else
      var n := |sections| - 1;
      AllUnder(sections[..n], name, keep) + if sections[n].name == name then Kept(sections[n].body, keep) else []
  }

  lemma KeptFour(a: seq<string>, b: seq<string>, c: seq<string>, d: seq<string>, keep: string -> bool)
    ensures Kept(a + b + c + d, keep) == Kept(a, keep) + Kept(b, keep) + Kept(c, keep) + Kept(d, keep)
  {
    KeptConcat(a + b + c, d, keep);
    KeptConcat(a + b, c, keep);
    KeptConcat(a, b, keep);
  }

  lemma JoinedKeepsEntries(existing: seq<string>, more: seq<string>, keep: string -> bool)
    requires Entrylike(keep)
    ensures Kept(Joined(existing, more), keep) == Kept(existing, keep) + Kept(more, keep)
  {
    var kept := TrimBlank(existing);
    TrimKeepsEntries(existing, keep);
    KeptFour(kept, if kept != [] then [""] else [], more, [""], keep);
    KeptOne("", keep);
    NothingBetween(Kept(kept, keep), Kept(more, keep));
  }

  lemma NothingBetween(a: seq<string>, c: seq<string>)
    ensures a + [] + c + [] == a + c
  {
  }

  lemma {:induction false} AppendedNamed(vs: seq<Section>, s: Section, name: string)
    ensures IndexNamed(vs + [s], name) ==
            (if IndexNamed(vs, name).Some? then IndexNamed(vs, name) else if s.name == name then Some(|vs|) else None)
    decreases |vs|
  {
    if vs == [] {
      assert vs + [s] == [s] && [s][1..] == [];
    } else {
      assert (vs + [s])[1..] == vs[1..] + [s];
      AppendedNamed(vs[1..], s, name);
    }
  }

  lemma {:induction false} ReplacedNamed(vs: seq<Section>, i: nat, s: Section, name: string)
    requires i < |vs| && s.name == vs[i].name
    ensures IndexNamed(vs[i := s], name) == IndexNamed(vs, name)
    decreases |vs|
  {
    if i == 0 {
      assert vs[i := s][1..] == vs[1..];
    } else {
      assert vs[i := s][1..] == vs[1..][i - 1 := s];
      ReplacedNamed(vs[1..], i - 1, s, name);
    }
  }

  /** No earlier section has the name. */
  lemma {:induction false} NoneBefore(sections: seq<Section>, name: string, j: nat)
    requires j < |sections| && sections[j].name == name
    ensures IndexNamed(sections, name).Some? && IndexNamed(sections, name).value <= j
    decreases |sections|
  {
    if sections[0].name != name {
      NoneBefore(sections[1..], name, j - 1);
    }
  }

  /** What appending or replacing a section does to the first entries of a name. */
  lemma AppendedUnder(vs: seq<Section>, s: Section, name: string, keep: string -> bool)
    requires IndexNamed(vs, s.name) == None
    ensures FirstUnder(vs + [s], name, keep)
            == FirstUnder(vs, name, keep) + if s.name == name then Kept(s.body, keep) else []
  {
    AppendedNamed(vs, s, name);
  }

  lemma ReplacedUnder(vs: seq<Section>, i: nat, s: Section, name: string, keep: string -> bool)
    requires i < |vs| && s.name == vs[i].name && IndexNamed(vs, s.name) == Some(i)
    ensures FirstUnder(vs[i := s], name, keep)
            == if s.name == name then Kept(s.body, keep) else FirstUnder(vs, name, keep)
  {
    ReplacedNamed(vs, i, s, name);
  }

  lemma MergeOneAddsEntries(vs: seq<Section>, u: Section, name: string, keep: string -> bool)
    requires Entrylike(keep)
    ensures FirstUnder(MergeOne(vs, u), name, keep)
            == FirstUnder(vs, name, keep) + if u.name == name then Kept(u.body, keep) else []
  {
    var more := TrimBlank(u.body);
    TrimKeepsEntries(u.body, keep);
    if more == [] {
      assert Kept(u.body, keep) == [];
    } else {
      match IndexNamed(vs, u.name) {
        case Some(i) =>
          ReplacedUnder(vs, i, vs[i].(body := Joined(vs[i].body, more)), name, keep);
          JoinedKeepsEntries(vs[i].body, more, keep);
        case None =>
          AppendedUnder(vs, Section(u.header, u.name, more + [""]), name, keep);
          KeptConcat(more, [""], keep);
          KeptOne("", keep);
      }
    }
  }

  lemma Regroup(a: seq<string>, b: seq<string>, c: seq<string>)
    ensures (a + b) + c == a + (b + c)
  {
  }

  /** After the merge the first sub-section of every name holds what it held, then all the
      unreleased entries of that name, in their order. */
  lemma {:induction false} MergeAddsEntriesInOrder(
      vs: seq<Section>, us: seq<Section>, name: string, keep: string -> bool)
    requires Entrylike(keep)
    ensures FirstUnder(MergeSubs(vs, us), name, keep) == FirstUnder(vs, name, keep) + AllUnder(us, name, keep)
    decreases |us|
  {
    if us != [] {
      var n := |us| - 1;
      MergeAddsEntriesInOrder(vs, us[..n], name, keep);
      MergeOneAddsEntries(MergeSubs(vs, us[..n]), us[n], name, keep);
      Regroup(FirstUnder(vs, name, keep), AllUnder(us[..n], name, keep),
              if us[n].name == name then Kept(us[n].body, keep) else []);
    }
  }

  /** No released sub-section moves, changes its heading or, unless it is the first of its
      name, its body; a sub-section is only added under a name not there before. */
  predicate Keeps(vs: seq<Section>, ws: seq<Section>) {
    |vs| <= |ws|
    && (forall i :: 0 <= i < |vs| ==> SameBut(vs, ws[i], i))
    && (forall i :: |vs| <= i < |ws| ==> IndexNamed(ws, ws[i].name) == Some(i))
  }

  predicate SameBut(vs: seq<Section>, w: Section, i: nat)
    requires i < |vs|
  {
    w.header == vs[i].header && w.name == vs[i].name && (IndexNamed(vs, vs[i].name) != Some(i) ==> w == vs[i])
  }

  lemma SameNames(vs: seq<Section>, ws: seq<Section>)
    requires Keeps(vs, ws)
    ensures forall i :: 0 <= i < |vs| ==> ws[i].name == vs[i].name
  {
    forall i | 0 <= i < |vs| ensures ws[i].name == vs[i].name {
      assert SameBut(vs, ws[i], i);
    }
  }

  lemma ReplaceKeeps(vs: seq<Section>, ws: seq<Section>, t: nat, body: seq<string>)
    requires Keeps(vs, ws) && t < |ws| && IndexNamed(ws, ws[t].name) == Some(t)
    ensures Keeps(vs, ws[t := ws[t].(body := body)])
  {
    var xs := ws[t := ws[t].(body := body)];
    forall i | 0 <= i < |vs| ensures SameBut(vs, xs[i], i) {
      assert SameBut(vs, ws[i], i);
      if i == t {
        SameNames(vs, ws);
        FirstStaysFirst(vs, ws, t);
      }
    }
    forall i | |vs| <= i < |xs| ensures IndexNamed(xs, xs[i].name) == Some(i) {
      ReplacedNamed(ws, t, xs[t], ws[i].name);
    }
  }

  lemma StillFirst(ws: seq<Section>, s: Section, i: nat)
    requires i < |ws| && IndexNamed(ws, ws[i].name) == Some(i)
    ensures IndexNamed(ws + [s], (ws + [s])[i].name) == Some(i)
  {
    AppendedNamed(ws, s, ws[i].name);
  }

  lemma AppendKeeps(vs: seq<Section>, ws: seq<Section>, s: Section)
    requires Keeps(vs, ws) && IndexNamed(ws, s.name) == None
    ensures Keeps(vs, ws + [s])
  {
    var xs := ws + [s];
    forall i | 0 <= i < |vs| ensures SameBut(vs, xs[i], i) {
      assert xs[i] == ws[i];
    }
    forall i | |vs| <= i < |xs| ensures IndexNamed(xs, xs[i].name) == Some(i) {
      AppendedAt(ws, s, i);
    }
  }

  lemma AppendedAt(ws: seq<Section>, s: Section, i: nat)
    requires i <= |ws| && IndexNamed(ws, s.name) == None
    requires i < |ws| ==> IndexNamed(ws, ws[i].name) == Some(i)
    ensures IndexNamed(ws + [s], (ws + [s])[i].name) == Some(i)
  {
    if i < |ws| { StillFirst(ws, s, i); } else { AppendedNamed(ws, s, s.name); }
  }

  lemma MergeOneKeepsRest(vs: seq<Section>, ws: seq<Section>, u: Section)
    requires Keeps(vs, ws)
    ensures Keeps(vs, MergeOne(ws, u))
  {
    var more := TrimBlank(u.body);
    if more != [] {
      match IndexNamed(ws, u.name) {
        case Some(t) => ReplaceKeeps(vs, ws, t, Joined(ws[t].body, more));
        case None => AppendKeeps(vs, ws, Section(u.header, u.name, more + [""]));
      }
    }
  }

  lemma FirstStaysFirst(vs: seq<Section>, ws: seq<Section>, t: nat)
    requires t < |vs| <= |ws| && IndexNamed(ws, ws[t].name) == Some(t)
    requires forall i :: 0 <= i < |vs| ==> ws[i].name == vs[i].name
    ensures IndexNamed(vs, vs[t].name) == Some(t)
  {
    NoneBefore(vs, vs[t].name, t);
    var r := IndexNamed(vs, vs[t].name).value;
    NoneBefore(ws, vs[t].name, r);
  }

  lemma {:induction false} MergeKeepsRest(vs: seq<Section>, us: seq<Section>)
    ensures Keeps(vs, MergeSubs(vs, us))
    decreases |us|
  {
    if us != [] {
      MergeKeepsRest(vs, us[..|us| - 1]);
      MergeOneKeepsRest(vs, MergeSubs(vs, us[..|us| - 1]), us[|us| - 1]);
    }
  }

  // ------------------------------------------------------------------- the run

  const UNRELEASED: string := "Unreleased"

  function VersionHeader(version: string, today: string): string {
    "## [" + version + "] - " + today
  }

  function GithubUrl(): string {
    "https://github.com" + "/aovestdipaperino" + "/tokensave"
  }

  function LinkRef(version: string): string {
    "[" + version + ("]: " + GithubUrl() + "/releases/tag/v") + version
  }

  predicate EndsWithNewline(text: string) {
    text != "" && text[|text| - 1] == '\n'
  }

  predicate HasRef(text: string, ref: string) {
    exists i :: 0 <= i < |SplitLines(text)| && Strip(SplitLines(text)[i]) == ref
  }

  /** `append_link_ref` for a given reference line. */
  function AppendRef(text: string, ref: string): string {
    if HasRef(text, ref) then text
    else text + (if EndsWithNewline(text) then "" else ['\n']) + ref + ['\n']
  }

  function Emptied(s: Section): Section {
    s.(body := ["", ""])
  }

  /** No block for the version yet: the unreleased block is renamed, under a fresh one. */
  function Promoted(d: Doc, u: nat, version: string, today: string): Doc
    requires u < |d.sections|
  {
    d.(sections := d.sections[..u]
                   + [Section("## [Unreleased]", UNRELEASED, ["", ""]),
                      Section(VersionHeader(version, today), version, TrimBlank(d.sections[u].body) + [""])]
                   + d.sections[u + 1..])
  }

  function MergedBody(unreleased: seq<string>, released: seq<string>): seq<string> {
    var v := Sections(released, Heading);
    RebuildBody(Doc(v.lead, MergeSubs(v.sections, Sections(unreleased, Heading).sections)))
  }

  /** There is a block for the version: the unreleased sub-sections are merged into it. */
  function MergedInto(d: Doc, u: nat, v: nat): Doc
    requires u < |d.sections| && v < |d.sections|
  {
    var body := MergedBody(d.sections[u].body, d.sections[v].body);
    var sections := d.sections[v := d.sections[v].(body := body)];
    d.(sections := sections[u := Emptied(sections[u])])
  }

  datatype Result = Nothing | Wrote(text: string, entries: nat)

  function Prepare(text: string, version: string, today: string): Result {
    var d := Sections(SplitLines(text), HeaderName);
    match IndexNamed(d.sections, UNRELEASED)
    case None => Nothing
    case Some(u) =>
      var body := d.sections[u].body;
      if !HasContent(body) then Nothing
      else
        match IndexNamed(d.sections, version)
        case None =>
          Wrote(AppendRef(JoinDoc(Promoted(d, u, version, today)), LinkRef(version)), |Bullets(TrimBlank(body) + [""])|)
        case Some(v) =>
          Wrote(AppendRef(JoinDoc(MergedInto(d, u, v)), LinkRef(version)), Merged(Sections(body, Heading).sections))
  }

  /** `main`, on the text of the changelog. */
  method PrepareRelease(text: string, version: string, today: string) returns (r: Result)
    ensures r == Prepare(text, version, today)
  {
    var d := CutSections(SplitLines(text), HeaderName);
    var blocks := d.sections;
    var unrelIdx := IndexNamed(blocks, UNRELEASED);
    var verIdx := IndexNamed(blocks, version);
    if unrelIdx == None {
      return Nothing;
    }
    var unrel := blocks[unrelIdx.value];
    if !HasContent(unrel.body) {
      return Nothing;
    }
    if verIdx == None {
      var trimmed := TrimTrailingBlank(unrel.body);
      var promoted := Section(VersionHeader(version, today), version, trimmed + [""]);
      var emptied := Section("## [Unreleased]", UNRELEASED, ["", ""]);
      blocks := blocks[..unrelIdx.value] + [emptied, promoted] + blocks[unrelIdx.value + 1..];
      return Wrote(AppendRef(JoinDoc(Doc(d.lead, blocks)), LinkRef(version)), |Bullets(promoted.body)|);
    }
    var ver := blocks[verIdx.value];
    var unrelDoc := CutSections(unrel.body, Heading);
    var verDoc := CutSections(ver.body, Heading);
    var subs, merged := MergeSubsections(verDoc.sections, unrelDoc.sections);
    blocks := blocks[verIdx.value := ver.(body := RebuildBody(Doc(verDoc.lead, subs)))];
    blocks := blocks[unrelIdx.value := Emptied(blocks[unrelIdx.value])];
    return Wrote(AppendRef(JoinDoc(Doc(d.lead, blocks)), LinkRef(version)), merged);
  }
}

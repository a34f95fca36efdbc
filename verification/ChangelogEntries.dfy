/**
 What a release run does with the entries of the changelog (scripts/prepare-release.py):
 which are kept, which are counted, and which are lost.
 */
module ChangelogEntries {
  import opened Common
  import opened ChangelogText
  import opened Changelog
  import opened ChangelogRuns

  function Tally(lines: seq<string>, keep: string -> bool): nat {
    |Kept(lines, keep)|
  }

  /** The entries in the bodies of the sections. */
  function Total(sections: seq<Section>, keep: string -> bool): nat {
    if sections == [] then 0 else Tally(sections[0].body, keep) + Total(sections[1..], keep)
  }

  predicate Hashed(sections: seq<Section>) {
    forall s :: s in sections ==> s.header != "" && s.header[0] == '#'
  }

  lemma TallyConcat(a: seq<string>, b: seq<string>, keep: string -> bool)
    ensures Tally(a + b, keep) == Tally(a, keep) + Tally(b, keep)
  {
    KeptConcat(a, b, keep);
  }

  lemma HeaderIsNoEntry(h: string, keep: string -> bool)
    requires Entrylike(keep) && h != "" && h[0] == '#'
    ensures Kept([h], keep) == []
  {
    KeptOne(h, keep);
  }

  lemma {:induction false} FlatTally(sections: seq<Section>, keep: string -> bool)
    requires Entrylike(keep) && Hashed(sections)
    ensures Tally(FlatSections(sections), keep) == Total(sections, keep)
    decreases |sections|
  {
    if sections != [] {
      var s := sections[0];
      assert s in sections;
      FlatTally(sections[1..], keep);
      HeaderIsNoEntry(s.header, keep);
      TallyConcat([s.header] + s.body, FlatSections(sections[1..]), keep);
      TallyConcat([s.header], s.body, keep);
    }
  }

  lemma {:induction false} TotalReplaced(sections: seq<Section>, i: nat, s: Section, keep: string -> bool)
    requires i < |sections|
    ensures Total(sections[i := s], keep) + Tally(sections[i].body, keep) == Total(sections, keep) + Tally(s.body, keep)
    decreases |sections|
  {
    if i == 0 {
      assert sections[i := s][1..] == sections[1..];
    } else {
      assert sections[i := s][1..] == sections[1..][i - 1 := s];
      TotalReplaced(sections[1..], i - 1, s, keep);
    }
  }

  lemma {:induction false} TotalConcat(a: seq<Section>, b: seq<Section>, keep: string -> bool)
    ensures Total(a + b, keep) == Total(a, keep) + Total(b, keep)
    decreases |a|
  {
    if a == [] {
      assert a + b == b;
    } else {
      assert (a + b)[1..] == a[1..] + b;
      TotalConcat(a[1..], b, keep);
    }
  }

  lemma TotalOne(s: Section, keep: string -> bool)
    ensures Total([s], keep) == Tally(s.body, keep)
  {
    assert [s][1..] == [];
  }

  // ------------------------------------------------------------------ the merge

  lemma MergeOneTotal(vs: seq<Section>, u: Section, keep: string -> bool)
    requires Entrylike(keep)
    ensures Total(MergeOne(vs, u), keep) == Total(vs, keep) + Tally(u.body, keep)
  {
    var more := TrimBlank(u.body);
    TrimKeepsEntries(u.body, keep);
    if more != [] {
      match IndexNamed(vs, u.name) {
        case Some(i) =>
          JoinedKeepsEntries(vs[i].body, more, keep);
          TotalReplaced(vs, i, vs[i].(body := Joined(vs[i].body, more)), keep);
        case None =>
          var s := Section(u.header, u.name, more + [""]);
          TotalConcat(vs, [s], keep);
          TotalOne(s, keep);
          TallyConcat(more, [""], keep);
          KeptOne("", keep);
      }
    }
  }

  /** The merge keeps every entry of both sides. */
  lemma {:induction false} MergeTotal(vs: seq<Section>, us: seq<Section>, keep: string -> bool)
    requires Entrylike(keep)
    ensures Total(MergeSubs(vs, us), keep) == Total(vs, keep) + Total(us, keep)
    decreases |us|
  {
    if us != [] {
      var n := |us| - 1;
      MergeTotal(vs, us[..n], keep);
      MergeOneTotal(MergeSubs(vs, us[..n]), us[n], keep);
      TotalConcat(us[..n], [us[n]], keep);
      TotalOne(us[n], keep);
      assert us[..n] + [us[n]] == us;
    }
  }

  /** The number reported is the number of entries under the unreleased sub-sections. */
  lemma {:induction false} MergedIsTotal(us: seq<Section>)
    ensures Merged(us) == Total(us, IsBullet)
    decreases |us|
  {
    if us != [] {
      var n := |us| - 1;
      MergedIsTotal(us[..n]);
      TrimmedCount(us[n].body);
      TotalConcat(us[..n], [us[n]], IsBullet);
      TotalOne(us[n], IsBullet);
      assert us[..n] + [us[n]] == us;
    }
  }

  lemma TrimmedCount(body: seq<string>)
    ensures |Bullets(TrimBlank(body))| == Tally(body, IsBullet)
  {
    BulletsAreEntrylike();
    TrimKeepsEntries(body, IsBullet);
  }

  lemma MergeOneHashed(vs: seq<Section>, u: Section)
    requires Hashed(vs) && u.header != "" && u.header[0] == '#'
    ensures Hashed(MergeOne(vs, u))
  {
    match IndexNamed(vs, u.name) {
      case Some(i) => assert vs[i] in vs;
      case None =>
    }
  }

  lemma {:induction false} MergeHashed(vs: seq<Section>, us: seq<Section>)
    requires Hashed(vs) && Hashed(us)
    ensures Hashed(MergeSubs(vs, us))
    decreases |us|
  {
    if us != [] {
      assert us[|us| - 1] in us;
      MergeHashed(vs, us[..|us| - 1]);
      MergeOneHashed(MergeSubs(vs, us[..|us| - 1]), us[|us| - 1]);
    }
  }

  lemma SplitTally(body: seq<string>, keep: string -> bool)
    requires Entrylike(keep)
    ensures var d := Sections(body, Heading);
            Hashed(d.sections) && Tally(body, keep) == Tally(d.lead, keep) + Total(d.sections, keep)
  {
    var d := Sections(body, Heading);
    FlatUndoesSections(body, Heading);
    forall s | s in d.sections ensures s.header != "" && s.header[0] == '#' {
      assert Heading(s.header) == Some(s.name);
    }
    FlatTally(d.sections, keep);
    TallyConcat(d.lead, FlatSections(d.sections), keep);
  }

  /** The merged body has the released entries and the unreleased ones but those before the
      first unreleased sub-section. */
  lemma MergedBodyTally(unreleased: seq<string>, released: seq<string>, keep: string -> bool)
    requires Entrylike(keep) && AllOneLine(unreleased) && AllOneLine(released)
    ensures Tally(MergedBody(unreleased, released), keep) + Tally(Sections(unreleased, Heading).lead, keep)
            == Tally(released, keep) + Tally(unreleased, keep)
  {
    var u, v := Sections(unreleased, Heading), Sections(released, Heading);
    SplitTally(unreleased, keep);
    SplitTally(released, keep);
    MergeHashed(v.sections, u.sections);
    MergeTotal(v.sections, u.sections, keep);
    FlatTally(MergeSubs(v.sections, u.sections), keep);
    TallyConcat(v.lead, FlatSections(MergeSubs(v.sections, u.sections)), keep);
    MergedBodyLines(unreleased, released);
    KeptOne("", keep);
  }

  lemma JoinedHasNoHeads(existing: seq<string>, more: seq<string>)
    requires NoHeads(existing, Heading) && NoHeads(more, Heading)
    ensures NoHeads(Joined(existing, more), Heading)
  {
    assert Heading("") == None;
    assert forall l :: l in TrimBlank(existing) ==> l in existing;
  }

  lemma ReplacedIsProper(vs: seq<Section>, i: nat, body: seq<string>)
    requires ProperSections(vs, Heading) && i < |vs| && NoHeads(body, Heading)
    ensures ProperSections(vs[i := vs[i].(body := body)], Heading)
  {
    assert vs[i] in vs;
  }

  lemma MergeOneProper(vs: seq<Section>, u: Section)
    requires ProperSections(vs, Heading) && ProperSections([u], Heading)
    ensures ProperSections(MergeOne(vs, u), Heading)
  {
    assert u in [u] && Heading("") == None;
    var more := TrimBlank(u.body);
    assert forall l :: l in more ==> l in u.body;
    match IndexNamed(vs, u.name) {
      case Some(i) =>
        assert vs[i] in vs;
        JoinedHasNoHeads(vs[i].body, more);
        ReplacedIsProper(vs, i, Joined(vs[i].body, more));
      case None =>
    }
  }

  lemma {:induction false} MergeProper(vs: seq<Section>, us: seq<Section>)
    requires ProperSections(vs, Heading) && ProperSections(us, Heading)
    ensures ProperSections(MergeSubs(vs, us), Heading)
    decreases |us|
  {
    if us != [] {
      assert us[|us| - 1] in us;
      MergeProper(vs, us[..|us| - 1]);
      MergeOneProper(MergeSubs(vs, us[..|us| - 1]), us[|us| - 1]);
    }
  }

  /** The lines before the first sub-section are the same, but for the one empty line that
      stands for no line at all. */
  predicate SamePreface(v: Doc, w: Doc) {
    w.lead == v.lead || (v.lead == [] && w.lead == [""] && w.sections == [])
  }

  /** Read again, the merged body has every old entry of each first sub-section, then the
      unreleased entries of its name in their order. */
  lemma MergedBlockReadsBack(unreleased: seq<string>, released: seq<string>, name: string, keep: string -> bool)
    requires Entrylike(keep) && AllOneLine(unreleased) && AllOneLine(released)
    ensures FirstUnder(Sections(MergedBody(unreleased, released), Heading).sections, name, keep)
            == FirstUnder(Sections(released, Heading).sections, name, keep)
               + AllUnder(Sections(unreleased, Heading).sections, name, keep)
    ensures Keeps(Sections(released, Heading).sections, Sections(MergedBody(unreleased, released), Heading).sections)
    ensures SamePreface(Sections(released, Heading), Sections(MergedBody(unreleased, released), Heading))
  {
    var u, v := Sections(unreleased, Heading), Sections(released, Heading);
    FlatUndoesSections(unreleased, Heading);
    FlatUndoesSections(released, Heading);
    MergeProper(v.sections, u.sections);
    MergedBodyLines(unreleased, released);
    var d := MergedDoc(unreleased, released);
    SectionsUndoesFlat(d, Heading);
    BlankBody();
    assert Sections(MergedBody(unreleased, released), Heading).sections == d.sections;
    assert Flat(d) == [] ==> d.lead == [] && d.sections == [];
    MergeAddsEntriesInOrder(v.sections, u.sections, name, keep);
    MergeKeepsRest(v.sections, u.sections);
  }

  lemma BlankBody()
    ensures Sections([""], Heading) == Doc([""], []) && Sections([], Heading) == Doc([], [])
  {
    assert [""][1..] == [];
  }

  // ------------------------------------------------------------- the whole document

  /** What else a merge leaves: the file read again has the same preface and the same blocks
      under the same headers, and every body but the two as it was; the unreleased block is
      emptied, the released one keeps its preface and its sub-sections. */
  lemma MergeLeavesTheRest(text: string, u: nat, v: nat)
    requires var d := Sections(SplitLines(text), HeaderName);
             IndexNamed(d.sections, UNRELEASED) == Some(u) && u != v && v < |d.sections|
    ensures var d := Sections(SplitLines(text), HeaderName);
            var e := Sections(SplitLines(JoinDoc(MergedInto(d, u, v))), HeaderName);
            && e.lead == (if d.lead == [] then [""] else d.lead) && |e.sections| == |d.sections|
            && (forall i :: 0 <= i < |d.sections| ==>
                  e.sections[i].header == d.sections[i].header && e.sections[i].name == d.sections[i].name
                  && (i == u || i == v || e.sections[i].body == d.sections[i].body))
            && e.sections[u].body == ["", ""]
            && SamePreface(Sections(d.sections[v].body, Heading), Sections(e.sections[v].body, Heading))
            && Keeps(Sections(d.sections[v].body, Heading).sections, Sections(e.sections[v].body, Heading).sections)
  {
    var d := Sections(SplitLines(text), HeaderName);
    FlatUndoesSections(SplitLines(text), HeaderName);
    SplitGivesLines(text);
    MergedIntoIsProper(d, u, v);
    PrintedReadsBack(MergedInto(d, u, v));
    OneLineParts(d, u);
    OneLineParts(d, v);
    BulletsAreEntrylike();
    MergedBlockReadsBack(d.sections[u].body, d.sections[v].body, "", IsBullet);
  }

  lemma PrintedReadsBack(d: Doc)
    requires Proper(d, HeaderName) && AllOneLine(Flat(d))
    ensures Sections(SplitLines(JoinDoc(d)), HeaderName) == d.(lead := if d.lead == [] then [""] else d.lead)
  {
    var e := d.(lead := if d.lead == [] then [""] else d.lead);
    JoinDocPrints(d);
    SplitOfJoin(Printed(d));
    assert OneLine("") && HeaderName("") == None;
    assert forall l :: l in Printed(d) ==> l == "" || l in Flat(d);
    SplitAllOneLine(Printed(d));
    assert Flat(e) == Printed(d);
    SectionsUndoesFlat(e, HeaderName);
  }

  lemma HeadersHashed(d: Doc)
    requires Proper(d, HeaderName)
    ensures Hashed(d.sections)
  {
    forall s | s in d.sections ensures s.header != "" && s.header[0] == '#' {
      assert HeaderName(s.header) == Some(s.name);
    }
  }

  lemma PrintedTally(d: Doc, keep: string -> bool)
    requires Entrylike(keep) && Hashed(d.sections)
    ensures Tally(Printed(d), keep) == Tally(d.lead, keep) + Total(d.sections, keep)
  {
    FlatTally(d.sections, keep);
    TallyConcat(if d.lead == [] then [""] else d.lead, FlatSections(d.sections), keep);
    KeptOne("", keep);
  }

  lemma EmptyBody(keep: string -> bool)
    requires Entrylike(keep)
    ensures Tally(["", ""], keep) == 0
  {
    assert ["", ""] == [""] + [""];
    TallyConcat([""], [""], keep);
    KeptOne("", keep);
  }

  /** A merge loses what stands before the first unreleased sub-section; if the version is
      the unreleased block itself, it loses that block's entries altogether. */
  lemma MergeLoses(d: Doc, u: nat, v: nat, keep: string -> bool)
    requires Entrylike(keep) && u < |d.sections| && v < |d.sections| && AllOneLine(Flat(d))
    ensures Total(MergedInto(d, u, v).sections, keep)
            + (if u == v then Tally(d.sections[u].body, keep)
               else Tally(Sections(d.sections[u].body, Heading).lead, keep))
            == Total(d.sections, keep)
  {
    OneLineParts(d, u);
    OneLineParts(d, v);
    var body := MergedBody(d.sections[u].body, d.sections[v].body);
    MergedBodyTally(d.sections[u].body, d.sections[v].body, keep);
    var s1 := d.sections[v := d.sections[v].(body := body)];
    TotalReplaced(d.sections, v, d.sections[v].(body := body), keep);
    TotalReplaced(s1, u, Emptied(s1[u]), keep);
    EmptyBody(keep);
  }

  /** A promotion moves the entries under the new header, all of them and nothing else. */
  lemma PromotionKeepsTotal(d: Doc, u: nat, version: string, today: string, keep: string -> bool)
    requires Entrylike(keep) && u < |d.sections|
    ensures Total(Promoted(d, u, version, today).sections, keep) == Total(d.sections, keep)
    ensures Kept(Promoted(d, u, version, today).sections[u + 1].body, keep) == Kept(d.sections[u].body, keep)
  {
    var body := TrimBlank(d.sections[u].body);
    TrimKeepsEntries(d.sections[u].body, keep);
    KeptConcat(body, [""], keep);
    KeptOne("", keep);
    EmptyBody(keep);
    var a := Section("## [Unreleased]", UNRELEASED, ["", ""]);
    var b := Section(VersionHeader(version, today), version, body + [""]);
    TotalAround(d.sections[..u], [d.sections[u]], d.sections[u + 1..], keep);
    TotalAround(d.sections[..u], [a, b], d.sections[u + 1..], keep);
    assert d.sections[..u] + [d.sections[u]] + d.sections[u + 1..] == d.sections;
    TotalOne(d.sections[u], keep);
    assert [a, b][1..] == [b];
    TotalOne(b, keep);
  }

  lemma TotalAround(x: seq<Section>, y: seq<Section>, z: seq<Section>, keep: string -> bool)
    ensures Total(x + y + z, keep) == Total(x, keep) + Total(y, keep) + Total(z, keep)
  {
    TotalConcat(x + y, z, keep);
    TotalConcat(x, y, keep);
  }

  // ------------------------------------------------------------------- the text

  /** The entries of a text. */
  function Entries(text: string): nat {
    |Bullets(SplitLines(text))|
  }

  lemma RefIsNoEntry(text: string, ref: string)
    requires OneLine(ref) && ref != "" && ref[0] == '['
    ensures Entries(AppendRef(text, ref)) == Entries(text)
  {
    var keep := IsBullet;
    RefLines(text, ref);
    SplitOne(ref);
    NotBullets(ref);
    NotBullets("");
    KeptOne(ref, keep);
    KeptOne("", keep);
    KeptConcat([ref], [""], keep);
    KeptConcat(RefHead(text), [ref] + [""], keep);
    KeptConcat(RefHead(text), [""], keep);
  }

  lemma PrintedEntries(d: Doc, version: string)
    requires AllOneLine(Flat(d)) && Hashed(d.sections) && OneLine(version)
    ensures Entries(AppendRef(JoinDoc(d), LinkRef(version)))
            == Tally(d.lead, IsBullet) + Total(d.sections, IsBullet)
  {
    LinkRefFacts(version);
    RefIsNoEntry(JoinDoc(d), LinkRef(version));
    JoinDocPrints(d);
    SplitOfJoin(Printed(d));
    assert OneLine("");
    assert forall l :: l in Printed(d) ==> l == "" || l in Flat(d);
    SplitAllOneLine(Printed(d));
    BulletsAreEntrylike();
    PrintedTally(d, IsBullet);
  }

  lemma ParsedEntries(text: string)
    ensures var d := Sections(SplitLines(text), HeaderName);
            Proper(d, HeaderName) && Hashed(d.sections) && AllOneLine(Flat(d))
            && Entries(text) == Tally(d.lead, IsBullet) + Total(d.sections, IsBullet)
  {
    var d := Sections(SplitLines(text), HeaderName);
    FlatUndoesSections(SplitLines(text), HeaderName);
    SplitGivesLines(text);
    HeadersHashed(d);
    BulletsAreEntrylike();
    FlatTally(d.sections, IsBullet);
    TallyConcat(d.lead, FlatSections(d.sections), IsBullet);
  }

  /** The entries a run loses. */
  function Lost(d: Doc, u: nat, version: string): nat
    requires u < |d.sections|
  {
    match IndexNamed(d.sections, version)
    case None => 0
    case Some(v) =>
      |Bullets(if u == v then d.sections[u].body else Sections(d.sections[u].body, Heading).lead)|
  }

  /** What a run for a one-line version keeps, loses and reports. A promotion keeps every
      entry. A merge keeps all but those before the first unreleased sub-section; a run for
      the version `Unreleased` loses the whole block, having reported its entries. */
  lemma EntriesAfterARun(text: string, version: string, today: string)
    requires Prepare(text, version, today).Wrote? && OneLine(version) && OneLine(today)
    ensures var d, r := Sections(SplitLines(text), HeaderName), Prepare(text, version, today);
            var u := IndexNamed(d.sections, UNRELEASED).value;
            Entries(r.text) + Lost(d, u, version) == Entries(text)
            && r.entries == |Bullets(d.sections[u].body)|
                            - (if IndexNamed(d.sections, version) == None then 0
                               else |Bullets(Sections(d.sections[u].body, Heading).lead)|)
  {
    var d := Sections(SplitLines(text), HeaderName);
    var u := IndexNamed(d.sections, UNRELEASED).value;
    ParsedEntries(text);
    BulletsAreEntrylike();
    match IndexNamed(d.sections, version) {
      case None => PromotionEntries(d, u, version, today);
      case Some(v) => MergeEntries(d, u, v, version);
    }
  }

  lemma PromotionEntries(d: Doc, u: nat, version: string, today: string)
    requires Proper(d, HeaderName) && AllOneLine(Flat(d)) && u < |d.sections| && OneLine(version) && OneLine(today)
    ensures Entries(AppendRef(JoinDoc(Promoted(d, u, version, today)), LinkRef(version)))
            == Tally(d.lead, IsBullet) + Total(d.sections, IsBullet)
    ensures |Bullets(TrimBlank(d.sections[u].body) + [""])| == |Bullets(d.sections[u].body)|
  {
    var d' := Promoted(d, u, version, today);
    BulletsAreEntrylike();
    PromotionKeepsTotal(d, u, version, today, IsBullet);
    PromotedIsPlain(d, u, version, today);
    PrintedEntries(d', version);
  }

  lemma PromotedIsPlain(d: Doc, u: nat, version: string, today: string)
    requires Proper(d, HeaderName) && AllOneLine(Flat(d)) && u < |d.sections| && OneLine(version) && OneLine(today)
    ensures AllOneLine(Flat(Promoted(d, u, version, today))) && Hashed(Promoted(d, u, version, today).sections)
  {
    var d' := Promoted(d, u, version, today);
    HeadersHashed(d);
    assert VersionHeader(version, today)[0] == '#';
    assert OneLine("## [") && OneLine("] - ") && OneLine(VersionHeader(version, today));
    OneLineParts(d, u);
    FreshBlockIsOneLine();
    OneLineTail(d, u);
    PromotedPrints(d, u, version, today);
    assert forall l :: l in Flat(d') ==> l in Printed(d');
  }

  lemma MergeEntries(d: Doc, u: nat, v: nat, version: string)
    requires Proper(d, HeaderName) && AllOneLine(Flat(d))
    requires IndexNamed(d.sections, UNRELEASED) == Some(u) && IndexNamed(d.sections, version) == Some(v)
    ensures Entries(AppendRef(JoinDoc(MergedInto(d, u, v)), LinkRef(version))) + Lost(d, u, version)
            == Tally(d.lead, IsBullet) + Total(d.sections, IsBullet)
    ensures Merged(Sections(d.sections[u].body, Heading).sections)
            == |Bullets(d.sections[u].body)| - |Bullets(Sections(d.sections[u].body, Heading).lead)|
  {
    BulletsAreEntrylike();
    MergedIntoIsProper(d, u, v);
    HeadersHashed(MergedInto(d, u, v));
    NamesAreOneLine(d, v);
    PrintedEntries(MergedInto(d, u, v), version);
    MergeLoses(d, u, v, IsBullet);
    MergedIsTotal(Sections(d.sections[u].body, Heading).sections);
    SplitTally(d.sections[u].body, IsBullet);
  }

  /** So a run conserves the entries if and only if it promotes, or merges into another
      block an unreleased block with no entry before its first sub-section. */
  lemma EntriesAreConservedIff(text: string, version: string, today: string)
    requires Prepare(text, version, today).Wrote? && OneLine(version) && OneLine(today)
    ensures var d := Sections(SplitLines(text), HeaderName);
            var u, v := IndexNamed(d.sections, UNRELEASED), IndexNamed(d.sections, version);
            Entries(Prepare(text, version, today).text) == Entries(text)
            <==> v == None || (v != u && !HasContent(Sections(d.sections[u.value].body, Heading).lead))
  {
    var d := Sections(SplitLines(text), HeaderName);
    var u := IndexNamed(d.sections, UNRELEASED).value;
    EntriesAfterARun(text, version, today);
    ContentIsBullets(d.sections[u].body);
    ContentIsBullets(Sections(d.sections[u].body, Heading).lead);
  }
}

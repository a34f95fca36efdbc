/**
 What whole runs of the release script (scripts/prepare-release.py) keep: the entries of
 the changelog, and the no-op on the second run.
 */
module ChangelogRuns {
  import opened Common
  import opened ChangelogText
  import opened Changelog

  // ---------------------------------------------------------- the link reference

  lemma {:induction false} RightTrimFacts(s: string)
    ensures RightTrim(s) <= s && RightTrim(RightTrim(s)) == RightTrim(s)
    ensures RightTrim(s) == s <==> s == "" || !Space(s[|s| - 1])
    decreases |s|
  {
    if s != "" && Space(s[|s| - 1]) {
      RightTrimFacts(s[..|s| - 1]);
    }
  }

  lemma {:induction false} LeftTrimFacts(s: string)
    ensures |LeftTrim(s)| <= |s| && s[|s| - |LeftTrim(s)|..] == LeftTrim(s)
    ensures LeftTrim(s) == s <==> s == "" || !Space(s[0])
    decreases |s|
  {
    if s != "" && Space(s[0]) {
      LeftTrimFacts(s[1..]);
      assert s[1..][|s| - 1 - |LeftTrim(s)|..] == s[|s| - |LeftTrim(s)|..];
    }
  }

  lemma StripFacts(s: string)
    requires OneLine(s)
    ensures OneLine(Strip(s)) && Strip(Strip(s)) == Strip(s)
  {
    var t := LeftTrim(s);
    LeftTrimFacts(s);
    RightTrimFacts(t);
    assert forall c :: c in t ==> c in s;
    assert forall c :: c in RightTrim(t) ==> c in t;
    if RightTrim(t) != "" {
      assert RightTrim(t)[0] == t[0];
    }
    LeftTrimFacts(RightTrim(t));
  }

  /** The lines of the text before an added reference: without a last empty one. */
  function RefHead(text: string): seq<string> {
    if EndsWithNewline(text) then SplitLines(text[..|text| - 1]) else SplitLines(text)
  }

  lemma RefLines(text: string, ref: string)
    ensures SplitLines(text) == RefHead(text) || SplitLines(text) == RefHead(text) + [""]
    ensures !HasRef(text, ref) ==> SplitLines(AppendRef(text, ref)) == RefHead(text) + (SplitLines(ref) + [""])
  {
    var tail := ref + ['\n'] + "";
    assert ref + ['\n'] == tail;
    SplitConcat(ref, "");
    if EndsWithNewline(text) {
      var t := text[..|text| - 1];
      assert text == t + ['\n'] + "";
      SplitConcat(t, "");
      SplitConcat(t, tail);
      assert text + "" + ref + ['\n'] == t + ['\n'] + tail;
    } else {
      SplitConcat(text, tail);
      assert text + ['\n'] + ref + ['\n'] == text + ['\n'] + tail;
    }
  }

  /** Adding the reference twice is adding it once exactly when it is one line without
      blanks around it. */
  lemma RefIsIdempotentIff(text: string, ref: string)
    ensures AppendRef(AppendRef(text, ref), ref) == AppendRef(text, ref) <==> OneLine(ref) && Strip(ref) == ref
  {
    var once := AppendRef(text, ref);
    var lines := SplitLines(once);
    if OneLine(ref) && Strip(ref) == ref && !HasRef(text, ref) {
      RefLines(text, ref);
      SplitOne(ref);
      assert Strip(lines[|RefHead(text)|]) == ref;
    }
    if HasRef(once, ref) {
      var i :| 0 <= i < |lines| && Strip(lines[i]) == ref;
      SplitGivesLines(once);
      assert lines[i] in lines;
      StripFacts(lines[i]);
    } else {
      assert |AppendRef(once, ref)| > |once|;
    }
  }

  lemma UrlIsOneLine()
    ensures OneLine("]: " + GithubUrl() + "/releases/tag/v")
  {
    assert OneLine("]: ") && OneLine("/releases/tag/v");
    assert OneLine("https://github.com") && OneLine("/aovestdipaperino") && OneLine("/tokensave");
  }

  lemma LinkRefFacts(version: string)
    ensures LinkRef(version) != "" && LinkRef(version)[0] == '['
    ensures OneLine(LinkRef(version)) <==> OneLine(version)
    ensures Strip(LinkRef(version)) == LinkRef(version) <==> version == "" || !Space(version[|version| - 1])
  {
    var middle := "]: " + GithubUrl() + "/releases/tag/v";
    UrlIsOneLine();
    var ref := LinkRef(version);
    Around("[", version, middle);
    LeftTrimFacts(ref);
    RightTrimFacts(ref);
  }

  lemma Around(open: string, v: string, middle: string)
    requires open != "" && OneLine(open) && middle != "" && OneLine(middle)
    ensures var ref := open + v + middle + v;
            ref != "" && ref[0] == open[0]
            && ref[|ref| - 1] == (if v == "" then middle[|middle| - 1] else v[|v| - 1])
            && (OneLine(ref) <==> OneLine(v))
  {
    var ref := open + v + middle + v;
    assert forall c :: c in ref <==> c in open || c in v || c in middle;
  }

  /** The script's own reference is added at most once exactly when the version is one line
      that does not end in a blank. */
  lemma LinkRefIsIdempotentIff(text: string, version: string)
    ensures AppendRef(AppendRef(text, LinkRef(version)), LinkRef(version)) == AppendRef(text, LinkRef(version))
            <==> OneLine(version) && (version == "" || !Space(version[|version| - 1]))
  {
    RefIsIdempotentIff(text, LinkRef(version));
    LinkRefFacts(version);
  }

  // ------------------------------------------------------- is there work to do?

  /** An entry comes before any version header. */
  predicate BulletFirst(lines: seq<string>) {
    lines != [] && HeaderName(lines[0]) == None && (IsBullet(lines[0]) || BulletFirst(lines[1..]))
  }

  /** A version header comes before any entry. */
  predicate HeaderFirst(lines: seq<string>) {
    lines != [] && (HeaderName(lines[0]).Some? || (!IsBullet(lines[0]) && HeaderFirst(lines[1..])))
  }

  /** The first unreleased block has an entry. */
  predicate HasWork(lines: seq<string>) {
    lines != []
    && if HeaderName(lines[0]) == Some(UNRELEASED) then BulletFirst(lines[1..]) else HasWork(lines[1..])
  }

  lemma {:induction false} BulletFirstIsContent(lines: seq<string>)
    ensures BulletFirst(lines) <==> Bullets(Sections(lines, HeaderName).lead) != []
    decreases |lines|
  {
    if lines != [] && HeaderName(lines[0]) == None {
      BulletFirstIsContent(lines[1..]);
      var lead := Sections(lines[1..], HeaderName).lead;
      assert ([lines[0]] + lead)[1..] == lead;
    }
  }

  lemma {:induction false} HasWorkIsContent(lines: seq<string>)
    ensures var d := Sections(lines, HeaderName);
            var u := IndexNamed(d.sections, UNRELEASED);
            HasWork(lines) <==> u.Some? && HasContent(d.sections[u.value].body)
    decreases |lines|
  {
    if lines != [] {
      HasWorkIsContent(lines[1..]);
      var rest := Sections(lines[1..], HeaderName);
      if HeaderName(lines[0]).Some? {
        assert ([Section(lines[0], HeaderName(lines[0]).value, rest.lead)] + rest.sections)[1..] == rest.sections;
        BulletFirstIsContent(lines[1..]);
        ContentIsBullets(rest.lead);
      }
    }
  }

  lemma RunsIffWork(text: string, version: string, today: string)
    ensures Prepare(text, version, today).Wrote? <==> HasWork(SplitLines(text))
  {
    HasWorkIsContent(SplitLines(text));
  }

  predicate NoUnreleased(lines: seq<string>) {
    forall l :: l in lines ==> HeaderName(l) != Some(UNRELEASED)
  }

  lemma {:induction false} WorkBehind(before: seq<string>, rest: seq<string>)
    requires NoUnreleased(before)
    ensures HasWork(before + rest) <==> HasWork(rest)
    decreases |before|
  {
    if before == [] {
      assert before + rest == rest;
    } else {
      assert (before + rest)[1..] == before[1..] + rest && before[0] in before;
      WorkBehind(before[1..], rest);
    }
  }

  lemma {:induction false} EntriesFirst(body: seq<string>, rest: seq<string>)
    requires NoHeads(body, HeaderName) && HasContent(body)
    ensures BulletFirst(body + rest)
    decreases |body|
  {
    var i :| 0 <= i < |body| && IsBullet(body[i]);
    assert body[0] in body;
    if !IsBullet(body[0]) {
      assert (body + rest)[1..] == body[1..] + rest;
      assert IsBullet(body[1..][i - 1]);
      EntriesFirst(body[1..], rest);
    }
  }

  lemma {:induction false} HeaderOrEntryFirst(lines: seq<string>, rest: seq<string>)
    requires BulletFirst(rest)
    ensures BulletFirst(lines + rest) <==> !HeaderFirst(lines)
    decreases |lines|
  {
    if lines == [] {
      assert lines + rest == rest;
    } else {
      assert (lines + rest)[1..] == lines[1..] + rest;
      HeaderOrEntryFirst(lines[1..], rest);
    }
  }

  lemma TwoBlankLines(rest: seq<string>)
    ensures BulletFirst(["", ""] + rest) <==> BulletFirst(rest)
  {
    NotBullets("");
    assert (["", ""] + rest)[1..] == [""] + rest && ([""] + rest)[1..] == rest;
  }

  // ------------------------------------------------- where the unreleased block is

  lemma {:induction false} FlatConcat(a: seq<Section>, b: seq<Section>)
    ensures FlatSections(a + b) == FlatSections(a) + FlatSections(b)
    decreases |a|
  {
    if a == [] {
      assert a + b == b;
    } else {
      assert (a + b)[1..] == a[1..] + b;
      FlatConcat(a[1..], b);
    }
  }

  lemma FlatAt(sections: seq<Section>, u: nat)
    requires u < |sections|
    ensures FlatSections(sections) == FlatSections(sections[..u])
                                      + (([sections[u].header] + sections[u].body) + FlatSections(sections[u + 1..]))
  {
    assert sections == sections[..u] + sections[u..];
    FlatConcat(sections[..u], sections[u..]);
    assert sections[u..][1..] == sections[u + 1..];
  }

  lemma {:induction false} NoUnreleasedBefore(sections: seq<Section>, u: nat)
    requires ProperSections(sections, HeaderName) && IndexNamed(sections, UNRELEASED) == Some(u)
    ensures NoUnreleased(FlatSections(sections[..u]))
    decreases |sections|
  {
    if u > 0 {
      assert sections[0] in sections;
      NoUnreleasedBefore(sections[1..], u - 1);
      assert sections[..u][1..] == sections[1..][..u - 1];
    }
  }

  /** The lines before the first unreleased block. */
  function Before(d: Doc, u: nat): seq<string>
    requires u < |d.sections|
  {
    (if d.lead == [] then [""] else d.lead) + FlatSections(d.sections[..u])
  }

  lemma BeforeHasNoUnreleased(d: Doc, u: nat)
    requires Proper(d, HeaderName) && IndexNamed(d.sections, UNRELEASED) == Some(u)
    ensures NoUnreleased(Before(d, u))
  {
    NoUnreleasedBefore(d.sections, u);
    assert HeaderName("") == None;
  }

  lemma PrintedAt(d: Doc, u: nat)
    requires u < |d.sections|
    ensures Printed(d)
            == Before(d, u) + (([d.sections[u].header] + d.sections[u].body) + FlatSections(d.sections[u + 1..]))
  {
    FlatAt(d.sections, u);
  }

  /** Appending a reference keeps every line but possibly a last empty one. */
  lemma KeepsPrefix(text: string, p: seq<string>, q: seq<string>, ref: string) returns (w: seq<string>)
    requires SplitLines(text) == p + q && p != [] && (q != [] || p[|p| - 1] != "")
    ensures SplitLines(AppendRef(text, ref)) == p + w
    ensures w == q || w == q + (SplitLines(ref) + [""])
            || (q != [] && q[|q| - 1] == "" && w == q[..|q| - 1] + (SplitLines(ref) + [""]))
  {
    RefLines(text, ref);
    var more := SplitLines(ref) + [""];
    if HasRef(text, ref) {
      w := q;
    } else if SplitLines(text) == RefHead(text) {
      w := q + more;
      Regroup(p, q, more);
    } else {
      DropLast(p, q, RefHead(text));
      w := q[..|q| - 1] + more;
      Regroup(p, q[..|q| - 1], more);
    }
  }

  lemma LastLine(p: seq<string>, q: seq<string>)
    requires p != []
    ensures (p + q)[|p + q| - 1] == if q == [] then p[|p| - 1] else q[|q| - 1]
  {
  }

  lemma DropLast(p: seq<string>, q: seq<string>, head: seq<string>)
    requires p != [] && (q != [] || p[|p| - 1] != "") && p + q == head + [""]
    ensures q != [] && q[|q| - 1] == "" && head == p + q[..|q| - 1]
  {
    assert (head + [""])[|head|] == "" && (head + [""])[..|head|] == head;
    LastLine(p, q);
  }

  // ---------------------------------------------------------- the second run

  lemma OneLineParts(d: Doc, u: nat)
    requires u < |d.sections| && AllOneLine(Flat(d))
    ensures AllOneLine(Before(d, u)) && OneLine(d.sections[u].header) && AllOneLine(d.sections[u].body)
    ensures AllOneLine(FlatSections(d.sections[u + 1..]))
  {
    FlatAt(d.sections, u);
    var a, b, c := FlatSections(d.sections[..u]), [d.sections[u].header] + d.sections[u].body,
                   FlatSections(d.sections[u + 1..]);
    assert Flat(d) == d.lead + (a + (b + c));
    forall l | l in d.lead || l in a || l in b || l in c ensures OneLine(l) {
      assert l in Flat(d);
    }
    assert d.sections[u].header in b && forall l :: l in d.sections[u].body ==> l in b;
    assert OneLine("");
  }

  function PromotedTail(d: Doc, u: nat): seq<string>
    requires u < |d.sections|
  {
    [""] + FlatSections(d.sections[u + 1..])
  }

  lemma PromotedPrints(d: Doc, u: nat, version: string, today: string)
    requires u < |d.sections|
    ensures Printed(Promoted(d, u, version, today))
            == Before(d, u) + (["## [Unreleased]", "", ""]
                               + ([VersionHeader(version, today)]
                                  + (TrimBlank(d.sections[u].body) + PromotedTail(d, u))))
  {
    var d', hdr, body := Promoted(d, u, version, today), VersionHeader(version, today), TrimBlank(d.sections[u].body);
    PrintedAt(d', u);
    assert d'.sections[..u] == d.sections[..u];
    var s := d'.sections[u + 1];
    assert d'.sections[u + 1..] == [s] + d.sections[u + 1..];
    assert ([s] + d.sections[u + 1..])[1..] == d.sections[u + 1..];
    FourParts(hdr, body, FlatSections(d.sections[u + 1..]));
  }

  lemma FourParts(hdr: string, body: seq<string>, rest: seq<string>)
    ensures [hdr] + (body + [""]) + rest == [hdr] + (body + ([""] + rest))
  {
  }

  lemma KeepLines(x: seq<string>, y: seq<string>)
    requires AllOneLine(x)
    ensures SplitAll(x + y) == x + SplitAll(y)
  {
    SplitAllConcat(x, y);
    SplitAllOneLine(x);
  }

  /** The lines a promotion prints. */
  lemma PromotedLines(d: Doc, u: nat, version: string, today: string)
    requires u < |d.sections| && AllOneLine(Flat(d))
    ensures SplitLines(JoinDoc(Promoted(d, u, version, today)))
            == Before(d, u) + (["## [Unreleased]", "", ""]
                               + (SplitLines(VersionHeader(version, today))
                                  + (TrimBlank(d.sections[u].body) + PromotedTail(d, u))))
  {
    var hdr, tail := VersionHeader(version, today), TrimBlank(d.sections[u].body) + PromotedTail(d, u);
    OneLineParts(d, u);
    JoinDocPrints(Promoted(d, u, version, today));
    SplitOfJoin(Printed(Promoted(d, u, version, today)));
    PromotedPrints(d, u, version, today);
    FreshBlockIsOneLine();
    OneLineTail(d, u);
    SplitAround(Before(d, u), ["## [Unreleased]", "", ""], hdr, tail);
  }

  lemma FreshBlockIsOneLine()
    ensures AllOneLine(["## [Unreleased]", "", ""])
  {
    assert OneLine("## [Unreleased]") && OneLine("");
  }

  lemma OneLineTail(d: Doc, u: nat)
    requires u < |d.sections| && AllOneLine(d.sections[u].body) && AllOneLine(FlatSections(d.sections[u + 1..]))
    ensures AllOneLine(TrimBlank(d.sections[u].body) + PromotedTail(d, u))
  {
    assert OneLine("");
    assert forall l :: l in TrimBlank(d.sections[u].body) ==> l in d.sections[u].body;
  }

  lemma SplitAround(x: seq<string>, m: seq<string>, hdr: string, tail: seq<string>)
    requires AllOneLine(x) && AllOneLine(m) && AllOneLine(tail)
    ensures SplitAll(x + (m + ([hdr] + tail))) == x + (m + (SplitLines(hdr) + tail))
  {
    KeepLines(x, m + ([hdr] + tail));
    KeepLines(m, [hdr] + tail);
    assert ([hdr] + tail)[1..] == tail;
    SplitAllOneLine(tail);
  }

  lemma PromotionLeavesWorkIff(text: string, u: nat, version: string, today: string)
    requires var d := Sections(SplitLines(text), HeaderName);
             IndexNamed(d.sections, UNRELEASED) == Some(u) && HasContent(d.sections[u].body)
    ensures var d := Sections(SplitLines(text), HeaderName);
            HasWork(SplitLines(AppendRef(JoinDoc(Promoted(d, u, version, today)), LinkRef(version))))
            <==> !HeaderFirst(SplitLines(VersionHeader(version, today)))
  {
    var d := Sections(SplitLines(text), HeaderName);
    FlatUndoesSections(SplitLines(text), HeaderName);
    SplitGivesLines(text);
    PromotedLines(d, u, version, today);
    BeforeHasNoUnreleased(d, u);
    assert d.sections[u] in d.sections;
    TrimmedContent(d.sections[u].body);
    UnreleasedHeader();
    PromotedWork(JoinDoc(Promoted(d, u, version, today)), LinkRef(version), Before(d, u), "## [Unreleased]",
                 SplitLines(VersionHeader(version, today)), TrimBlank(d.sections[u].body), PromotedTail(d, u));
  }

  lemma TrimmedContent(body: seq<string>)
    requires NoHeads(body, HeaderName) && HasContent(body)
    ensures NoHeads(TrimBlank(body), HeaderName) && HasContent(TrimBlank(body))
  {
    BulletsAreEntrylike();
    TrimKeepsEntries(body, IsBullet);
    ContentIsBullets(body);
    ContentIsBullets(TrimBlank(body));
    assert forall l :: l in TrimBlank(body) ==> l in body;
  }

  lemma FreshWork(h: string, rest: seq<string>)
    requires HeaderName(h) == Some(UNRELEASED)
    ensures HasWork([h, "", ""] + rest) <==> BulletFirst(rest)
  {
    assert ([h, "", ""] + rest)[1..] == ["", ""] + rest;
    TwoBlankLines(rest);
  }

  lemma UnreleasedHeader()
    ensures HeaderName("## [Unreleased]") == Some(UNRELEASED)
  {
    var h := "## [Unreleased]";
    assert |h| == 15 && h[..4] == "## [" && h[4..14] == UNRELEASED && h[14] == ']';
    BracketsAround(h, UNRELEASED);
  }

  lemma BracketsAround(h: string, name: string)
    requires |name| == 10 && name == UNRELEASED && |h| == 15 && h[..4] == "## [" && h[4..14] == name && h[14] == ']'
    ensures HeaderName(h) == Some(name)
  {
    assert h[15..] == "";
    BracketedLine(h, name, "");
  }

  lemma PromotedWork(text: string, ref: string, before: seq<string>, h: string, hdr: seq<string>, body: seq<string>,
                     tail: seq<string>)
    requires NoUnreleased(before) && NoHeads(body, HeaderName) && HasContent(body) && tail != []
    requires HeaderName(h) == Some(UNRELEASED)
    requires SplitLines(text) == before + ([h, "", ""] + (hdr + (body + tail)))
    ensures HasWork(SplitLines(AppendRef(text, ref))) <==> !HeaderFirst(hdr)
  {
    var m := [h, "", ""];
    FiveParts(before, m, hdr, body, tail);
    var w := KeepsPrefix(text, before + (m + (hdr + body)), tail, ref);
    FiveParts(before, m, hdr, body, w);
    WorkBehind(before, m + (hdr + (body + w)));
    FreshWork(h, hdr + (body + w));
    EntriesFirst(body, w);
    HeaderOrEntryFirst(hdr, body + w);
  }

  lemma FiveParts(a: seq<string>, b: seq<string>, c: seq<string>, d: seq<string>, e: seq<string>)
    ensures a + (b + (c + (d + e))) == (a + (b + (c + d))) + e
  {
    Regroup(c, d, e);
    Regroup(b, c + d, e);
    Regroup(a, b + (c + d), e);
  }

  // ------------------------------------------------------ the body of a merged block

  predicate Pooled(sections: seq<Section>, pool: set<string>) {
    forall s :: s in sections ==> s.header in pool && forall l :: l in s.body ==> l in pool
  }

  lemma {:induction false} FlatIsPooled(sections: seq<Section>, pool: set<string>)
    ensures Pooled(sections, pool) <==> forall l :: l in FlatSections(sections) ==> l in pool
    decreases |sections|
  {
    if sections != [] {
      FlatIsPooled(sections[1..], pool);
      var s, rest := sections[0], FlatSections(sections[1..]);
      assert sections == [s] + sections[1..];
      assert FlatSections(sections) == [s.header] + s.body + rest;
      assert forall l :: l in FlatSections(sections) <==> l == s.header || l in s.body || l in rest;
    }
  }

  lemma MergeOneIsPooled(vs: seq<Section>, u: Section, pool: set<string>)
    requires Pooled(vs, pool) && Pooled([u], pool) && "" in pool
    ensures Pooled(MergeOne(vs, u), pool)
  {
    assert u in [u];
    var more := TrimBlank(u.body);
    assert forall l :: l in more ==> l in u.body;
    match IndexNamed(vs, u.name) {
      case Some(i) =>
        assert vs[i] in vs;
        assert forall l :: l in TrimBlank(vs[i].body) ==> l in vs[i].body;
        assert forall l :: l in Joined(vs[i].body, more) ==> l in pool;
      case None =>
    }
  }

  lemma {:induction false} MergeIsPooled(vs: seq<Section>, us: seq<Section>, pool: set<string>)
    requires Pooled(vs, pool) && Pooled(us, pool) && "" in pool
    ensures Pooled(MergeSubs(vs, us), pool)
    decreases |us|
  {
    if us != [] {
      var n := |us| - 1;
      MergeIsPooled(vs, us[..n], pool);
      assert us[n] in us;
      MergeOneIsPooled(MergeSubs(vs, us[..n]), us[n], pool);
    }
  }

  /** The document that a merged body prints. */
  function MergedDoc(unreleased: seq<string>, released: seq<string>): Doc {
    var v := Sections(released, Heading);
    Doc(v.lead, MergeSubs(v.sections, Sections(unreleased, Heading).sections))
  }

  lemma SectionsArePooled(lines: seq<string>, pool: set<string>)
    requires forall l :: l in lines ==> l in pool
    ensures Pooled(Sections(lines, Heading).sections, pool)
    ensures forall l :: l in Sections(lines, Heading).lead ==> l in pool
  {
    FlatUndoesSections(lines, Heading);
    var d := Sections(lines, Heading);
    assert forall l :: l in d.lead || l in FlatSections(d.sections) ==> l in Flat(d);
    FlatIsPooled(d.sections, pool);
  }

  lemma MergedDocIsPooled(unreleased: seq<string>, released: seq<string>, pool: set<string>)
    requires "" in pool && forall l :: l in unreleased || l in released ==> l in pool
    ensures forall l :: l in Flat(MergedDoc(unreleased, released)) ==> l in pool
  {
    SectionsArePooled(unreleased, pool);
    SectionsArePooled(released, pool);
    var d := MergedDoc(unreleased, released);
    MergeIsPooled(Sections(released, Heading).sections, Sections(unreleased, Heading).sections, pool);
    FlatIsPooled(d.sections, pool);
  }

  /** A merged body is made of lines of the two bodies and empty ones. */
  lemma MergedBodyLines(unreleased: seq<string>, released: seq<string>)
    requires AllOneLine(unreleased) && AllOneLine(released)
    ensures MergedBody(unreleased, released)
            == if Flat(MergedDoc(unreleased, released)) == [] then [""] else Flat(MergedDoc(unreleased, released))
    ensures forall l :: l in MergedBody(unreleased, released) ==> l in unreleased || l in released || l == ""
  {
    var pool := (set l | l in unreleased) + (set l | l in released) + {""};
    MergedDocIsPooled(unreleased, released, pool);
    var d := MergedDoc(unreleased, released);
    assert OneLine("");
    forall l | l in Flat(d) ensures OneLine(l) {
      assert l in pool;
    }
    RebuildIsFlat(d);
  }

  lemma MergedBodyIsPlain(unreleased: seq<string>, released: seq<string>)
    requires AllOneLine(unreleased) && AllOneLine(released)
    requires NoHeads(unreleased, HeaderName) && NoHeads(released, HeaderName)
    ensures AllOneLine(MergedBody(unreleased, released)) && NoHeads(MergedBody(unreleased, released), HeaderName)
  {
    MergedBodyLines(unreleased, released);
    assert OneLine("") && HeaderName("") == None;
  }

  lemma MergedIntoIsProper(d: Doc, u: nat, v: nat)
    requires u < |d.sections| && v < |d.sections| && Proper(d, HeaderName) && AllOneLine(Flat(d))
    requires IndexNamed(d.sections, UNRELEASED) == Some(u)
    ensures var d' := MergedInto(d, u, v);
            Proper(d', HeaderName) && AllOneLine(Flat(d')) && IndexNamed(d'.sections, UNRELEASED) == Some(u)
            && d'.sections[u].body == ["", ""] && |d'.sections| == |d.sections|
  {
    assert d.sections[u] in d.sections && d.sections[v] in d.sections;
    OneLineParts(d, u);
    OneLineParts(d, v);
    var body := MergedBody(d.sections[u].body, d.sections[v].body);
    MergedBodyIsPlain(d.sections[u].body, d.sections[v].body);
    BodyReplaced(d, v, body, UNRELEASED);
    var d1 := d.(sections := d.sections[v := d.sections[v].(body := body)]);
    assert OneLine("") && HeaderName("") == None;
    BodyReplaced(d1, u, ["", ""], UNRELEASED);
  }

  lemma BodyReplaced(d: Doc, i: nat, body: seq<string>, name: string)
    requires i < |d.sections| && Proper(d, HeaderName) && AllOneLine(Flat(d))
    requires AllOneLine(body) && NoHeads(body, HeaderName)
    ensures var d' := d.(sections := d.sections[i := d.sections[i].(body := body)]);
            && Proper(d', HeaderName) && AllOneLine(Flat(d'))
            && IndexNamed(d'.sections, name) == IndexNamed(d.sections, name)
  {
    var s := d.sections[i].(body := body);
    var d' := d.(sections := d.sections[i := s]);
    assert d.sections[i] in d.sections;
    ReplacedNamed(d.sections, i, s, name);
    OneLineParts(d, i);
    FlatAt(d.sections, i);
    FlatAt(d'.sections, i);
    assert d'.sections[..i] == d.sections[..i] && d'.sections[i + 1..] == d.sections[i + 1..];
    forall l | l in Flat(d') ensures OneLine(l) {
      assert l in d.lead || l in FlatSections(d.sections[..i]) || l == s.header || l in body
             || l in FlatSections(d.sections[i + 1..]);
      assert l in d.lead || l in FlatSections(d.sections[..i]) ==> l in Flat(d);
    }
  }

  lemma MergeLeavesNoWork(text: string, u: nat, v: nat, version: string)
    requires var d := Sections(SplitLines(text), HeaderName);
             IndexNamed(d.sections, UNRELEASED) == Some(u) && IndexNamed(d.sections, version) == Some(v)
    ensures var d := Sections(SplitLines(text), HeaderName);
            !HasWork(SplitLines(AppendRef(JoinDoc(MergedInto(d, u, v)), LinkRef(version))))
  {
    var d := Sections(SplitLines(text), HeaderName);
    FlatUndoesSections(SplitLines(text), HeaderName);
    SplitGivesLines(text);
    MergedIntoIsProper(d, u, v);
    var d' := MergedInto(d, u, v);
    NamesAreOneLine(d, v);
    LinkRefFacts(version);
    EmptiedHasNoWork(d', u, LinkRef(version));
  }

  lemma NamesAreOneLine(d: Doc, v: nat)
    requires v < |d.sections| && Proper(d, HeaderName) && AllOneLine(Flat(d))
    ensures OneLine(d.sections[v].name)
  {
    assert d.sections[v] in d.sections;
    OneLineParts(d, v);
    NameInHeader(d.sections[v].header);
  }

  lemma NameInHeader(line: string)
    requires HeaderName(line).Some? && OneLine(line)
    ensures OneLine(HeaderName(line).value)
  {
    var e := CloseAt(line, 4);
    assert forall c :: c in line[4..e] ==> c in line;
  }

  /** A document whose first unreleased block is empty gives no work once printed. */
  lemma EmptiedHasNoWork(d: Doc, u: nat, ref: string)
    requires Proper(d, HeaderName) && AllOneLine(Flat(d)) && IndexNamed(d.sections, UNRELEASED) == Some(u)
    requires d.sections[u].body == ["", ""] && OneLine(ref) && ref != "" && ref[0] == '['
    ensures !HasWork(SplitLines(AppendRef(JoinDoc(d), ref)))
  {
    assert d.sections[u] in d.sections;
    BeforeHasNoUnreleased(d, u);
    PrintedLines(d, u);
    assert forall s :: s in d.sections[u + 1..] ==> s in d.sections;
    EmptiedBlock(JoinDoc(d), Before(d, u), d.sections[u].header, d.sections[u + 1..], ref);
  }

  lemma EmptiedBlock(text: string, before: seq<string>, h: string, post: seq<Section>, ref: string)
    requires NoUnreleased(before) && HeaderName(h) == Some(UNRELEASED)
    requires post != [] ==> HeaderName(post[0].header).Some?
    requires SplitLines(text) == before + (([h] + ["", ""]) + FlatSections(post))
    requires OneLine(ref) && ref != "" && ref[0] == '['
    ensures !HasWork(SplitLines(AppendRef(text, ref)))
  {
    if post == [] {
      assert ([h] + ["", ""]) + [] == [h, "", ""];
      EmptiedLast(text, before, h, ref);
    } else {
      var rest := post[0].body + FlatSections(post[1..]);
      Regroup([post[0].header], post[0].body, FlatSections(post[1..]));
      EmptiedFollowed(text, before, h, post[0].header, rest, ref);
    }
  }

  lemma PrintedLines(d: Doc, u: nat)
    requires AllOneLine(Flat(d)) && u < |d.sections|
    ensures SplitLines(JoinDoc(d))
            == Before(d, u) + (([d.sections[u].header] + d.sections[u].body) + FlatSections(d.sections[u + 1..]))
  {
    JoinDocPrints(d);
    SplitOfJoin(Printed(d));
    PrintedAt(d, u);
    assert OneLine("");
    assert forall l :: l in Printed(d) ==> l == "" || l in Flat(d);
    SplitAllOneLine(Printed(d));
  }

  lemma EmptiedLast(text: string, before: seq<string>, h: string, ref: string)
    requires NoUnreleased(before) && HeaderName(h) == Some(UNRELEASED)
    requires SplitLines(text) == before + [h, "", ""] && OneLine(ref) && ref != "" && ref[0] == '['
    ensures !HasWork(SplitLines(AppendRef(text, ref)))
  {
    assert before + [h, "", ""] == (before + [h, ""]) + [""];
    var w := KeepsPrefix(text, before + [h, ""], [""], ref);
    SplitOne(ref);
    assert [""] + ([ref] + [""]) == ["", ref, ""] && [""][..0] + ([ref] + [""]) == [ref, ""];
    QuietTail(h, w, ref);
    Regroup(before, [h, ""], w);
    WorkBehind(before, [h, ""] + w);
  }

  lemma EmptiedFollowed(text: string, before: seq<string>, h: string, next: string, rest: seq<string>, ref: string)
    requires NoUnreleased(before) && HeaderName(h) == Some(UNRELEASED) && HeaderName(next).Some?
    requires SplitLines(text) == before + (([h] + ["", ""]) + ([next] + rest))
    ensures !HasWork(SplitLines(AppendRef(text, ref)))
  {
    HeaderNext(before, h, next, rest);
    var w := KeepsPrefix(text, before + [h, "", "", next], rest, ref);
    Regroup(before, [h, "", "", next], w);
    WorkBehind(before, [h, "", "", next] + w);
    StopsAtHeader(h, next, w);
  }

  lemma HeaderNext(x: seq<string>, h: string, next: string, rest: seq<string>)
    ensures x + (([h] + ["", ""]) + ([next] + rest)) == (x + [h, "", "", next]) + rest
    ensures (x + [h, "", "", next])[|x + [h, "", "", next]| - 1] == next
  {
  }

  lemma StopsAtHeader(h: string, next: string, w: seq<string>)
    requires HeaderName(h) == Some(UNRELEASED) && HeaderName(next).Some?
    ensures !HasWork([h, "", "", next] + w)
  {
    var lines := [h, "", "", next] + w;
    assert lines[1..] == ["", ""] + ([next] + w);
    TwoBlankLines([next] + w);
  }

  lemma QuietTail(h: string, w: seq<string>, ref: string)
    requires HeaderName(h) == Some(UNRELEASED) && ref != "" && ref[0] == '['
    requires w == [""] || w == ["", ref, ""] || w == [ref, ""]
    ensures !HasWork([h, ""] + w)
  {
    NotBullets("");
    NotBullets(ref);
    assert HeaderName(ref) == None && HeaderName("") == None;
    NoEntryIn([""] + w);
    assert ([h, ""] + w)[1..] == [""] + w;
  }

  lemma {:induction false} NoEntryIn(lines: seq<string>)
    requires forall l :: l in lines ==> !IsBullet(l)
    ensures !BulletFirst(lines)
    decreases |lines|
  {
    if lines != [] {
      NoEntryIn(lines[1..]);
    }
  }

  /** A second run, whatever its version and day, does nothing if and only if the first one
      merged, or the header it wrote reads as a header. */
  lemma SecondRunIsNoOpIff(text: string, version: string, today: string, version2: string, today2: string)
    requires Prepare(text, version, today).Wrote?
    ensures Prepare(Prepare(text, version, today).text, version2, today2) == Nothing
            <==> IndexNamed(Sections(SplitLines(text), HeaderName).sections, version).Some?
                 || HeaderFirst(SplitLines(VersionHeader(version, today)))
  {
    var d := Sections(SplitLines(text), HeaderName);
    var u := IndexNamed(d.sections, UNRELEASED).value;
    match IndexNamed(d.sections, version) {
      case None => PromotionLeavesWorkIff(text, u, version, today);
      case Some(v) => MergeLeavesNoWork(text, u, v, version);
    }
    RunsIffWork(Prepare(text, version, today).text, version2, today2);
  }

  lemma OrdinaryHeader(version: string, today: string)
    requires version != "" && ']' !in version && today != ""
    ensures HeaderName(VersionHeader(version, today)) == Some(version)
  {
    var tail := " - " + today;
    assert tail[1..] == "- " + today;
    assert LeftTrim(tail) == tail[1..];
    HeaderNameIsBracketed(version, tail);
    SameHeader(version, today);
  }

  lemma SameHeader(version: string, today: string)
    ensures VersionHeader(version, today) == "## [" + version + "]" + (" - " + today)
  {
    assert "] - " == "]" + " - ";
  }

  lemma HeaderIsOneLine(version: string, today: string)
    requires OneLine(version) && OneLine(today)
    ensures SplitLines(VersionHeader(version, today)) == [VersionHeader(version, today)]
  {
    assert OneLine("## [") && OneLine("] - ");
    SplitOne(VersionHeader(version, today));
  }

  /** So it does nothing after any run for an ordinary version. */
  lemma SecondRunIsNoOp(text: string, version: string, today: string, version2: string, today2: string)
    requires Prepare(text, version, today).Wrote?
    requires version != "" && ']' !in version && OneLine(version) && today != "" && OneLine(today)
    ensures Prepare(Prepare(text, version, today).text, version2, today2) == Nothing
  {
    OrdinaryHeader(version, today);
    HeaderIsOneLine(version, today);
    SecondRunIsNoOpIff(text, version, today, version2, today2);
  }

  lemma EmptyVersionHeader(today: string)
    ensures !HeaderFirst([VersionHeader("", today)])
  {
    var hdr := VersionHeader("", today);
    assert hdr[0] == '#' && hdr[4] == ']' && CloseAt(hdr, 4) == 4;
    NotBullets(hdr);
    assert [hdr][1..] == [];
  }

  /** With an empty version the promoted header is no header: the notes stay unreleased and
      the next run promotes them again. */
  lemma EmptyVersionPromotesAgain(text: string, today: string, version2: string, today2: string)
    requires Prepare(text, "", today).Wrote? && OneLine(today)
    ensures Prepare(Prepare(text, "", today).text, version2, today2).Wrote?
  {
    EmptyVersionHeader(today);
    HeaderIsOneLine("", today);
    NamesAreNotEmpty(text);
    SecondRunIsNoOpIff(text, "", today, version2, today2);
  }

  lemma NamesAreNotEmpty(text: string)
    ensures IndexNamed(Sections(SplitLines(text), HeaderName).sections, "") == None
  {
    var ss := Sections(SplitLines(text), HeaderName).sections;
    FlatUndoesSections(SplitLines(text), HeaderName);
    forall s | s in ss ensures s.name != "" {
      assert HeaderName(s.header) == Some(s.name);
    }
  }
}

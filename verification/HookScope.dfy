/**
 What a denial discards (src/hooks.rs, `evaluate_bash_segment` and `evaluate_bash_command`),
 judged by how the shell reads the line.
 */
module HookScope {
  import opened Common
  import opened ShellScan
  import opened ShellTokens
  import opened CommandPrefixes
  import opened HookPolicy
  import opened ShellLexer

  // ---------------------------------------------------- the stripped prefixes

  function Shift(at: Option<nat>, n: nat): Option<nat> {
    if at == None then None else Some(at.value + n)
  }

  /** The separator of the first peeled `cd` that position `i` is in or in front of. */
  function SeparatorAfter(items: seq<Item>, i: nat): Option<nat> {
    if items == [] then None
    else
      var n := |items[0].text|;
      if i >= n then Shift(SeparatorAfter(items[1..], i - n), n)
      else if items[0].ChangeDir? then Some(items[0].at)
      else Shift(SeparatorAfter(items[1..], 0), n)
  }

  /** Position `j` is in the separator of a peeled `cd`. */
  predicate Recorded(items: seq<Item>, j: nat) {
    items != [] &&
    var item, n := items[0], |items[0].text|;
    if j >= n then Recorded(items[1..], j - n)
    else item.ChangeDir? && (j == item.at || (j == item.at + 1 && item.text[item.at..j + 1] == "&&"))
  }

  /** A peeled item, or what is left after peeling, starts at `q`. */
  predicate PartStarts(items: seq<Item>, q: nat) {
    q == 0 || (items != [] && q >= |items[0].text| && PartStarts(items[1..], q - |items[0].text|))
  }

  /** Position `i` is in the `NAME=value` of a peeled assignment. */
  predicate InAssignment(items: seq<Item>, i: nat) {
    items != [] &&
    var item, n := items[0], |items[0].text|;
    if i >= n then InAssignment(items[1..], i - n)
    else item.Assignment? && i < |item.name| + 1 + |item.value|
  }

  /** Position `i` is the white space right after the `cd` of a peeled item. */
  predicate BehindCd(items: seq<Item>, i: nat) {
    items != [] &&
    var n := |items[0].text|;
    if i >= n then BehindCd(items[1..], i - n) else items[0].ChangeDir? && i == 2
  }

  lemma {:induction false} NoSeparatorBehind(items: seq<Item>, i: nat)
    requires i >= |Texts(items)|
    ensures SeparatorAfter(items, i) == None
  {
    if items != [] { NoSeparatorBehind(items[1..], i - |items[0].text|); }
  }

  lemma {:induction false} RestStarts(items: seq<Item>)
    ensures PartStarts(items, |Texts(items)|)
  {
    if items != [] { RestStarts(items[1..]); }
  }

  // ------------------------------------------------------------- the whole line

  /** What runs before another command is a peeled `cd`, with its wrappers and assignments,
      up to its separator. */
  predicate CdGoesFirst(items: seq<Item>, i: nat, k: nat) {
    SeparatorAfter(items, i).Some? && SeparatorAfter(items, i).value < k
  }

  /** Position `i` is an unquoted blank. */
  predicate BreaksWord(s: string, i: nat)
    requires i < |s|
  {
    LexAt(s, i).nests == [] && LexAt(s, i).at.Text? && IsBlank(s[i])
  }

  /** The shell reads the peeled items as the hook does: they and the search start afresh,
      an assignment is one word, and `cd` is a word of its own. */
  predicate SameReading(t: string, items: seq<Item>) {
    && (forall q :: 0 <= q <= |t| && PartStarts(items, q) ==> LexAt(t, q) == FRESH)
    && (forall i :: 0 <= i < |t| && InAssignment(items, i) ==> !BreaksWord(t, i))
    && (forall i :: 0 <= i < |t| && BehindCd(items, i) ==> BreaksWord(t, i))
  }

  predicate SpawnsNothing(t: string, n: nat)
    requires n <= |t|
  {
    forall i :: 0 <= i < n ==> !Spawns(t, i)
  }

  predicate OnlyCdsFirst(t: string, items: seq<Item>, n: nat) {
    forall i, j, k :: 0 <= i < j < k <= n && Parts(t, i, j, k) ==> CdGoesFirst(items, i, k)
  }

  /** All that the shell runs for `t` are the peeled `cd`s and, last, the search, with their
      wrappers and assignments: nothing is run inside, the items are read as the hook reads
      them, and every earlier command is one of the `cd`s. */
  predicate OnlyTheSearch(t: string, items: seq<Item>) {
    SpawnsNothing(t, |t|) && SameReading(t, items) && OnlyCdsFirst(t, items, |t|)
  }

  /** The same of the prefixes alone, up to where the search starts. */
  predicate PrefixShown(t: string, items: seq<Item>)
    requires |Texts(items)| <= |t|
  {
    SpawnsNothing(t, |Texts(items)|) && SameReading(t, items) && OnlyCdsFirst(t, items, |Texts(items)|)
  }

  /** What the shell reads behind a fresh position. */
  lemma ReadsAlike(t: string, p: nat, i: nat)
    requires p <= |t| && LexAt(t, p) == FRESH && i < |t| - p
    ensures var rest := t[p..];
            && EndsCommand(rest, i) == EndsCommand(t, p + i) && IsText(rest, i) == IsText(t, p + i)
            && Spawns(rest, i) == Spawns(t, p + i)
  {
    LexOfSlice(t, p, i);
    assert t[p..][i] == t[p + i];
    if i + 1 < |t| - p { assert t[p..][i + 1] == t[p + i + 1]; }
  }

  lemma PartsAlike(t: string, p: nat, i: nat, j: nat, k: nat)
    requires p <= |t| && LexAt(t, p) == FRESH && i < j < k < |t| - p
    ensures Parts(t[p..], i, j, k) == Parts(t, p + i, p + j, p + k)
  {
    ReadsAlike(t, p, i);
    ReadsAlike(t, p, j);
    ReadsAlike(t, p, k);
  }

  /** The line runs only the search if and only if its prefixes show all they run and the
      remainder is one command. */
  lemma LineIsOnlyTheSearchIff(t: string, items: seq<Item>, rest: string)
    requires t == Texts(items) + rest && rest != "" && IsText(rest, 0)
    ensures OnlyTheSearch(t, items) <==> PrefixShown(t, items) && OneCommand(rest)
  {
    var p := |Texts(items)|;
    RestStarts(items);
    assert t[p..] == rest;
    if SameReading(t, items) {
      assert LexAt(t, p) == FRESH;
      SpawnsAlike(t, p);
      if OnlyTheSearch(t, items) { RestIsOnePart(t, items, p); }
      if PrefixShown(t, items) && OneCommand(rest) { PrefixAndRest(t, items, p); }
    }
  }

  lemma SpawnsAlike(t: string, p: nat)
    requires p <= |t| && LexAt(t, p) == FRESH
    ensures SpawnsNothing(t, |t|) <==> SpawnsNothing(t, p) && SpawnsNothing(t[p..], |t| - p)
  {
    forall i | 0 <= i < |t| - p ensures Spawns(t[p..], i) == Spawns(t, p + i) {
      ReadsAlike(t, p, i);
    }
    if SpawnsNothing(t, p) && SpawnsNothing(t[p..], |t| - p) {
      forall i | 0 <= i < |t| ensures !Spawns(t, i) {
        if i >= p { assert Spawns(t[p..], i - p) == Spawns(t, p + (i - p)); }
      }
    }
  }

  predicate OnePart(s: string) {
    forall i, j, k :: 0 <= i < j < k < |s| ==> !Parts(s, i, j, k)
  }

  lemma RestIsOnePart(t: string, items: seq<Item>, p: nat)
    requires OnlyCdsFirst(t, items, |t|) && p == |Texts(items)| <= |t| && LexAt(t, p) == FRESH
    ensures OnePart(t[p..])
  {
    forall i, j, k | 0 <= i < j < k < |t| - p ensures !Parts(t[p..], i, j, k) {
      PartsAlike(t, p, i, j, k);
      NoSeparatorBehind(items, p + i);
    }
  }

  lemma PrefixAndRest(t: string, items: seq<Item>, p: nat)
    requires p == |Texts(items)| < |t| && LexAt(t, p) == FRESH && OnlyCdsFirst(t, items, p)
    requires OnePart(t[p..]) && IsText(t[p..], 0)
    ensures OnlyCdsFirst(t, items, |t|)
  {
    ReadsAlike(t, p, 0);
    forall i, j, k | 0 <= i < j < k <= |t| && Parts(t, i, j, k) ensures CdGoesFirst(items, i, k) {
      PartOfBoth(t, items, p, i, j, k);
    }
  }

  lemma PartOfBoth(t: string, items: seq<Item>, p: nat, i: nat, j: nat, k: nat)
    requires p < |t| && LexAt(t, p) == FRESH && OnlyCdsFirst(t, items, p) && OnePart(t[p..])
    requires IsText(t, p) && Parts(t, i, j, k)
    ensures CdGoesFirst(items, i, k)
  {
    if j > p {
      PartsAlike(t, p, 0, j - p, k - p);
    } else if k > p {
      assert Parts(t, i, j, p) && CdGoesFirst(items, i, p);
    }
  }

  /** A denial of a whole line discards only the peeled `cd`s and one search, if and only if
      the prefixes show all they run and the remainder has no further line, no process
      substitution and nothing hidden from the hook's automaton. */
  lemma DenialDiscardsOnlyTheSearchIff(command: string, env: Env)
    requires EvaluateSegment(command, env).Some?
    ensures var t := TrimStart(Trim(command));
            var (items, rest) := Peel(t);
            |Texts(items)| <= |t| &&
            (OnlyTheSearch(t, items) <==> PrefixShown(t, items) && !FurtherLine(rest) && !ProcessSubstitution(rest)
                                          && !HiddenFromScanner(rest))
  {
    var t := TrimStart(Trim(command));
    var (items, rest) := Peel(t);
    TrimStartIsSuffix(Trim(command));
    PeelKeepsText(t);
    SearchStartsWithText(rest);
    LineIsOnlyTheSearchIff(t, items, rest);
    UnchainedIsOneCommandIff(rest);
  }

  lemma SearchStartsWithText(rest: string)
    requires SearchTail(rest).Some?
    ensures rest != "" && IsText(rest, 0)
  {
    assert rest[0] in {'g', 'r', 'a'} by {
      if GitGrepTail(rest).Some? { assert rest[0] == "git "[0]; }
    }
  }

  // ------------------------------------------------------- what an item is made of

  predicate Unquoted(s: string) {
    forall m :: 0 <= m < |s| ==> s[m] !in {'\'', '"'}
  }

  /** An item ends with white space or a separator; without quotes an assignment is one
      word; and the separator and the white space of a `cd` are inside it. */
  predicate WellFormed(item: Item) {
    var s := item.text;
    && s != "" && (IsSpace(s[|s| - 1]) || s[|s| - 1] in {'&', ';'})
    && (item.Assignment? ==> Unquoted(s) ==>
          forall k :: 0 <= k < |item.name| + 1 + |item.value| && k < |s| ==> !IsSpace(s[k]))
    && (item.ChangeDir? ==> |s| > 2 && IsSpace(s[2]) && item.at < |s|)
  }

  /** `text` is `s` up to where trimming what is behind `a` ends. */
  lemma TakenEnds(s: string, a: nat)
    requires 0 < a <= |s|
    ensures var after := TrimStart(s[a..]);
            var text := Taken(s, after);
            a <= |text| <= |s| && text == s[..|text|]
            && (|text| == a || IsSpace(text[|text| - 1]))
  {
    TrimStartIsSuffix(s[a..]);
    var text := Taken(s, TrimStart(s[a..]));
    if |text| > a { assert text[|text| - 1] == s[a..][|text| - 1 - a]; }
  }

  lemma WrapperIsWellFormed(s: string)
    requires WrapperWidth(s) > 0
    ensures Head(s).Some? && WellFormed(Head(s).value.0)
  {
    TakenEnds(s, WrapperWidth(s));
  }

  lemma {:induction false} UnquotedValue(s: string, i: nat, k: nat)
    requires i <= k < |s| && ValueEnd(s, i, false, false).Some? && k < ValueEnd(s, i, false, false).value
    requires forall m :: i <= m <= k ==> s[m] !in {'\'', '"'}
    ensures !IsSpace(s[k])
    decreases k - i
  {
    if i < k { UnquotedValue(s, i + 1, k); }
  }

  lemma AssignmentIsOneWord(s: string, k: nat)
    requires LeadingAssignment(s).Some?
    requires var (name, value, after) := LeadingAssignment(s).value;
             k < |name| + 1 + |value| && forall m :: 0 <= m < |name| + 1 + |value| ==> s[m] !in {'\'', '"'}
    ensures !IsSpace(s[k])
  {
    var eq := NameEnd(s, 1).value;
    if k > eq {
      UnquotedValue(s, eq + 1, k);
    } else if k < eq {
      assert IsNameChar(s[k]);
    }
  }

  lemma AssignmentIsWellFormed(s: string)
    requires LeadingAssignment(s).Some?
    ensures Head(s).Some? && WellFormed(Head(s).value.0)
  {
    CommandPrefixes.AssignmentLeads(s);
    var (name, value, after) := LeadingAssignment(s).value;
    var a := |name| + 1 + |value|;
    assert s[a..] == after;
    AfterSpace(s, a);
    var text := Taken(s, TrimStart(after));
    if Unquoted(text) {
      forall k | 0 <= k < a ensures !IsSpace(text[k]) {
        assert forall m :: 0 <= m < a ==> s[m] == text[m];
        AssignmentIsOneWord(s, k);
      }
    }
  }

  lemma AfterSpace(s: string, a: nat)
    requires 0 < a < |s| && IsSpace(s[a])
    ensures var text := Taken(s, TrimStart(s[a..]));
            a < |text| <= |s| && text == s[..|text|] && IsSpace(text[|text| - 1])
  {
    TakenEnds(s, a);
    assert s[a..][0] == s[a] && s[a..][1..] == s[a + 1..];
  }

  lemma {:induction false} CdSeparatorIs(s: string, i: nat, q: Mode)
    requires i <= |s| && CdSeparator(s, i, q).Found?
    ensures var f := CdSeparator(s, i, q);
            s[f.at] in {'&', ';'} && f.width <= 2 && s[f.at + f.width - 1] == s[f.at]
    decreases |s| - i
  {
    if q == Single {
      CdSeparatorIs(s, i + 1, if s[i] == '\'' then Bare else Single);
    } else if q == Double {
      CdSeparatorIs(s, i + 1, if s[i] == '"' then Bare else Double);
    } else if s[i] == '\'' {
      CdSeparatorIs(s, i + 1, Single);
    } else if s[i] == '"' {
      CdSeparatorIs(s, i + 1, Double);
    } else if s[i] !in {'|', ';', '&'} {
      CdSeparatorIs(s, i + 1, Bare);
    }
  }

  lemma CdIsWellFormed(s: string)
    requires LeadingCd(s).Some?
    ensures Head(s).Some? && WellFormed(Head(s).value.0)
  {
    CdExcludes(s);
    var f := CdSeparator(s, 0, Bare);
    CdSeparatorIs(s, 0, Bare);
    TakenEnds(s, f.at + f.width);
    assert s[0] == 'c' && s[1] == 'd' && IsSpace(s[2]);
  }

  lemma {:induction false} PeeledIsWellFormed(s: string)
    ensures forall m :: 0 <= m < |Peel(s).0| ==> WellFormed(Peel(s).0[m])
    decreases |s|
  {
    if Head(s).Some? {
      var (item, after) := Head(s).value;
      PeeledIsWellFormed(after);
      if WrapperWidth(s) > 0 {
        WrapperIsWellFormed(s);
      } else if LeadingAssignment(s).Some? {
        AssignmentIsWellFormed(s);
      } else {
        CdIsWellFormed(s);
      }
    }
  }

  // --------------------------------------------------- prefixes that are plain

  predicate AllWellFormed(items: seq<Item>) {
    forall m :: 0 <= m < |items| ==> WellFormed(items[m])
  }

  /** No quoting, substitution, comment, grouping or redirection, no white space but blanks,
      and no separator but those of the peeled `cd`s. */
  predicate PlainPrefix(items: seq<Item>) {
    var text := Texts(items);
    forall k :: 0 <= k < |text| ==>
      && text[k] !in {'\'', '"', '\\', '$', '`', '#', '(', ')', '<', '>'}
      && (IsSpace(text[k]) ==> text[k] in {' ', '\t'})
      && (text[k] in {'&', '|', ';'} ==> Recorded(items, k))
  }

  lemma {:induction false} PlainLex(items: seq<Item>, rest: string, i: nat)
    requires PlainPrefix(items) && i <= |Texts(items)|
    ensures var t := Texts(items) + rest;
            LexAt(t, i) == if i == 0 || t[i - 1] in {' ', '\t', '&', '|', ';'} then FRESH else Lex([], INSIDE)
    decreases i
  {
    if i > 0 {
      PlainLex(items, rest, i - 1);
      assert (Texts(items) + rest)[i - 1] == Texts(items)[i - 1] && IsSpace('\n');
    }
  }

  lemma {:induction false} StartsBehindBreak(items: seq<Item>, q: nat)
    requires AllWellFormed(items) && PartStarts(items, q) && 0 < q
    ensures q <= |Texts(items)| && (IsSpace(Texts(items)[q - 1]) || Texts(items)[q - 1] in {'&', ';'})
    decreases |items|
  {
    var n := |items[0].text|;
    assert WellFormed(items[0]);
    if q > n {
      StartsBehindBreak(items[1..], q - n);
      assert Texts(items)[q - 1] == Texts(items[1..])[q - 1 - n];
    }
  }

  lemma {:induction false} NoSpaceInAssignment(items: seq<Item>, i: nat)
    requires AllWellFormed(items) && InAssignment(items, i) && Unquoted(Texts(items))
    ensures i < |Texts(items)| && !IsSpace(Texts(items)[i])
    decreases |items|
  {
    var n := |items[0].text|;
    var more := Texts(items[1..]);
    assert WellFormed(items[0]);
    assert Texts(items) == items[0].text + more;
    if i >= n {
      assert forall m :: 0 <= m < |more| ==> more[m] == Texts(items)[n + m];
      NoSpaceInAssignment(items[1..], i - n);
    } else {
      assert forall m :: 0 <= m < n ==> items[0].text[m] == Texts(items)[m];
    }
  }

  lemma {:induction false} SpaceBehindCd(items: seq<Item>, i: nat)
    requires AllWellFormed(items) && BehindCd(items, i)
    ensures i < |Texts(items)| && IsSpace(Texts(items)[i])
    decreases |items|
  {
    var n := |items[0].text|;
    assert WellFormed(items[0]);
    assert Texts(items) == items[0].text + Texts(items[1..]);
    if i >= n { SpaceBehindCd(items[1..], i - n); }
  }

  lemma {:induction false} RecordedIsBehind(items: seq<Item>, i: nat, j: nat)
    requires AllWellFormed(items) && i < j && Recorded(items, j)
    ensures SeparatorAfter(items, i).Some? && SeparatorAfter(items, i).value <= j
    decreases |items|
  {
    var n := |items[0].text|;
    assert WellFormed(items[0]);
    if j >= n {
      if i >= n {
        RecordedIsBehind(items[1..], i - n, j - n);
      } else if !items[0].ChangeDir? {
        FirstSeparator(items[1..], j - n);
      }
    }
  }

  lemma {:induction false} FirstSeparator(items: seq<Item>, j: nat)
    requires AllWellFormed(items) && Recorded(items, j)
    ensures SeparatorAfter(items, 0).Some? && SeparatorAfter(items, 0).value <= j
    decreases |items|
  {
    var n := |items[0].text|;
    assert WellFormed(items[0]);
    if j >= n && !items[0].ChangeDir? { FirstSeparator(items[1..], j - n); }
  }

  /** Plain prefixes show all they run, so denials behind them are decided by the remainder. */
  lemma PlainPrefixIsShown(s: string)
    requires Trimmed(s) && PlainPrefix(Peel(s).0)
    ensures s == Texts(Peel(s).0) + Peel(s).1 && PrefixShown(s, Peel(s).0)
  {
    PeelKeepsText(s);
    PeeledIsWellFormed(s);
    PlainIsReadAlike(Peel(s).0, Peel(s).1);
    PlainRunsCds(Peel(s).0, Peel(s).1);
  }

  lemma PlainRunsCds(items: seq<Item>, rest: string)
    requires AllWellFormed(items) && PlainPrefix(items)
    ensures var t := Texts(items) + rest;
            SpawnsNothing(t, |Texts(items)|) && OnlyCdsFirst(t, items, |Texts(items)|)
  {
    var t, p := Texts(items) + rest, |Texts(items)|;
    forall i | 0 <= i < p ensures !Spawns(t, i) && (EndsCommand(t, i) ==> Recorded(items, i)) {
      PlainLex(items, rest, i);
      assert t[i] == Texts(items)[i] && IsSpace('\n');
    }
    forall i, j, k | 0 <= i < j < k <= p && Parts(t, i, j, k) ensures CdGoesFirst(items, i, k) {
      RecordedIsBehind(items, i, j);
    }
  }

  lemma PlainIsReadAlike(items: seq<Item>, rest: string)
    requires AllWellFormed(items) && PlainPrefix(items)
    ensures SameReading(Texts(items) + rest, items)
  {
    var t := Texts(items) + rest;
    forall q | 0 <= q <= |t| && PartStarts(items, q) ensures LexAt(t, q) == FRESH {
      if q > 0 {
        StartsBehindBreak(items, q);
        PlainLex(items, rest, q);
        assert t[q - 1] == Texts(items)[q - 1];
      }
    }
    forall i | 0 <= i < |t| && InAssignment(items, i) ensures !BreaksWord(t, i) {
      NoSpaceInAssignment(items, i);
      assert t[i] == Texts(items)[i];
    }
    forall i | 0 <= i < |t| && BehindCd(items, i) ensures BreaksWord(t, i) {
      SpaceBehindCd(items, i);
      PlainLex(items, rest, i);
      assert t[i] == Texts(items)[i];
    }
  }

  // ------------------------------------------------------ commands that split

  /** The splitter sees every command end the shell sees, and nothing is run inside. */
  predicate SplitSeesAll(command: string) {
    SpawnsNothing(command, |command|)
    && forall j :: 0 <= j < |command| && EndsCommand(command, j) ==> Separates(command, j)
  }

  /** A command end or the start of a process that the splitter takes for quoted. */
  predicate HiddenFromSplit(command: string) {
    exists i :: 0 <= i < |command| && (EndsCommand(command, i) || OpensProcess(command, i))
                && ModeAt(command, i) != Bare
  }

  /** When a command splits, a denial of its segments discards only what they show, if and
      only if nothing the shell reads as an end or a process is quoted to the splitter. */
  lemma SplitSeesAllIff(command: string)
    requires Split(command).Some?
    ensures SplitSeesAll(command) <==> !HiddenFromSplit(command)
  {
    forall i | 0 <= i < |command|
      ensures !StartsSubstitution(command, i)
      ensures OpensProcess(command, i) ==> ModeAt(command, i) != Bare
      ensures EndsCommand(command, i) ==> (Separates(command, i) <==> ModeAt(command, i) == Bare)
    {
      SplitHasNoSubstitution(command, i);
      if OpensProcess(command, i) { NotRefusedFrom(command, 0, 0, i); }
      assert command[i] in command;
    }
    if HiddenFromSplit(command) {
      var i :| 0 <= i < |command| && (EndsCommand(command, i) || OpensProcess(command, i))
               && ModeAt(command, i) != Bare;
      assert Spawns(command, i) || !Separates(command, i);
    }
  }

  lemma SplitHasNoSubstitution(s: string, i: nat)
    requires !Unmodelled(s) && i < |s|
    ensures !StartsSubstitution(s, i)
  {
    assert s[i] in s;
    if LexAt(s, i).at.Text? && LexAt(s, i).at.before == Dollar {
      DollarOnOneLine(s, i);
      assert !(s[i - 1] == '$' && CharAt(s, i, '('));
    }
  }

  lemma DollarOnOneLine(s: string, i: nat)
    requires '\n' !in s && i <= |s| && LexAt(s, i).at.Text? && LexAt(s, i).at.before == Dollar
    ensures i > 0 && s[i - 1] == '$'
  {
    assert i > 0;
    assert s[i - 1] in s;
  }

  lemma {:induction false} NotRefusedFrom(s: string, start: nat, i: nat, k: nat)
    requires start <= i <= k < |s| && CutFrom(s, start, i).Some? && s[k] == '('
    ensures ModeAt(s, k) != Bare
    decreases |s| - i
  {
    if i < k {
      if Separates(s, i) {
        var n := i + SepWidth(s, i);
        if n <= k { NotRefusedFrom(s, n, n, k); }
      } else {
        NotRefusedFrom(s, start, i + 1, k);
      }
    }
  }

  /** A line whose quoting both automata read alike hides nothing in either way. */
  lemma AgreementShowsAll(command: string)
    requires forall k :: 0 <= k < |command| ==> !Diverges(command, k)
    ensures !HiddenFromScanner(command)
    ensures Split(command).Some? ==> SplitSeesAll(command)
  {
    AgreementHidesNothing(command);
    if Split(command).Some? {
      forall i | 0 <= i < |command| && (EndsCommand(command, i) || OpensProcess(command, i))
        ensures ModeAt(command, i) == Bare
      {
        AutomataAgree(command, i);
        if OpensProcess(command, i) { AngleIsUnquoted(command, i); }
      }
      SplitSeesAllIff(command);
    }
  }

  lemma {:induction false} AngleIsUnquoted(s: string, i: nat)
    requires i <= |s| && (LexAt(s, i).at.Text? || LexAt(s, i).at.Escape?) && LexAt(s, i).at.before in {Angle, Angles}
    ensures Quotes !in LexAt(s, i).nests
    decreases i
  {
    if i > 0 && (LexAt(s, i - 1).at.Text? || LexAt(s, i - 1).at.Escape?)
       && LexAt(s, i - 1).at.before in {Angle, Angles} {
      AngleIsUnquoted(s, i - 1);
    }
  }
}

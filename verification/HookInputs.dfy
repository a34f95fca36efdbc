/** Lines whose denial discards more than the search, one for every way to (src/hooks.rs). */
module HookInputs {
  import opened Common
  import opened ShellScan
  import opened ShellTokens
  import opened CommandPrefixes
  import opened HookPolicy
  import opened ShellLexer
  import opened HookScope

  /** A word of lower-case letters: what is searched for, or the work that is hidden. */
  predicate Plain(w: string) {
    w != "" && forall k :: 0 <= k < |w| ==> 'a' <= w[k] <= 'z'
  }

  /** The shell runs more for `command` than the search it is judged as. */
  predicate RunsMore(command: string) {
    var t := TrimStart(Trim(command));
    !OnlyTheSearch(t, Peel(t).0)
  }

  /** `line` is judged as the search for `tokens`, and runs more. */
  predicate Hides(line: string, tokens: seq<string>, cd: Option<string>, env: Env) {
    EvaluateSegment(line, env) == env.judge(false, tokens, cd) && RunsMore(line)
  }

  // ----------------------------------------------------------- lines read slowly

  /** The hook's quoting stays the same over a stretch. */
  lemma {:induction false} StaysBare(s: string, a: nat, b: nat)
    requires a <= b <= |s| && ModeAt(s, a) == Bare && forall k :: a <= k < b ==> s[k] !in {'\'', '"', '\\'}
    ensures forall i :: a <= i <= b ==> ModeAt(s, i) == Bare
    decreases b - a
  {
    if a < b { StaysBare(s, a + 1, b); }
  }

  lemma {:induction false} StaysSingle(s: string, a: nat, b: nat)
    requires a <= b <= |s| && ModeAt(s, a) == Single && forall k :: a <= k < b ==> s[k] != '\''
    ensures forall i :: a <= i <= b ==> ModeAt(s, i) == Single
    decreases b - a
  {
    if a < b { StaysSingle(s, a + 1, b); }
  }

  lemma {:induction false} StaysDouble(s: string, a: nat, b: nat)
    requires a <= b <= |s| && ModeAt(s, a) == Double && forall k :: a <= k < b ==> s[k] !in {'"', '\\'}
    ensures forall i :: a <= i <= b ==> ModeAt(s, i) == Double
    decreases b - a
  {
    if a < b { StaysDouble(s, a + 1, b); }
  }

  /** A stretch of ordinary characters and blanks, read by the shell. */
  predicate Ordinary(c: char) {
    'a' <= c <= 'z' || 'A' <= c <= 'Z' || c in {' ', '\n', '=', '1'}
  }

  lemma {:induction false} ReadsOrdinary(s: string, a: nat, b: nat)
    requires a <= b <= |s| && LexAt(s, a).nests == [] && LexAt(s, a).at.Text?
    requires forall k :: a <= k < b ==> Ordinary(s[k])
    ensures a < b ==> LexAt(s, b) == if IsBlank(s[b - 1]) then FRESH else Lex([], INSIDE)
    decreases b
  {
    if a + 1 < b { ReadsOrdinary(s, a, b - 1); }
  }

  lemma {:induction false} ReadsComment(s: string, a: nat, b: nat)
    requires a <= b <= |s| && LexAt(s, a) == Lex([], Comment) && forall k :: a <= k < b ==> s[k] != '\n'
    ensures LexAt(s, b) == Lex([], Comment)
    decreases b
  {
    if a < b { ReadsComment(s, a, b - 1); }
  }

  /** A line that starts with `rg` has no prefixes, and one more command means more is run. */
  lemma SearchLine(line: string, env: Env)
    requires "rg " <= line && Trim(line) == line && !Chained(line)
    ensures EvaluateSegment(line, env) == env.judge(false, ShellSplit(line[3..]), None)
    ensures TrimStart(line) == line && Peel(line).0 == []
  {
    RgIsNotPeeled(line);
  }

  lemma RgIsNotPeeled(s: string)
    requires "rg " <= s
    ensures Head(s) == None && Strip(s) == Stripped(s, false, None) && SearchTail(s) == Some((false, s[3..]))
    ensures TrimStart(s) == s && Peel(s) == ([], s)
  {
    assert s[0] == 'r' && s[1] == 'g' && s[2] == ' ';
    NoEqualsBefore(s, 1, 2);
    assert WrapperWidth(s) == 0 && LeadingAssignment(s) == None && LeadingCd(s) == None;
    FixedWhenNothingLeads(s);
    assert "git "[0] == 'g' && "grep "[0] == 'g';
  }

  lemma AnotherCommand(line: string, i: nat, j: nat, k: nat)
    requires TrimStart(line) == line && Trim(line) == line && Parts(line, i, j, k)
    requires !CdGoesFirst(Peel(line).0, i, k)
    ensures RunsMore(line)
  {
  }

  lemma SomethingInside(line: string, i: nat)
    requires TrimStart(line) == line && Trim(line) == line && i < |line| && Spawns(line, i)
    ensures RunsMore(line)
  {
  }

  lemma AlreadyTrimmed(s: string)
    requires s != "" && !IsSpace(s[0]) && !IsSpace(s[|s| - 1])
    ensures Trim(s) == s && TrimStart(s) == s
  {
  }

  // ------------------------------------------------------------------- tokens

  predicate Wordlike(w: string) {
    forall k :: 0 <= k < |w| ==> !IsSpace(w[k]) && w[k] !in STOPS && w[k] !in {'\'', '"', '\\'}
  }

  lemma {:induction false} SplitPlain(w: string, rest: string, cur: string)
    requires Wordlike(w)
    ensures SplitFrom(w + rest, Bare, cur) == SplitFrom(rest, Bare, cur + w)
    decreases |w|
  {
    if w == "" {
      assert w + rest == rest && cur + w == cur;
    } else {
      assert (w + rest)[1..] == w[1..] + rest;
      SplitPlain(w[1..], rest, cur + [w[0]]);
      assert cur + [w[0]] + w[1..] == cur + w;
    }
  }

  lemma {:induction false} SplitQuoted(w: string, rest: string, cur: string)
    requires '\'' !in w
    ensures SplitFrom(w + ("'" + rest), Single, cur) == SplitFrom(rest, Bare, cur + w)
    ensures SplitFrom(w, Single, cur) == Flush(cur + w)
    decreases |w|
  {
    if w == "" {
      assert w + ("'" + rest) == "'" + rest && ("'" + rest)[1..] == rest && cur + w == cur;
    } else {
      assert (w + ("'" + rest))[1..] == w[1..] + ("'" + rest);
      SplitQuoted(w[1..], rest, cur + [w[0]]);
      assert cur + [w[0]] + w[1..] == cur + w;
    }
  }

  /** A word and a blank, then the rest. */
  lemma SplitWord(w: string, c: char, rest: string)
    requires Wordlike(w) && w != "" && IsSpace(c)
    ensures SplitFrom(w + ([c] + rest), Bare, "") == [w] + SplitFrom(rest, Bare, "")
  {
    SplitPlain(w, [c] + rest, "");
    assert "" + w == w && ([c] + rest)[1..] == rest;
    assert c !in STOPS && c !in {'\'', '"', '\\'};
  }

  lemma SplitLast(w: string)
    requires Wordlike(w) && w != ""
    ensures SplitFrom(w, Bare, "") == [w]
  {
    SplitPlain(w, "", "");
    assert w + "" == w && "" + w == w;
  }

  /** A word that runs into a quote nobody closes. */
  lemma SplitOpen(w: string, q: string)
    requires Wordlike(w) && '\'' !in q && w + q != ""
    ensures SplitFrom(w + ("'" + q), Bare, "") == [w + q]
  {
    SplitPlain(w, "'" + q, "");
    assert "" + w == w && ("'" + q)[1..] == q;
    SplitQuoted(q, "", w);
  }

  // ------------------------------------------------------------ the remainder

  lemma HidesCommand(line: string, tokens: seq<string>, i: nat, j: nat, k: nat, env: Env)
    requires "rg " <= line && !IsSpace(line[|line| - 1]) && !Chained(line)
    requires ShellSplit(line[3..]) == tokens && Parts(line, i, j, k)
    ensures Hides(line, tokens, None, env)
  {
    AlreadyTrimmed(line);
    SearchLine(line, env);
    AnotherCommand(line, i, j, k);
  }

  /** A stretch of `line` from `at` on is `w`. */
  predicate Holds(line: string, at: nat, w: string) {
    at + |w| <= |line| && forall k :: at <= k < at + |w| ==> line[k] == w[k - at]
  }

  predicate NewlineLine(line: string, what: string, work: string) {
    && Plain(what) && Plain(work) && |line| == 4 + |what| + |work|
    && line[0] == 'r' && line[1] == 'g' && line[2] == ' ' && line[3 + |what|] == '\n'
    && Holds(line, 3, what) && Holds(line, 4 + |what|, work)
  }

  /** A newline ends a command, but the check for chained commands does not look at it. */
  lemma NewlineHidesWork(what: string, work: string, env: Env)
    requires Plain(what) && Plain(work)
    ensures Hides("rg " + (what + ("\n" + work)), [what, work], None, env)
  {
    var line := "rg " + (what + ("\n" + work));
    assert NewlineLine(line, what, work);
    NewlineIsRead(line, what, work);
    NewlineTokens(what, work);
    assert line[3..] == what + (['\n'] + work);
    HidesCommand(line, [what, work], 0, 3 + |what|, 4 + |what|, env);
  }

  lemma NewlineTokens(what: string, work: string)
    requires Plain(what) && Plain(work)
    ensures ShellSplit(what + (['\n'] + work)) == [what, work]
  {
    SplitWord(what, '\n', work);
    SplitLast(work);
  }

  lemma NewlineIsRead(line: string, what: string, work: string)
    requires NewlineLine(line, what, work)
    ensures !Chained(line) && Parts(line, 0, 3 + |what|, 4 + |what|) && !IsSpace(line[|line| - 1])
  {
    var n := 3 + |what|;
    StaysBare(line, 0, |line|);
    ReadsOrdinary(line, 0, n);
    ReadsOrdinary(line, 0, n + 1);
  }

  predicate ProcessLine(line: string, what: string, work: string) {
    && Plain(what) && Plain(work) && |line| == 7 + |what| + |work|
    && line[0] == 'r' && line[1] == 'g' && line[2] == ' ' && line[3 + |what|] == ' ' && line[4 + |what|] == '<'
    && line[5 + |what|] == '(' && line[|line| - 1] == ')'
    && Holds(line, 3, what) && Holds(line, 6 + |what|, work)
  }

  /** Nor does it look at `<`. */
  lemma ProcessHidesWork(what: string, work: string, env: Env)
    requires Plain(what) && Plain(work)
    ensures Hides("rg " + (what + (" <(" + (work + ")"))), [what], None, env)
  {
    var line := "rg " + (what + (" <(" + (work + ")")));
    assert ProcessLine(line, what, work);
    ProcessIsRead(line, what, work);
    ProcessTokens(what, "(" + (work + ")"));
    assert line[3..] == what + ([' '] + (['<'] + ("(" + (work + ")"))));
    AlreadyTrimmed(line);
    SearchLine(line, env);
    SomethingInside(line, 5 + |what|);
  }

  lemma ProcessTokens(what: string, behind: string)
    requires Plain(what)
    ensures ShellSplit(what + ([' '] + (['<'] + behind))) == [what]
  {
    SplitWord(what, ' ', ['<'] + behind);
    assert SplitFrom(['<'] + behind, Bare, "") == [];
  }

  lemma ProcessIsRead(line: string, what: string, work: string)
    requires ProcessLine(line, what, work)
    ensures !Chained(line) && Spawns(line, 5 + |what|)
  {
    var n := 3 + |what|;
    StaysBare(line, 0, |line|);
    ReadsOrdinary(line, 0, n + 1);
    assert LexAt(line, n + 2) == Lex([], Text(true, Angle));
  }

  predicate CommentLine(line: string, n: nat) {
    && 3 < n < |line| - 9
    && line[0] == 'r' && line[1] == 'g' && line[2] == ' ' && line[n] == ' ' && line[n + 1] == '#' && line[n + 2] == ' '
    && line[n + 3] == 'd' && line[n + 4] == 'o' && line[n + 5] == 'n' && line[n + 6] == '\'' && line[n + 7] == 't'
    && line[n + 8] == '\n'
    && (forall k :: 3 <= k < n ==> 'a' <= line[k] <= 'z')
    && (forall k :: n + 9 <= k < |line| ==> 'a' <= line[k] <= 'z')
  }

  /** A quote in a comment hides the newline behind it. */
  lemma CommentHidesWork(what: string, work: string, env: Env)
    requires Plain(what) && Plain(work)
    ensures Hides("rg " + (what + (" # don't\n" + work)), [what, "#", "don" + ("t\n" + work)], None, env)
  {
    var line := "rg " + (what + (" # don't\n" + work));
    var n := 3 + |what|;
    assert CommentLine(line, n);
    CommentIsRead(line, n);
    CommentTokens(what, work);
    assert line[3..] == what + (" # don't\n" + work);
    HidesCommand(line, [what, "#", "don" + ("t\n" + work)], 0, n + 8, n + 9, env);
  }

  lemma CommentIsRead(line: string, n: nat)
    requires CommentLine(line, n)
    ensures !Chained(line) && Parts(line, 0, n + 8, n + 9) && !IsSpace(line[|line| - 1])
  {
    StaysBare(line, 0, n + 6);
    StaysSingle(line, n + 7, |line|);
    ReadsOrdinary(line, 0, n + 1);
    ReadsComment(line, n + 2, n + 8);
  }

  lemma CommentTokens(what: string, work: string)
    requires Plain(what) && Plain(work)
    ensures ShellSplit(what + (" # don't\n" + work)) == [what, "#", "don" + ("t\n" + work)]
  {
    var q := "t\n" + work;
    var tail := "don" + ("'" + q);
    var behind := "#" + ([' '] + tail);
    assert what + (" # don't\n" + work) == what + ([' '] + behind);
    TwoWordsAndAQuote(what, "#", "don", q);
  }

  lemma TwoWordsAndAQuote(a: string, b: string, c: string, q: string)
    requires Wordlike(a) && Wordlike(b) && Wordlike(c) && a != "" && b != "" && c != "" && '\'' !in q
    ensures ShellSplit(a + ([' '] + (b + ([' '] + (c + ("'" + q)))))) == [a, b, c + q]
  {
    SplitWord(a, ' ', b + ([' '] + (c + ("'" + q))));
    SplitWord(b, ' ', c + ("'" + q));
    SplitOpen(c, q);
  }

  /** An escaped quote in `$'...'` hides the separator behind it. */
  lemma AnsiQuoteHidesWork(what: string, work: string, env: Env)
    requires Plain(what) && Plain(work)
    ensures Hides("rg $'\\' " + (what + ("';" + work)), ["$\\", what + (";" + work)], None, env)
  {
    var line := "rg $'\\' " + (what + ("';" + work));
    AnsiShape(what, work, line);
    AnsiIsUnchained(line, 8 + |what|);
    AnsiTokens(what, work);
    AnsiIsRead(line, 8 + |what|);
    HidesCommand(line, ["$\\", what + (";" + work)], 0, 9 + |what|, 10 + |what|, env);
  }

  lemma AnsiShape(what: string, work: string, line: string)
    requires Plain(what) && Plain(work) && line == "rg $'\\' " + (what + ("';" + work))
    ensures AnsiLine(line, 8 + |what|) && line[3..] == AnsiTail(what + ("'" + (";" + work)))
  {
  }

  function AnsiTail(last: string): string {
    "$" + ("'" + ("\\" + ("'" + (" " + last))))
  }

  predicate AnsiLine(line: string, n: nat) {
    && 8 <= n < |line| - 2
    && line[0] == 'r' && line[1] == 'g' && line[2] == ' ' && line[3] == '$' && line[4] == '\'' && line[5] == '\\'
    && line[6] == '\'' && line[7] == ' ' && line[n] == '\'' && line[n + 1] == ';'
    && (forall k :: 8 <= k < n ==> 'a' <= line[k] <= 'z')
    && (forall k :: n + 2 <= k < |line| ==> 'a' <= line[k] <= 'z')
  }

  lemma AnsiIsUnchained(line: string, n: nat)
    requires AnsiLine(line, n)
    ensures !Chained(line)
  {
    StaysBare(line, 0, 4);
    StaysSingle(line, 5, 6);
    StaysBare(line, 7, n);
    StaysSingle(line, n + 1, |line|);
  }

  lemma AnsiIsRead(line: string, n: nat)
    requires AnsiLine(line, n)
    ensures Parts(line, 0, n + 1, n + 2)
  {
    ReadsOrdinary(line, 0, 3);
    assert LexAt(line, 4) == Lex([], Text(false, Dollar)) && LexAt(line, 5) == Lex([], Ansi);
    assert LexAt(line, 6) == Lex([], AnsiEscape) && LexAt(line, 7) == Lex([], Ansi);
    ReadsAnsi(line, 7, n);
    assert LexAt(line, n + 1) == Lex([], INSIDE) && LexAt(line, n + 2) == FRESH;
  }

  lemma {:induction false} ReadsAnsi(s: string, a: nat, b: nat)
    requires a <= b <= |s| && LexAt(s, a) == Lex([], Ansi) && forall k :: a <= k < b ==> s[k] !in {'\'', '\\'}
    ensures LexAt(s, b) == Lex([], Ansi)
    decreases b
  {
    if a < b { ReadsAnsi(s, a, b - 1); }
  }

  lemma AnsiTokens(what: string, work: string)
    requires Plain(what) && Plain(work)
    ensures ShellSplit(AnsiTail(what + ("'" + (";" + work)))) == ["$\\", what + (";" + work)]
  {
    AnsiFirst(what + ("'" + (";" + work)));
    SplitOpen(what, ";" + work);
  }

  lemma AnsiFirst(last: string)
    ensures ShellSplit(AnsiTail(last)) == ["$\\"] + SplitFrom(last, Bare, "")
  {
    var quoted := "\\" + ("'" + (" " + last));
    SplitPlain("$", "'" + quoted, "");
    assert "" + "$" == "$" && ("'" + quoted)[1..] == quoted;
    SplitQuoted("\\", " " + last, "$");
    assert "$" + "\\" == "$\\" && (" " + last)[1..] == last;
  }

  /** Quotes inside `${...}` inside double quotes hide the newline behind them. */
  lemma BraceHidesWork(work: string, env: Env)
    requires Plain(work)
    ensures var line := "rg \"${x-\"'\"}\"\n" + (work + " #'"); Hides(line, ShellSplit(line[3..]), None, env)
  {
    var line := "rg \"${x-\"'\"}\"\n" + (work + " #'");
    assert BraceLine(line) && line[14] == work[0];
    BraceIsUnchained(line);
    BraceIsRead(line);
    HidesCommand(line, ShellSplit(line[3..]), 0, 13, 14, env);
  }

  predicate BraceLine(line: string) {
    && |line| > 17
    && line[0] == 'r' && line[1] == 'g' && line[2] == ' ' && line[3] == '"' && line[4] == '$' && line[5] == '{'
    && line[6] == 'x' && line[7] == '-' && line[8] == '"' && line[9] == '\'' && line[10] == '"' && line[11] == '}'
    && line[12] == '"' && line[13] == '\n' && line[|line| - 1] == '\''
    && forall k :: 14 <= k < |line| - 1 ==> Ordinary(line[k]) || line[k] == '#'
  }

  lemma BraceIsUnchained(line: string)
    requires BraceLine(line)
    ensures !Chained(line)
  {
    StaysBare(line, 0, 3);
    StaysDouble(line, 4, 8);
    assert ModeAt(line, 9) == StepMode(ModeAt(line, 8), line[8]) == Bare;
    assert ModeAt(line, 10) == StepMode(ModeAt(line, 9), line[9]) == Single;
    StaysSingle(line, 10, |line| - 1);
  }

  lemma BraceIsRead(line: string)
    requires BraceLine(line) && 'a' <= line[14] <= 'z'
    ensures Parts(line, 0, 13, 14)
  {
    var q, g := [Quotes], [Quotes, Group('}')];
    ReadsOrdinary(line, 0, 3);
    assert LexAt(line, 4) == Lex(q, INSIDE) && LexAt(line, 5) == Lex(q, Text(false, Dollar));
    assert q + [Group('}')] == g && LexAt(line, 6) == Lex(g, INSIDE);
    BraceIsLeft(line, q, g);
  }

  lemma BraceIsLeft(line: string, q: seq<Nest>, g: seq<Nest>)
    requires BraceLine(line) && q == [Quotes] && g == [Quotes, Group('}')] && LexAt(line, 6) == Lex(g, INSIDE)
    ensures LexAt(line, 13) == Lex([], INSIDE) && LexAt(line, 14) == FRESH
  {
    assert LexAt(line, 7) == Lex(g, INSIDE) && LexAt(line, 8) == Lex(g, INSIDE);
    assert LexAt(line, 9) == Lex(g + [Quotes], INSIDE) && LexAt(line, 10) == Lex(g + [Quotes], INSIDE);
    BraceIsClosed(line, q, g);
  }

  lemma BraceIsClosed(line: string, q: seq<Nest>, g: seq<Nest>)
    requires BraceLine(line) && q == [Quotes] && g == [Quotes, Group('}')]
    requires LexAt(line, 10) == Lex(g + [Quotes], INSIDE)
    ensures LexAt(line, 13) == Lex([], INSIDE) && LexAt(line, 14) == FRESH
  {
    assert (g + [Quotes])[..2] == g && LexAt(line, 11) == Lex(g, INSIDE);
    assert g[..1] == q && LexAt(line, 12) == Lex(q, INSIDE);
    assert q[..0] == [] && LexAt(line, 13) == Lex([], INSIDE);
  }

  // -------------------------------------------------------------- the prefixes

  lemma {:induction false} PlainValue(s: string, i: nat, n: nat)
    requires i <= n < |s| && IsSpace(s[n])
    requires forall k :: i <= k < n ==> s[k] !in {'\'', '"'} && !IsSpace(s[k])
    ensures ValueEnd(s, i, false, false) == Some(n)
    decreases n - i
  {
    if i < n { PlainValue(s, i + 1, n); }
  }

  /** `X=` and a value without quotes in front of a search. */
  predicate ValueLine(line: string, n: nat, what: string) {
    && 2 <= n < |line| && line[0] == 'X' && line[1] == '=' && line[n] == ' ' && line[n + 1..] == "rg " + what
    && (forall k :: 2 <= k < n ==> line[k] !in {'\'', '"'} && !IsSpace(line[k])) && Plain(what)
  }

  lemma ValueIsTaken(line: string, n: nat, what: string)
    requires ValueLine(line, n, what)
    ensures Head(line).Some? && Head(line).value.1 == "rg " + what
    ensures var item := Head(line).value.0; item.Assignment? && item.name == "X" && |item.text| == n + 1
  {
    var rest := "rg " + what;
    assert NameEnd(line, 1) == Some(1);
    PlainValue(line, 2, n);
    CommandPrefixes.AssignmentLeads(line);
    assert line[n..][1..] == rest && rest[0] == 'r' && TrimStart(rest) == rest && TrimStart(line[n..]) == rest;
  }

  lemma OneItemIsPeeled(line: string, item: Item, rest: string)
    requires Head(line) == Some((item, rest)) && Head(rest) == None
    ensures Peel(line) == ([item], rest)
  {
    PeelUnfolds(line);
    assert Peel(rest) == ([], rest) && [item] + [] == [item];
  }

  lemma OnlyTheName(item: Item)
    requires item.Assignment? && item.name == "X"
    ensures !OptsOut([item]) && FirstCd([item]) == None
  {
    assert |item.name| != |DISABLE_HOOK|;
  }

  lemma PlainSearch(what: string)
    requires Plain(what)
    ensures var rest := "rg " + what;
            && !Chained(rest) && SearchTail(rest) == Some((false, what)) && ShellSplit(what) == [what]
            && Head(rest) == None
  {
    var rest := "rg " + what;
    assert rest[3..] == what && forall k :: 3 <= k < |rest| ==> rest[k] == what[k - 3];
    StaysBare(rest, 0, |rest|);
    RgIsNotPeeled(rest);
    SplitLast(what);
  }

  /** What such a line is judged as, and how it is peeled. */
  lemma JudgedAsSearch(line: string, n: nat, what: string, env: Env)
    requires ValueLine(line, n, what)
    ensures Trim(line) == line && TrimStart(line) == line
    ensures EvaluateSegment(line, env) == env.judge(false, [what], None)
    ensures |Peel(line).0| == 1 && !Peel(line).0[0].ChangeDir? && |Peel(line).0[0].text| == n + 1
  {
    assert line[|line| - 1] == line[n + 1..][|what| + 2] == what[|what| - 1];
    AlreadyTrimmed(line);
    ValueIsTaken(line, n, what);
    PlainSearch(what);
    OneItemIsPeeled(line, Head(line).value.0, "rg " + what);
    OnlyTheName(Head(line).value.0);
    JudgedBehind(line, Head(line).value.0, what, env);
  }

  predicate SubstitutionLine(line: string, work: string, what: string) {
    && ValueLine(line, 5 + |work|, what) && line[2] == '$' && line[3] == '('
  }

  /** A substitution in an assignment is not looked at. */
  lemma AssignmentHidesWork(what: string, work: string, env: Env)
    requires Plain(what) && Plain(work)
    ensures Hides("X=$(" + (work + (") rg " + what)), [what], None, env)
  {
    var line := "X=$(" + (work + (") rg " + what));
    assert line[5 + |work| + 1..] == "rg " + what;
    assert SubstitutionLine(line, work, what);
    JudgedAsSearch(line, 5 + |work|, what, env);
    SubstitutionIsRead(line, work, what);
    SomethingInside(line, 3);
  }

  lemma SubstitutionIsRead(line: string, work: string, what: string)
    requires SubstitutionLine(line, work, what)
    ensures Spawns(line, 3)
  {
    ReadsOrdinary(line, 0, 2);
    assert LexAt(line, 3) == Lex([], Text(false, Dollar));
  }

  predicate SeparatorLine(line: string, work: string, what: string) {
    && ValueLine(line, 4 + |work|, what) && line[2] == '1' && line[3] == ';' && |work| > 0 && 'a' <= line[4] <= 'z'
  }

  /** Nor is a separator in its value. */
  lemma ValueHidesWork(what: string, work: string, env: Env)
    requires Plain(what) && Plain(work)
    ensures Hides("X=1;" + (work + (" rg " + what)), [what], None, env)
  {
    var line := "X=1;" + (work + (" rg " + what));
    assert line[4 + |work| + 1..] == "rg " + what;
    assert SeparatorLine(line, work, what);
    JudgedAsSearch(line, 4 + |work|, what, env);
    SeparatorIsRead(line, work, what);
    NoCdAhead(Peel(line).0);
    AnotherCommand(line, 0, 3, 4);
  }

  lemma SeparatorIsRead(line: string, work: string, what: string)
    requires SeparatorLine(line, work, what)
    ensures Parts(line, 0, 3, 4)
  {
    ReadsOrdinary(line, 0, 3);
    assert LexAt(line, 4) == FRESH;
  }

  lemma NoCdAhead(items: seq<Item>)
    requires |items| == 1 && !items[0].ChangeDir? && |items[0].text| > 0
    ensures SeparatorAfter(items, 0) == None
  {
    assert items[1..] == [];
  }

  /** An escaped blank does not end the value for the shell, which runs what is searched. */
  lemma EscapeHidesWork(what: string, env: Env)
    requires Plain(what)
    ensures Hides("X=a\\ rg " + what, [what], None, env)
  {
    var line := "X=a\\ rg " + what;
    assert line[5..] == "rg " + what;
    assert ValueLine(line, 4, what) && line[2] == 'a' && line[3] == '\\';
    JudgedAsSearch(line, 4, what, env);
    EscapeIsRead(line);
    WordGoesOn(line, Peel(line).0);
  }

  lemma EscapeIsRead(line: string)
    requires |line| > 5 && line[0] == 'X' && line[1] == '=' && line[2] == 'a' && line[3] == '\\' && line[4] == ' '
    ensures LexAt(line, 5) == Lex([], INSIDE)
  {
    ReadsOrdinary(line, 0, 3);
  }

  lemma WordGoesOn(line: string, items: seq<Item>)
    requires Trim(line) == line && TrimStart(line) == line && items == Peel(line).0
    requires |items| == 1 && |items[0].text| == 5 <= |line| && LexAt(line, 5) != FRESH
    ensures RunsMore(line)
  {
    assert items[1..] == [] && PartStarts(items, 5);
  }

  predicate CdLine(line: string, work: string, what: string) {
    && Plain(what) && Plain(work) && |line| == 10 + |work| + |what|
    && line[0] == 'c' && line[1] == 'd' && line[2] == ' ' && line[3] == 'x' && line[4] == '\n'
    && Holds(line, 5, work) && line[5 + |work|] == ';' && line[6 + |work|] == ' '
    && line[7 + |work|..] == "rg " + what && line[3..] == ("x\n" + work) + (";" + (" " + ("rg " + what)))
  }

  /** A newline before the separator of a `cd` ends the `cd`. */
  lemma CdHidesWork(what: string, work: string, env: Env)
    requires Plain(what) && Plain(work)
    ensures Hides("cd x\n" + (work + ("; rg " + what)), [what], Some("x\n" + work), env)
  {
    var line := "cd x\n" + (work + ("; rg " + what));
    assert line[7 + |work|..] == "rg " + what && line[3..] == ("x\n" + work) + (";" + (" " + ("rg " + what)));
    assert CdLine(line, work, what);
    CdIsJudged(line, work, what, env);
    CdIsRead(line, work, what);
    AnotherCommand(line, 0, 4, 5);
  }

  lemma CdIsRead(line: string, work: string, what: string)
    requires CdLine(line, work, what)
    ensures Parts(line, 0, 4, 5)
  {
    ReadsOrdinary(line, 0, 4);
    ReadsOrdinary(line, 0, 5);
  }

  lemma CdIsJudged(line: string, work: string, what: string, env: Env)
    requires CdLine(line, work, what)
    ensures Trim(line) == line && TrimStart(line) == line && !CdGoesFirst(Peel(line).0, 0, 5)
    ensures EvaluateSegment(line, env) == env.judge(false, [what], Some("x\n" + work))
  {
    var item := CdIsPeeled(line, work, what);
    assert line[|line| - 1] == line[7 + |work|..][|what| + 2] == what[|what| - 1];
    AlreadyTrimmed(line);
    OnlyThisCd(item);
    JudgedBehind(line, item, what, env);
  }

  lemma CdIsPeeled(line: string, work: string, what: string) returns (item: Item)
    requires CdLine(line, work, what)
    ensures Peel(line) == ([item], "rg " + what)
    ensures item.ChangeDir? && item.text != "" && item.arg == "x\n" + work && item.at == 5 + |work|
  {
    CdIsTaken(line, work, what);
    item := Head(line).value.0;
    PlainSearch(what);
    OneItemIsPeeled(line, item, "rg " + what);
  }

  lemma JudgedBehind(line: string, item: Item, what: string, env: Env)
    requires Trim(line) == line && TrimStart(line) == line && Peel(line) == ([item], "rg " + what) && Plain(what)
    requires !OptsOut([item])
    ensures EvaluateSegment(line, env) == env.judge(false, [what], FirstCd([item]))
  {
    PlainSearch(what);
  }

  lemma OnlyThisCd(item: Item)
    requires item.ChangeDir? && item.text != ""
    ensures !OptsOut([item]) && FirstCd([item]) == Some(item.arg) && SeparatorAfter([item], 0) == Some(item.at)
  {
    assert [item][..0] == [];
  }

  lemma CdIsTaken(line: string, work: string, what: string)
    requires CdLine(line, work, what)
    ensures Head(line).Some? && Head(line).value.1 == "rg " + what && Head(line).value.0.ChangeDir?
    ensures var item := Head(line).value.0;
            item.arg == "x\n" + work && item.at == 5 + |work| && |item.text| == 7 + |work|
  {
    var rest := "rg " + what;
    var n := 5 + |work|;
    SeparatorAhead(line, 0, n);
    CdArgumentOf(line, "x\n" + work, rest);
    assert LeadingCd(line) == Some(("x\n" + work, line[n + 1..]));
    CdExcludes(line);
    assert line[n + 1..][1..] == rest && rest[0] == 'r';
    assert TrimStart(rest) == rest && TrimStart(line[n + 1..]) == rest;
  }

  lemma CdArgumentOf(line: string, arg: string, rest: string)
    requires |line| > 3 && line[0] == 'c' && line[1] == 'd' && line[2] == ' ' && line[3..] == arg + (";" + (" " + rest))
    requires arg != "" && !IsSpace(arg[0]) && !IsSpace(arg[|arg| - 1])
    requires forall k :: 0 <= k < |arg| ==> arg[k] !in {'\'', '"', '|', ';', '&'}
    ensures CdArgument(line) == Some(arg)
  {
    var after := line[3..];
    assert after[0] == arg[0] && line[2..][1..] == after && TrimStart(after) == after && TrimStart(line[2..]) == after;
    ArgumentUpTo(after, 0, |arg|);
    assert after[..|arg|] == arg && TrimEnd(arg) == arg;
  }

  lemma {:induction false} SeparatorAhead(s: string, i: nat, n: nat)
    requires i <= n < |s| && s[n] == ';' && forall k :: i <= k < n ==> s[k] !in {'\'', '"', '|', ';', '&'}
    ensures CdSeparator(s, i, Bare) == Found(n, 1)
    decreases n - i
  {
    if i < n { SeparatorAhead(s, i + 1, n); }
  }

  lemma {:induction false} ArgumentUpTo(s: string, i: nat, n: nat)
    requires i <= n < |s| && s[n] == ';' && forall k :: i <= k < n ==> s[k] !in {'\'', '"', '|', ';', '&'}
    ensures CdArgEnd(s, i, Bare) == n
    decreases n - i
  {
    if i < n { ArgumentUpTo(s, i + 1, n); }
  }
}

/**
 Which shell commands the hook redirects (`evaluate_bash_command` in src/hooks.rs). What
 is decided from the tokens of a search and the index is a parameter, `Env.judge`.
 */
module HookPolicy {
  import opened Common
  import opened ShellScan
  import opened ShellTokens
  import opened CommandPrefixes

  /** `judge` receives whether it is a `git grep`, its tokens and the leading `cd`. */
  datatype Env = Env(inProject: bool, disabled: bool,
                     judge: (bool, seq<string>, Option<string>) -> Option<string>)

  /** `split_whitespace`. */
  function Words(s: string): seq<string>
    decreases |s|
  {
    var t := TrimStart(s);
    var n := WordLen(t);
    if n == 0 then [] else [t[..n]] + Words(t[n..])
  }

  function WordLen(t: string): (n: nat)
    ensures n <= |t|
  {
    if t == "" || IsSpace(t[0]) then 0 else 1 + WordLen(t[1..])
  }

  function FirstWord(s: string): string {
    if Words(s) == [] then "" else Words(s)[0]
  }

  function After(s: string, prefix: string): Option<string> {
    if prefix <= s then Some(s[|prefix|..]) else None
  }

  function GitGrepTail(rest: string): Option<string> {
    match After(rest, "git ")
    case None => None
    case Some(g) =>
      var g := TrimStart(g);
      After(if "--no-pager " <= g then TrimStart(g[11..]) else g, "grep ")
  }

  /** What follows `grep`, `rg`, `ag` or `git grep`. */
  function SearchTail(rest: string): Option<(bool, string)> {
    if GitGrepTail(rest).Some? then Some((true, GitGrepTail(rest).value))
    else if "grep " <= rest then Some((false, rest[5..]))
    else if "rg " <= rest || "ag " <= rest then Some((false, rest[3..]))
    else None
  }

  /** `evaluate_bash_segment`: an unchained search that is not opted out, as judged. */
  function EvaluateSegment(command: string, env: Env): Option<string> {
    var st := Strip(Trim(command));
    if st.disablesHook || Chained(st.rest) then None
    else
      match SearchTail(st.rest)
      case None => None
      case Some((git, tail)) => env.judge(git, ShellSplit(tail), st.cdTarget)
  }

  predicate Blank(s: string) {
    forall c :: c in s ==> IsSpace(c)
  }

  /** `git grep`, with white space and perhaps a `--no-pager` between the two words. */
  predicate GitLine(rest: string, a: string, pager: Option<string>, tail: string) {
    Blank(a) && (pager.Some? ==> Blank(pager.value))
    && rest == "git " + a + (if pager.Some? then "--no-pager " + pager.value else "") + "grep " + tail
  }

  /** `rest` is a search for what `tail` says. */
  ghost predicate Searches(rest: string, git: bool, tail: string) {
    if git then exists a, pager :: GitLine(rest, a, pager, tail)
    else rest == "grep " + tail || rest == "rg " + tail || rest == "ag " + tail
  }

  lemma AfterIff(s: string, prefix: string, tail: string)
    ensures After(s, prefix) == Some(tail) <==> s == prefix + tail
  {
    if prefix <= s {
      assert s == prefix + s[|prefix|..];
    }
    if s == prefix + tail {
      assert s[|prefix|..] == tail;
    }
  }

  lemma TrimBlank(a: string, s: string)
    requires Blank(a) && s != "" && !IsSpace(s[0])
    ensures TrimStart(a + s) == s
  {
    if a == "" {
      assert a + s == s;
    } else {
      assert IsSpace(a[0]) && (a + s)[1..] == a[1..] + s;
      TrimBlank(a[1..], s);
    }
  }

  lemma BlankBefore(s: string) returns (a: string)
    ensures Blank(a) && s == a + TrimStart(s)
  {
    TrimStartIsSuffix(s);
    a := s[..|s| - |TrimStart(s)|];
  }

  lemma GitGrepIff(rest: string, tail: string)
    ensures GitGrepTail(rest) == Some(tail) <==> exists a, pager :: GitLine(rest, a, pager, tail)
  {
    if GitGrepTail(rest) == Some(tail) {
      GitGrepIsALine(rest, tail);
    }
    if a, pager :| GitLine(rest, a, pager, tail) {
      GitLineIsFound(rest, a, pager, tail);
    }
  }

  lemma GitGrepIsALine(rest: string, tail: string)
    requires GitGrepTail(rest) == Some(tail)
    ensures exists a, pager :: GitLine(rest, a, pager, tail)
  {
    var g := rest[4..];
    var a := BlankBefore(g);
    AfterIff(rest, "git ", g);
    var t := TrimStart(g);
    if "--no-pager " <= t {
      var b := BlankBefore(t[11..]);
      AfterIff(t, "--no-pager ", t[11..]);
      AfterIff(TrimStart(t[11..]), "grep ", tail);
      PagerLine(rest, g, t, a, b, tail);
    } else {
      AfterIff(t, "grep ", tail);
      BareLine(rest, g, a, tail);
    }
  }

  lemma BareLine(rest: string, g: string, a: string, tail: string)
    requires Blank(a) && rest == "git " + g && g == a + ("grep " + tail)
    ensures GitLine(rest, a, None, tail)
  {
    assert "git " + (a + ("grep " + tail)) == "git " + a + "" + "grep " + tail;
  }

  lemma PagerLine(rest: string, g: string, t: string, a: string, b: string, tail: string)
    requires Blank(a) && Blank(b) && rest == "git " + g && g == a + t && t == "--no-pager " + (b + ("grep " + tail))
    ensures GitLine(rest, a, Some(b), tail)
  {
    assert "git " + (a + ("--no-pager " + (b + ("grep " + tail))))
        == "git " + a + ("--no-pager " + b) + "grep " + tail;
  }

  lemma GitLineIsFound(rest: string, a: string, pager: Option<string>, tail: string)
    requires GitLine(rest, a, pager, tail)
    ensures GitGrepTail(rest) == Some(tail)
  {
    var line := "grep " + tail;
    AfterIff(line, "grep ", tail);
    if pager == None {
      assert rest == "git " + (a + line);
      AfterIff(rest, "git ", a + line);
      TrimBlank(a, line);
    } else {
      var t := "--no-pager " + (pager.value + line);
      assert rest == "git " + (a + t);
      AfterIff(rest, "git ", a + t);
      TrimBlank(a, t);
      AfterIff(t, "--no-pager ", pager.value + line);
      TrimBlank(pager.value, line);
    }
  }

  /** What is taken for a search is one, and every search is taken for one. */
  lemma SearchTailIff(rest: string, git: bool, tail: string)
    ensures SearchTail(rest) == Some((git, tail)) <==> Searches(rest, git, tail)
  {
    GitGrepIff(rest, tail);
    AfterIff(rest, "grep ", tail);
    AfterIff(rest, "rg ", tail);
    AfterIff(rest, "ag ", tail);
    if GitGrepTail(rest).Some? {
      assert rest[1] == 'i';
    }
  }

  // ------------------------------------------------------------ what is judged

  /** The command's last assignment to the opt-out variable switches the hook off. */
  ghost predicate OptedOut(command: string) {
    OptedOutBy(Peel(TrimStart(Trim(command))).0)
  }

  /** Behind its prefixes the command is an unchained search that is not opted out, and `r`
      is what its tokens and its first `cd` are judged to be. */
  ghost predicate Judged(command: string, env: Env, r: Option<string>) {
    var (items, rest) := Peel(TrimStart(Trim(command)));
    && !OptedOutBy(items) && !Chained(rest)
    && exists git, tail, cd :: JudgedAs(items, rest, env, r, git, tail, cd)
  }

  ghost predicate JudgedAs(items: seq<Item>, rest: string, env: Env, r: Option<string>,
                           git: bool, tail: string, cd: Option<string>) {
    Searches(rest, git, tail) && FirstCdIs(items, cd) && r == env.judge(git, ShellSplit(tail), cd)
  }

  /** The command is redirected: judged to some reason. */
  ghost predicate Redirected(command: string, env: Env) {
    exists r :: Judged(command, env, r) && r.Some?
  }

  lemma EvaluatedIsJudged(command: string, env: Env)
    ensures EvaluateSegment(command, env).Some? ==> Judged(command, env, EvaluateSegment(command, env))
  {
    var (items, rest) := Peel(TrimStart(Trim(command)));
    OptsOutIff(items);
    FirstCdIff(items);
    if EvaluateSegment(command, env).Some? {
      var (git, tail) := SearchTail(rest).value;
      SearchTailIff(rest, git, tail);
      assert JudgedAs(items, rest, env, EvaluateSegment(command, env), git, tail, FirstCd(items));
    }
  }

  lemma JudgedIsEvaluated(command: string, env: Env, r: Option<string>)
    requires Judged(command, env, r)
    ensures EvaluateSegment(command, env) == r
  {
    var (items, rest) := Peel(TrimStart(Trim(command)));
    OptsOutIff(items);
    var git, tail, cd :| JudgedAs(items, rest, env, r, git, tail, cd);
    SearchTailIff(rest, git, tail);
    FirstCdIff(items);
    assert FirstCdIs(items, cd) ==> cd == FirstCd(items);
  }

  lemma RedirectedIff(command: string, env: Env)
    ensures Redirected(command, env) <==> EvaluateSegment(command, env).Some?
  {
    EvaluatedIsJudged(command, env);
    if Redirected(command, env) {
      var r :| Judged(command, env, r) && r.Some?;
      JudgedIsEvaluated(command, env, r);
    }
  }

  /** A command that opts out is never redirected. */
  lemma OptedOutIsLeftAlone(command: string, env: Env)
    requires OptedOut(command)
    ensures EvaluateSegment(command, env) == None && !Redirected(command, env)
  {
    OptsOutIff(Peel(TrimStart(Trim(command))).0);
  }

  predicate IsAddressChar(c: char) {
    '0' <= c <= '9' || c in {',', '$', ';', 'p', 'd', 'q', '!', ' '}
  }

  predicate AddressesOnly(script: string) {
    forall c :: c in script ==> IsAddressChar(c)
  }

  predicate IsWriteFlag(tok: string) {
    "-i" <= tok || "--in-place" <= tok || "-e" <= tok
  }

  /** `is_read_only_sed`. */
  method IsReadOnlySed(rest: string) returns (readOnly: bool)
    ensures readOnly <==> ReadOnlySed(rest)
  {
    if !("sed " <= rest) {
      return false;
    }
    var tokens, stop := Tokenize(rest[4..]);
    var sawScript := false;
    for i := 0 to |tokens|
      invariant forall j :: 0 <= j < i ==> !IsWriteFlag(tokens[j])
      invariant if sawScript then exists j :: 0 <= j < i && FirstScript(tokens, j) && AddressesOnly(tokens[j])
                else forall j :: 0 <= j < i ==> "-" <= tokens[j]
    {
      if IsWriteFlag(tokens[i]) {
        return false;
      }
      if !("-" <= tokens[i]) && !sawScript {
        sawScript := true;
        assert FirstScript(tokens, i);
        if !AddressesOnly(tokens[i]) {
          assert forall j :: 0 <= j < |tokens| && FirstScript(tokens, j) ==> j == i;
          return false;
        }
      }
    }
    readOnly := sawScript;
  }

  /** Token `j` is the first that is not an option. */
  predicate FirstScript(tokens: seq<string>, j: nat)
    requires j < |tokens|
  {
    !("-" <= tokens[j]) && forall k :: 0 <= k < j ==> "-" <= tokens[k]
  }

  /** No writing option, and a script made of line addresses and `p`, `d`, `q` alone. */
  ghost predicate ReadOnlySed(rest: string) {
    "sed " <= rest &&
    var tokens := ShellSplit(rest[4..]);
    && (forall j :: 0 <= j < |tokens| ==> !IsWriteFlag(tokens[j]))
    && (exists j :: 0 <= j < |tokens| && FirstScript(tokens, j) && AddressesOnly(tokens[j]))
  }

  /** No word starts like editing in place or another script, and a word that is no option
      has none of the commands that write, read, run, substitute or insert. */
  lemma SedScriptsOnlyPrint(rest: string)
    requires ReadOnlySed(rest)
    ensures var tokens := ShellSplit(rest[4..]);
            && (forall t :: t in tokens ==> !("-i" <= t) && !("-e" <= t) && !("--in-place" <= t))
            && exists t :: t in tokens && !("-" <= t)
                 && forall c :: c in t ==> c !in {'w', 'r', 'e', 's', 'a', 'i', 'c', '{', '\\', '\n', 'W', 'R'}
  {
    var tokens := ShellSplit(rest[4..]);
    forall t | t in tokens ensures !IsWriteFlag(t) {
      var j :| 0 <= j < |tokens| && tokens[j] == t;
    }
    var j :| 0 <= j < |tokens| && FirstScript(tokens, j) && AddressesOnly(tokens[j]);
    assert tokens[j] in tokens;
    forall c | c in tokens[j] ensures c !in {'w', 'r', 'e', 's', 'a', 'i', 'c', '{', '\\', '\n', 'W', 'R'} {
      assert IsAddressChar(c);
    }
  }

  const INERT := {"echo", "pwd", "ls", "cat", "printf", "head", "tail", "wc", "grep", "rg", "ag"}
  const FILTERS := {"head", "tail", "wc", "cat", "grep", "rg", "cut", "tr", "nl", "column"}

  ghost predicate Inert(segment: string, beforeSearch: bool) {
    var rest := Strip(Trim(segment)).rest;
    FirstWord(rest) in INERT || GitGrepTail(rest).Some? || ReadOnlySed(rest)
    || (beforeSearch && FirstWord(rest) in {"true", ":"})
  }

  method IsInertCommand(segment: string, beforeSearch: bool) returns (inert: bool)
    ensures inert <==> Inert(segment, beforeSearch)
  {
    var st := StripCommandPrefixes(Trim(segment));
    var head := FirstWord(st.rest);
    var sed := IsReadOnlySed(st.rest);
    inert := head in INERT || GitGrepTail(st.rest).Some? || sed || (beforeSearch && head in {"true", ":"});
  }

  /** A pipeline stage that only filters. */
  ghost predicate Filter(stage: string) {
    var rest := Strip(Trim(stage)).rest;
    var words := Words(rest);
    var head := FirstWord(rest);
    if head == "sort" then forall k :: 0 < k < |words| ==> words[k] != "-o" && !("--output" <= words[k])
    else if head == "uniq" then forall k :: 0 < k < |words| ==> "-" <= words[k]
    else head in FILTERS || ReadOnlySed(rest)
  }

  /** The words name no output file: `sort` takes one with `-o` or `--output`, `uniq` as an
      argument that is not an option. */
  predicate WritesNoFile(words: seq<string>) {
    && (|words| > 0 && words[0] == "sort" ==> "-o" !in words[1..] && forall w :: w in words[1..] ==> !("--output" <= w))
    && (|words| > 0 && words[0] == "uniq" ==> forall w :: w in words[1..] ==> |w| > 0 && w[0] == '-')
  }

  method IsReadOnlyFilter(stage: string) returns (filter: bool)
    ensures filter <==> Filter(stage)
    ensures filter ==> WritesNoFile(Words(Strip(Trim(stage)).rest))
  {
    var st := StripCommandPrefixes(Trim(stage));
    var words := Words(st.rest);
    var head := FirstWord(st.rest);
    if head == "sort" {
      filter := forall k :: 0 < k < |words| ==> words[k] != "-o" && !("--output" <= words[k]);
    } else if head == "uniq" {
      filter := forall k :: 0 < k < |words| ==> "-" <= words[k];
    } else {
      var sed := IsReadOnlySed(st.rest);
      filter := head in FILTERS || sed;
    }
  }

  method EvaluateBashSegment(command: string, env: Env) returns (r: Option<string>)
    ensures r == EvaluateSegment(command, env)
    ensures OptedOut(command) ==> r == None
    ensures r.Some? ==> Judged(command, env, r)
    ensures forall q :: Judged(command, env, q) ==> r == q
  {
    EvaluatedIsJudged(command, env);
    forall q | Judged(command, env, q) ensures EvaluateSegment(command, env) == q {
      JudgedIsEvaluated(command, env, q);
    }
    var st := StripCommandPrefixes(Trim(command));
    if st.disablesHook {
      return None;
    }
    var chained := HasChainedCommand(st.rest);
    if chained {
      return None;
    }
    match SearchTail(st.rest)
    case None => r := None;
    case Some((git, tail)) =>
      var tokens, stop := Tokenize(tail);
      r := env.judge(git, tokens, st.cdTarget);
  }

  /** What the hook makes of one pipeline: its head's reason, whether its later stages
      only filter, and whether its head is inert ahead of and after a redirected search. */
  datatype Verdict = Verdict(found: Option<string>, filtered: bool, alone: bool, inertBefore: bool, inertAfter: bool)

  ghost function VerdictOf(stages: seq<string>, env: Env): Verdict
    requires stages != []
  {
    Verdict(EvaluateSegment(stages[0], env), FiltersFrom(stages, 1), |stages| == 1,
            Inert(stages[0], true), Inert(stages[0], false))
  }

  predicate AllFrom(stages: seq<string>, j: nat, p: string -> bool)
    decreases |stages| - j
  {
    j >= |stages| || (p(stages[j]) && AllFrom(stages, j + 1, p))
  }

  /** Every stage from `j` on only filters. */
  ghost predicate FiltersFrom(stages: seq<string>, j: nat) {
    AllFrom(stages, j, s => Filter(s))
  }

  ghost function Verdicts(segs: seq<seq<string>>, env: Env): (vs: seq<Verdict>)
    requires NoEmpty(segs)
    ensures |vs| == |segs| && forall k :: 0 <= k < |segs| ==> vs[k] == VerdictOf(segs[k], env)
  {
    seq(|segs|, k requires 0 <= k < |segs| => VerdictOf(segs[k], env))
  }

  predicate NoneFound(vs: seq<Verdict>, n: nat)
    requires n <= |vs|
  {
    forall i :: 0 <= i < n ==> vs[i].found == None
  }

  /** Pipeline `k` may be discarded: its later stages only filter, and its head is a
      redirected search, or inert, where `true` and `:` are inert only on their own and
      ahead of the first redirected search. */
  predicate Expendable(vs: seq<Verdict>, k: nat)
    requires k < |vs|
  {
    vs[k].filtered
    && (vs[k].found.Some? || if vs[k].alone && NoneFound(vs, k) then vs[k].inertBefore else vs[k].inertAfter)
  }

  /** `r` is the reason of the first redirected search. */
  predicate FirstReason(vs: seq<Verdict>, r: Option<string>) {
    exists k :: 0 <= k < |vs| && r == vs[k].found && r.Some? && NoneFound(vs, k)
  }

  /** Segment `k` may go with the search: its later stages only filter, and its head is
      redirected, or inert, where `true` and `:` count on their own ahead of the first
      redirected head alone. */
  ghost predicate MayGo(segs: seq<seq<string>>, k: nat, env: Env)
    requires NoEmpty(segs) && k < |segs|
  {
    && (forall j :: 1 <= j < |segs[k]| ==> Filter(segs[k][j]))
    && (Redirected(segs[k][0], env)
        || Inert(segs[k][0], |segs[k]| == 1 && forall i :: 0 <= i < k ==> !Redirected(segs[i][0], env)))
  }

  ghost predicate Batched(segs: seq<seq<string>>, env: Env)
    requires NoEmpty(segs)
  {
    (forall k :: 0 <= k < |segs| ==> MayGo(segs, k, env))
    && exists k :: 0 <= k < |segs| && Redirected(segs[k][0], env)
  }

  /** `r` is what the head of segment `k` is judged to be, the first that is redirected. */
  ghost predicate ReasonOf(segs: seq<seq<string>>, k: nat, env: Env, r: Option<string>)
    requires NoEmpty(segs) && k < |segs|
  {
    Judged(segs[k][0], env, r) && !OptedOut(segs[k][0])
    && forall i :: 0 <= i < k ==> !Redirected(segs[i][0], env)
  }

  lemma {:induction false} AllFromIff(stages: seq<string>, j: nat, p: string -> bool)
    ensures AllFrom(stages, j, p) <==> forall i :: j <= i < |stages| ==> p(stages[i])
    decreases |stages| - j
  {
    if j < |stages| {
      AllFromIff(stages, j + 1, p);
    }
  }

  lemma FiltersFromIff(stages: seq<string>)
    ensures FiltersFrom(stages, 1) <==> forall i :: 1 <= i < |stages| ==> Filter(stages[i])
  {
    AllFromIff(stages, 1, s => Filter(s));
  }

  lemma NoneFoundIff(segs: seq<seq<string>>, env: Env, n: nat)
    requires NoEmpty(segs) && n <= |segs|
    ensures NoneFound(Verdicts(segs, env), n) <==> forall i :: 0 <= i < n ==> !Redirected(segs[i][0], env)
  {
    forall i | 0 <= i < n ensures Verdicts(segs, env)[i].found == None <==> !Redirected(segs[i][0], env) {
      RedirectedIff(segs[i][0], env);
    }
  }

  lemma MayGoIff(segs: seq<seq<string>>, k: nat, env: Env)
    requires NoEmpty(segs) && k < |segs|
    ensures Expendable(Verdicts(segs, env), k) <==> MayGo(segs, k, env)
  {
    FiltersFromIff(segs[k]);
    NoneFoundIff(segs, env, k);
    RedirectedIff(segs[k][0], env);
    assert Verdicts(segs, env)[k] == VerdictOf(segs[k], env);
  }

  /** A split command is denied exactly when every segment may go and one is redirected. */
  lemma BatchDeniedIff(segs: seq<seq<string>>, env: Env)
    requires NoEmpty(segs)
    ensures AllExpendable(Verdicts(segs, env)) <==> Batched(segs, env)
  {
    NoneFoundIff(segs, env, |segs|);
    forall k | 0 <= k < |segs| ensures Expendable(Verdicts(segs, env), k) <==> MayGo(segs, k, env) {
      MayGoIff(segs, k, env);
    }
  }

  lemma FirstReasonIsJudged(segs: seq<seq<string>>, env: Env, r: Option<string>)
    requires NoEmpty(segs) && FirstReason(Verdicts(segs, env), r)
    ensures exists k :: 0 <= k < |segs| && ReasonOf(segs, k, env, r)
  {
    var vs := Verdicts(segs, env);
    var k :| 0 <= k < |vs| && r == vs[k].found && r.Some? && NoneFound(vs, k);
    assert vs[k] == VerdictOf(segs[k], env);
    NoneFoundIff(segs, env, k);
    EvaluatedIsJudged(segs[k][0], env);
    assert ReasonOf(segs, k, env, r);
  }

  lemma DecidedDirectly(command: string, env: Env)
    ensures OptedOut(command) ==> EvaluateSegment(command, env) == None
    ensures EvaluateSegment(command, env).Some? ==> Judged(command, env, EvaluateSegment(command, env))
    ensures Split(command).Some? ==>
              var segs := Split(command).value;
              && (AllExpendable(Verdicts(segs, env)) <==> Batched(segs, env))
              && forall r :: FirstReason(Verdicts(segs, env), r) ==>
                               exists k :: 0 <= k < |segs| && ReasonOf(segs, k, env, r)
  {
    if OptedOut(command) { OptedOutIsLeftAlone(command, env); }
    EvaluatedIsJudged(command, env);
    if Split(command).Some? {
      var segs := Split(command).value;
      BatchDeniedIff(segs, env);
      forall r | FirstReason(Verdicts(segs, env), r)
        ensures exists k :: 0 <= k < |segs| && ReasonOf(segs, k, env, r)
      {
        FirstReasonIsJudged(segs, env, r);
      }
    }
  }

  /** `evaluate_bash_command`. A denial happens exactly when the whole stripped command is
      one redirected search, or the command splits and every segment is expendable with at
      least one redirected search; the reason is the first one's. */
  method EvaluateBashCommand(command: string, env: Env) returns (r: Option<string>)
    ensures r.Some? <==>
              && env.inProject && !env.disabled
              && (EvaluateSegment(command, env).Some?
                  || (Split(command).Some? && AllExpendable(Verdicts(Split(command).value, env))))
    ensures r.Some? ==>
              if EvaluateSegment(command, env).Some? then r == EvaluateSegment(command, env)
              else Split(command).Some? && FirstReason(Verdicts(Split(command).value, env), r)
    ensures OptedOut(command) && Split(command) == None ==> r == None
    ensures r.Some? && !Judged(command, env, r) ==>
              Split(command).Some? && Batched(Split(command).value, env)
              && exists k :: 0 <= k < |Split(command).value| && ReasonOf(Split(command).value, k, env, r)
  {
    DecidedDirectly(command, env);
    if !env.inProject || env.disabled {
      return None;
    }
    r := EvaluateBashSegment(command, env);
    if r.Some? {
      return;
    }
    var split := SplitTopLevelSegments(command);
    if split == None {
      return None;
    }
    r := JudgeSegments(split.value, env, Verdicts(split.value, env));
  }

  /** Every pipeline may be discarded, and one holds a redirected search. */
  predicate AllExpendable(vs: seq<Verdict>) {
    (forall k :: 0 <= k < |vs| ==> Expendable(vs, k)) && !NoneFound(vs, |vs|)
  }

  /** The loop over the segments. */
  method JudgeSegments(segments: seq<seq<string>>, env: Env, ghost vs: seq<Verdict>) returns (r: Option<string>)
    requires NoEmpty(segments) && |vs| == |segments|
    requires forall k {:trigger segments[k]} :: 0 <= k < |vs| ==> vs[k] == VerdictOf(segments[k], env)
    ensures r.Some? <==> AllExpendable(vs)
    ensures r.Some? ==> FirstReason(vs, r)
  {
    r := None;
    for i := 0 to |segments|
      invariant JudgedTo(vs, i, r)
    {
      var ok, found := JudgeStages(segments[i], r == None, env, vs[i]);
      StepJudged(vs, i, r);
      if !ok {
        assert !Expendable(vs, i);
        return None;
      }
      if r == None {
        r := found;
      }
    }
  }

  /** The first `i` segments are expendable, and `r` is their first reason. */
  predicate JudgedTo(vs: seq<Verdict>, i: nat, r: Option<string>)
    requires i <= |vs|
  {
    && (forall k :: 0 <= k < i ==> Expendable(vs, k))
    && (r == None <==> NoneFound(vs, i))
    && (r.Some? ==> FirstReason(vs, r))
  }

  lemma StepJudged(vs: seq<Verdict>, i: nat, r: Option<string>)
    requires i < |vs| && JudgedTo(vs, i, r)
    ensures var v := vs[i];
            && (Expendable(vs, i) <==>
                  v.filtered && (v.found.Some? || if v.alone && r == None then v.inertBefore else v.inertAfter))
            && (Expendable(vs, i) ==> JudgedTo(vs, i + 1, if r == None then v.found else r))
  {
    if r == None && vs[i].found.Some? {
      assert FirstReason(vs, vs[i].found);
    }
  }

  /** One segment: its head's reason, and whether the whole of it may be discarded. */
  method JudgeStages(stages: seq<string>, first: bool, env: Env, ghost v: Verdict)
      returns (ok: bool, found: Option<string>)
    requires stages != [] && v == VerdictOf(stages, env)
    ensures ok <==> v.filtered && (v.found.Some? || if v.alone && first then v.inertBefore else v.inertAfter)
    ensures ok ==> found == v.found
  {
    ok := OnlyFilters(stages);
    if !ok {
      return false, None;
    }
    found := EvaluateBashSegment(stages[0], env);
    if found.Some? {
      return true, found;
    }
    ok := IsInertCommand(stages[0], first && |stages| == 1);
  }

  method OnlyFilters(stages: seq<string>) returns (ok: bool)
    requires stages != []
    ensures ok <==> FiltersFrom(stages, 1)
  {
    for j := 1 to |stages|
      invariant FiltersFrom(stages, 1) == FiltersFrom(stages, j)
    {
      ok := IsReadOnlyFilter(stages[j]);
      if !ok {
        return;
      }
    }
    ok := true;
  }

  lemma PlainPrefixIsBare(s: string, a: nat)
    requires a <= |s| && forall k :: 0 <= k < a ==> s[k] !in {'\'', '"', '\\'}
    ensures ModeAt(s, a) == Bare
  {
  }

  /** `tail` follows plain text that ends in a space. */
  ghost predicate FollowsPlain(s: string, tail: string) {
    var a := |s| - |tail|;
    0 < a && tail == s[a..] && s[a - 1] == ' ' && forall k :: 0 <= k < a ==> s[k] !in {'\'', '"', '\\'}
  }

  lemma PlainThrough(s: string, mid: string, a: nat, tail: string)
    requires a <= |s| && |mid| <= |s| - a && mid == s[|s| - |mid|..]
    requires forall k :: 0 <= k < |s| - |mid| ==> s[k] !in {'\'', '"', '\\'}
    requires FollowsPlain(mid, tail)
    ensures FollowsPlain(s, tail)
  {
    var b := |s| - |mid|;
    assert forall k :: b <= k < |s| ==> s[k] == mid[k - b];
    assert tail == s[|s| - |tail|..];
  }

  lemma SpacesThenPlain(s: string, a: nat, tail: string)
    requires a <= |s| && forall k :: 0 <= k < a ==> s[k] !in {'\'', '"', '\\'}
    requires FollowsPlain(TrimStart(s[a..]), tail)
    ensures FollowsPlain(s, tail)
  {
    var mid := TrimStart(s[a..]);
    TrimStartIsSuffix(s[a..]);
    var b := |s| - |mid|;
    assert mid == s[b..];
    forall k | a <= k < b ensures s[k] !in {'\'', '"', '\\'} {
      assert IsSpace(s[a..][k - a]);
    }
    PlainThrough(s, mid, a, tail);
  }

  lemma GrepFollowsPlain(s: string)
    requires "grep " <= s
    ensures FollowsPlain(s, s[5..])
  {
    assert forall k :: 0 <= k < 5 ==> s[k] == "grep "[k];
  }

  lemma GitGrepFollowsPlain(rest: string)
    requires GitGrepTail(rest).Some?
    ensures FollowsPlain(rest, GitGrepTail(rest).value)
  {
    var g := TrimStart(rest[4..]);
    var pager := "--no-pager " <= g;
    var h := if pager then TrimStart(g[11..]) else g;
    var tail := h[5..];
    GrepFollowsPlain(h);
    if pager {
      PagerThenPlain(g, tail);
    }
    GitThenPlain(rest, tail);
  }

  lemma GitThenPlain(rest: string, tail: string)
    requires "git " <= rest && FollowsPlain(TrimStart(rest[4..]), tail)
    ensures FollowsPlain(rest, tail)
  {
    assert forall k :: 0 <= k < 4 ==> rest[k] == "git "[k];
    SpacesThenPlain(rest, 4, tail);
  }

  lemma PagerThenPlain(g: string, tail: string)
    requires "--no-pager " <= g && FollowsPlain(TrimStart(g[11..]), tail)
    ensures FollowsPlain(g, tail)
  {
    assert forall k :: 0 <= k < 11 ==> g[k] == "--no-pager "[k];
    SpacesThenPlain(g, 11, tail);
  }

  /** The tail of a search follows nothing that could open a quote or an escape. */
  lemma SearchTailFollowsPlain(rest: string)
    requires SearchTail(rest).Some?
    ensures FollowsPlain(rest, SearchTail(rest).value.1)
  {
    if GitGrepTail(rest).Some? {
      GitGrepFollowsPlain(rest);
    } else if "grep " <= rest {
      GrepFollowsPlain(rest);
    } else {
      assert rest[1] == 'g' && rest[2] == ' ';
    }
  }

  /** The tokens of an unchained search reach the end of its line, unless an unquoted `<`
      or `2>` comes first: nothing after them separates, pipes or substitutes. */
  lemma SearchIsReadThrough(rest: string, stop: nat)
    requires !Chained(rest) && SearchTail(rest).Some? && FirstStop(SearchTail(rest).value.1, stop)
    ensures var tail := SearchTail(rest).value.1;
            !Chained(tail)
            && (stop == |tail| || tail[stop] == '<' || (tail[stop] == '>' && BareTwo(tail, stop - 1)))
  {
    SearchTailFollowsPlain(rest);
    TailIsReadThrough(rest, SearchTail(rest).value.1, stop);
  }

  lemma TailIsReadThrough(rest: string, tail: string, stop: nat)
    requires !Chained(rest) && FollowsPlain(rest, tail) && FirstStop(tail, stop)
    ensures !Chained(tail)
    ensures stop == |tail| || tail[stop] == '<' || (tail[stop] == '>' && BareTwo(tail, stop - 1))
  {
    var a := |rest| - |tail|;
    PlainPrefixIsBare(rest, a);
    SliceIsUnchained(rest, a, |rest|);
    assert rest[a..|rest|] == tail;
    if stop < |tail| { UnchainedStopsOnlyAtRedirects(tail, stop); }
  }
}

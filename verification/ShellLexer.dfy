/**
 How the shell itself reads a line: bash's quoting (Bash Reference Manual, sections 3.1.2,
 3.1.3 and 3.5.3) with comments, `$'...'`, `${...}` and continued lines, next to the simpler
 automaton of the command hook; where the two agree, and what only the shell sees.
 */
module ShellLexer {
  import opened Common
  import opened ShellScan

  // -------------------------------------------------------------- the lexer

  /** What came directly before: a `$` that still needs its name, or `<` and `>`. */
  datatype Before = Plain | Dollar | Angle | Angles

  /** What is open around a position: double quotes, or `${` and `$[` up to their ends. */
  datatype Nest = Quotes | Group(close: char)

  /** `start` says that a word may start here. */
  datatype Reading =
    | Text(start: bool, before: Before)
    | Escape(start: bool, before: Before)
    | Quote
    | Ansi
    | AnsiEscape
    | Comment

  datatype Lex = Lex(nests: seq<Nest>, at: Reading)

  const FRESH := Lex([], Text(true, Plain))
  const INSIDE := Text(false, Plain)

  predicate Innermost(nests: seq<Nest>, n: Nest) {
    nests != [] && nests[|nests| - 1] == n
  }

  /** One character of text, quoted by double quotes or not at all. */
  function StepText(nests: seq<Nest>, start: bool, before: Before, c: char): Lex {
    var quoted := Innermost(nests, Quotes);
    if c == '\\' then Lex(nests, Escape(start, before))
    else if c == '"' then Lex(if quoted then nests[..|nests| - 1] else nests + [Quotes], INSIDE)
    else if c == '\'' && !quoted then Lex(nests, if before == Dollar then Ansi else Quote)
    else if c == '$' then Lex(nests, Text(false, if before == Dollar then Plain else Dollar))
    else if before == Dollar && c == '{' then Lex(nests + [Group('}')], INSIDE)
    else if c == '[' && (before == Dollar || Innermost(nests, Group(']'))) then Lex(nests + [Group(']')], INSIDE)
    else if Innermost(nests, Group(c)) then Lex(nests[..|nests| - 1], INSIDE)
    else if c in {'<', '>'} && Quotes !in nests then
      Lex(nests, Text(nests == [], if before in {Angle, Angles} then Angles else Angle))
    else if nests != [] then Lex(nests, INSIDE)
    else if c == '#' && start then Lex(nests, Comment)
    else if IsBlank(c) || c in {'&', '|', ';', '(', ')'} then FRESH
    else Lex(nests, INSIDE)
  }

  predicate IsBlank(c: char) {
    c in {' ', '\t', '\n'}
  }

  function StepLex(l: Lex, c: char): Lex {
    match l.at
    case Text(start, before) => StepText(l.nests, start, before, c)
    case Escape(start, before) => Lex(l.nests, if c == '\n' then Text(start, before) else INSIDE)
    case Quote => if c == '\'' then Lex(l.nests, INSIDE) else l
    case Ansi => if c == '\'' then Lex(l.nests, INSIDE) else if c == '\\' then Lex(l.nests, AnsiEscape) else l
    case AnsiEscape => Lex(l.nests, Ansi)
    case Comment => if c == '\n' then FRESH else l
  }

  /** How the shell reads position `i` of `s`. */
  function LexAt(s: string, i: nat): Lex
    requires i <= |s|
  {
    if i == 0 then FRESH else StepLex(LexAt(s, i - 1), s[i - 1])
  }

  lemma {:induction false} LexOfSlice(s: string, a: nat, i: nat)
    requires a <= |s| && i <= |s| - a && LexAt(s, a) == FRESH
    ensures LexAt(s[a..], i) == LexAt(s, a + i)
    decreases i
  {
    if i > 0 { LexOfSlice(s, a, i - 1); }
  }

  // --------------------------------------------------------- what it runs

  /** Ends a command: a separator that is no part of a redirection, or a newline, which also
      ends a comment. */
  predicate EndsCommand(s: string, i: nat)
    requires i < |s|
  {
    var l := LexAt(s, i);
    l.nests == [] &&
    match l.at
    case Comment => s[i] == '\n'
    case Text(_, before) =>
      s[i] in {';', '\n'}
      || (s[i] in {'&', '|'} && before !in {Angle, Angles} && !(s[i] == '&' && CharAt(s, i + 1, '>')))
    case _ => false
  }

  /** Blanks, comments and the joints of continued lines belong to no command. */
  predicate BetweenWords(s: string, i: nat)
    requires i < |s|
  {
    var l := LexAt(s, i);
    l.nests == [] &&
    match l.at
    case Comment => true
    case Text(start, _) => IsBlank(s[i]) || (s[i] == '#' && start) || (s[i] == '\\' && CharAt(s, i + 1, '\n'))
    case Escape(_, _) => s[i] == '\n'
    case _ => false
  }

  predicate IsText(s: string, i: nat)
    requires i < |s|
  {
    !EndsCommand(s, i) && !BetweenWords(s, i)
  }

  /** The backquote or parenthesis that starts a command substitution. */
  predicate StartsSubstitution(s: string, i: nat)
    requires i < |s|
  {
    LexAt(s, i).at.Text? && (s[i] == '`' || (s[i] == '(' && LexAt(s, i).at.before == Dollar))
  }

  /** The parenthesis that starts a process substitution. */
  predicate OpensProcess(s: string, i: nat)
    requires i < |s|
  {
    LexAt(s, i).at.Text? && s[i] == '(' && LexAt(s, i).at.before == Angle
  }

  predicate Spawns(s: string, i: nat)
    requires i < |s|
  {
    StartsSubstitution(s, i) || OpensProcess(s, i)
  }

  /** Text, the end of a command, and text again. */
  predicate Parts(s: string, i: nat, j: nat, k: nat) {
    i < j < k < |s| && IsText(s, i) && EndsCommand(s, j) && IsText(s, k)
  }

  /** The shell runs one command for `s`, and none inside it. */
  predicate OneCommand(s: string) {
    (forall i, j, k :: 0 <= i < j < k < |s| ==> !Parts(s, i, j, k)) && forall i :: 0 <= i < |s| ==> !Spawns(s, i)
  }

  // ---------------------------------------------- what the hook does not see

  predicate HasTextAfter(s: string, j: nat) {
    exists k :: j < k < |s| && IsText(s, k)
  }

  /** A line end with text behind it. */
  predicate FurtherLine(s: string) {
    exists j :: 0 <= j < |s| && s[j] == '\n' && EndsCommand(s, j) && HasTextAfter(s, j)
  }

  predicate ProcessSubstitution(s: string) {
    exists i :: 0 <= i < |s| && OpensProcess(s, i)
  }

  /** A separator with text behind it that the hook takes for quoted. */
  predicate HiddenEnd(s: string) {
    exists j :: 0 <= j < |s| && s[j] != '\n' && EndsCommand(s, j) && ModeAt(s, j) != Bare && HasTextAfter(s, j)
  }

  /** The hook reads the start of this substitution as one. */
  predicate Shown(s: string, i: nat)
    requires i < |s|
  {
    if s[i] == '`' then ModeAt(s, i) in {Bare, Double}
    else i > 0 && s[i - 1] == '$' && ModeAt(s, i - 1) in {Bare, Double}
  }

  predicate HiddenSubstitution(s: string) {
    exists i :: 0 <= i < |s| && StartsSubstitution(s, i) && !Shown(s, i)
  }

  predicate HiddenFromScanner(s: string) {
    HiddenEnd(s) || HiddenSubstitution(s)
  }

  /** A line that the hook lets through as unchained is one command if and only if it has no
      further line, substitutes no process, and hides nothing from the hook's automaton. */
  lemma UnchainedIsOneCommandIff(s: string)
    requires !Chained(s) && s != "" && IsText(s, 0)
    ensures OneCommand(s) <==> !FurtherLine(s) && !ProcessSubstitution(s) && !HiddenFromScanner(s)
  {
    UnchainedEnds(s);
    UnchainedSpawns(s);
  }

  lemma UnchainedEnds(s: string)
    requires !Chained(s) && s != "" && IsText(s, 0)
    ensures (forall i, j, k :: 0 <= i < j < k < |s| ==> !Parts(s, i, j, k)) <==> !FurtherLine(s) && !HiddenEnd(s)
  {
    if FurtherLine(s) || HiddenEnd(s) {
      var j :| 0 <= j < |s| && EndsCommand(s, j) && HasTextAfter(s, j);
      EndMakesParts(s, j);
    }
    if i, j, k :| 0 <= i < j < k < |s| && Parts(s, i, j, k) {
      PartsMakeEnd(s, i, j, k);
    }
  }

  lemma EndMakesParts(s: string, j: nat)
    requires j < |s| && EndsCommand(s, j) && HasTextAfter(s, j) && IsText(s, 0)
    ensures exists k :: 0 < j < k < |s| && Parts(s, 0, j, k)
  {
    var k :| j < k < |s| && IsText(s, k);
    assert Parts(s, 0, j, k);
  }

  lemma PartsMakeEnd(s: string, i: nat, j: nat, k: nat)
    requires !Chained(s) && Parts(s, i, j, k)
    ensures FurtherLine(s) || HiddenEnd(s)
  {
    assert HasTextAfter(s, j);
    SeenEndsOffend(s, j);
  }

  lemma SeenEndsOffend(s: string, j: nat)
    requires !Chained(s) && j < |s| && EndsCommand(s, j)
    ensures s[j] == '\n' || ModeAt(s, j) != Bare
  {
    assert !Offends(s, j);
  }

  lemma UnchainedSpawns(s: string)
    requires !Chained(s)
    ensures (exists i :: 0 <= i < |s| && Spawns(s, i)) <==> ProcessSubstitution(s) || HiddenSubstitution(s)
  {
    forall i | 0 <= i < |s| && StartsSubstitution(s, i) ensures !Shown(s, i) {
      assert !Offends(s, i);
      if i > 0 { assert !Offends(s, i - 1); }
    }
    if ProcessSubstitution(s) {
      var i :| 0 <= i < |s| && OpensProcess(s, i);
      assert Spawns(s, i);
    }
    if HiddenSubstitution(s) {
      var i :| 0 <= i < |s| && StartsSubstitution(s, i);
      assert Spawns(s, i);
    }
  }

  // -------------------------------------------------------- where both agree

  /** Where the automata part: a comment, `$'`, `${` or `$[`, or a `$` before a line joint. */
  predicate Diverges(s: string, i: nat)
    requires i < |s|
  {
    var l := LexAt(s, i);
    match l.at
    case Text(start, before) =>
      (s[i] == '#' && start && l.nests == [])
      || (before == Dollar && (s[i] in {'{', '['} || (s[i] == '\'' && !Innermost(l.nests, Quotes))))
    case Escape(_, before) => s[i] == '\n' && before == Dollar
    case _ => false
  }

  predicate Agree(m: Mode, l: Lex) {
    match m
    case Bare => l.nests == [] && l.at.Text?
    case Single => l.nests == [] && l.at.Quote?
    case Double => l.nests == [Quotes] && l.at.Text?
    case BareEscape => l.nests == [] && l.at.Escape?
    case DoubleEscape => l.nests == [Quotes] && l.at.Escape?
  }

  /** Up to the first such place, the hook's automaton quotes as the shell does. */
  lemma {:induction false} AutomataAgree(s: string, i: nat)
    requires i <= |s| && forall k :: 0 <= k < i ==> !Diverges(s, k)
    ensures Agree(ModeAt(s, i), LexAt(s, i))
    decreases i
  {
    if i > 0 {
      AutomataAgree(s, i - 1);
      AgreeStep(ModeAt(s, i - 1), LexAt(s, i - 1), s[i - 1]);
      assert !Diverges(s, i - 1);
    }
  }

  lemma AgreeStep(m: Mode, l: Lex, c: char)
    requires Agree(m, l)
    requires l.at.Text? ==> !(c == '#' && l.at.start && l.nests == [])
    requires l.at.Text? && l.at.before == Dollar ==> c !in {'{', '['} && !(c == '\'' && l.nests == [])
    ensures Agree(StepMode(m, c), StepLex(l, c))
  {
  }

  /** A line without such a place hides nothing from the hook. */
  lemma AgreementHidesNothing(s: string)
    requires forall k :: 0 <= k < |s| ==> !Diverges(s, k)
    ensures !HiddenFromScanner(s)
  {
    forall j | 0 <= j < |s| ensures EndsCommand(s, j) ==> ModeAt(s, j) == Bare {
      AutomataAgree(s, j);
    }
    forall i | 0 <= i < |s| && StartsSubstitution(s, i) ensures Shown(s, i) {
      AutomataAgree(s, i);
      if s[i] == '(' {
        DollarIsBefore(s, i);
        AutomataAgree(s, i - 1);
      }
    }
  }

  lemma DollarIsBefore(s: string, i: nat)
    requires i <= |s| && LexAt(s, i).at.Text? && LexAt(s, i).at.before == Dollar
    requires forall k :: 0 <= k < i ==> !Diverges(s, k)
    ensures i > 0 && s[i - 1] == '$' && LexAt(s, i - 1).at.Text?
  {
    assert !Diverges(s, i - 1);
  }
}

/**
 The scanners behind the command hook (src/hooks.rs, non-Windows branch): one quote
 automaton as the reference (POSIX Shell Command Language, sections 2.2.1 to 2.2.3), and
 `has_chained_command` and `split_top_level_segments` proved to hold its state.
 */
module ShellScan {
  import opened Common

  /** Rust's `char::is_whitespace`. */
  predicate IsSpace(c: char) {
    var n := c as int;
    9 <= n <= 13 || n == 0x20 || n == 0x85 || n == 0xA0 || n == 0x1680 || 0x2000 <= n <= 0x200A
    || n == 0x2028 || n == 0x2029 || n == 0x202F || n == 0x205F || n == 0x3000
  }

  function TrimStart(s: string): (t: string)
    ensures |t| <= |s|
  {
    if s != "" && IsSpace(s[0]) then TrimStart(s[1..]) else s
  }

  lemma TrimStartIsSuffix(s: string)
    ensures var t := TrimStart(s);
            && t == s[|s| - |t|..] && (t != "" ==> !IsSpace(t[0]))
            && forall k :: 0 <= k < |s| - |t| ==> IsSpace(s[k])
  {
    if s != "" && IsSpace(s[0]) {
      TrimStartIsSuffix(s[1..]);
    }
  }

  function TrimEnd(s: string): (t: string)
    ensures t <= s
  {
    if s != "" && IsSpace(s[|s| - 1]) then TrimEnd(s[..|s| - 1]) else s
  }

  function Trim(s: string): string {
    TrimEnd(TrimStart(s))
  }

  // -------------------------------------------------- the quote automaton

  datatype Mode = Bare | Single | Double | BareEscape | DoubleEscape

  function StepMode(m: Mode, c: char): Mode {
    match m
    case Bare => if c == '\'' then Single else if c == '"' then Double else if c == '\\' then BareEscape else Bare
    case Single => if c == '\'' then Bare else Single
    case Double => if c == '"' then Bare else if c == '\\' then DoubleEscape else Double
    case BareEscape => Bare
    case DoubleEscape => Double
  }

  /** The quoting of position `i` of `s`. */
  function ModeAt(s: string, i: nat): Mode
    requires i <= |s|
  {
    if i == 0 then Bare else StepMode(ModeAt(s, i - 1), s[i - 1])
  }

  lemma ModeOfPrefix(s: string, n: nat, i: nat)
    requires i <= n <= |s|
    ensures ModeAt(s[..n], i) == ModeAt(s, i)
  {
  }

  lemma ModeOfSlice(s: string, a: nat, i: nat)
    requires a <= |s| && i <= |s| - a && ModeAt(s, a) == Bare
    ensures ModeAt(s[a..], i) == ModeAt(s, a + i)
  {
  }

  /** An escape at the very end leaves the quoting it started in. */
  function QuoteOf(m: Mode): Mode {
    match m
    case BareEscape => Bare
    case DoubleEscape => Double
    case _ => m
  }

  /** The quote flags the scanners keep, for a position between their steps. */
  ghost predicate Flags(s: string, i: nat, inSingle: bool, inDouble: bool)
    requires i <= |s|
  {
    && QuoteOf(ModeAt(s, i)) == (if inSingle then Single else if inDouble then Double else Bare)
    && !(inSingle && inDouble)
    && (i < |s| ==> ModeAt(s, i) == QuoteOf(ModeAt(s, i)))
  }

  // -------------------------------------------------------- chained commands

  predicate CharAt(s: string, i: int, c: char) {
    0 <= i < |s| && s[i] == c
  }

  predicate BareTwo(s: string, i: int) {
    CharAt(s, i, '2') && ModeAt(s, i) == Bare
  }

  /** Position `i` is the `>` of an unquoted `2>`, or the second one of `2>>`. */
  predicate OfStderr(s: string, i: nat) {
    CharAt(s, i, '>') && (BareTwo(s, i - 1) || (CharAt(s, i - 1, '>') && BareTwo(s, i - 2)))
  }

  predicate Substitutes(s: string, i: nat) {
    CharAt(s, i, '`') || (CharAt(s, i, '$') && CharAt(s, i + 1, '('))
  }

  /** Position `i` makes the line more than one command whose output goes nowhere else. */
  predicate Offends(s: string, i: nat)
    requires i < |s|
  {
    match ModeAt(s, i)
    case Bare => s[i] in {'&', '|', ';'} || (s[i] == '>' && !OfStderr(s, i)) || Substitutes(s, i)
    case Double => Substitutes(s, i)
    case _ => false
  }

  predicate Chained(s: string) {
    exists i :: 0 <= i < |s| && Offends(s, i)
  }

  /** Where one turn of either scanner's loop leads from position `i`. */
  function NextPos(s: string, i: nat): (j: nat)
    requires i < |s|
    ensures i < j <= |s|
  {
    if ModeAt(s, i) in {Bare, Double} && s[i] == '\\' && i + 1 < |s| then i + 2
    else if ModeAt(s, i) == Bare && s[i] == '2' && CharAt(s, i + 1, '>') then
      if CharAt(s, i + 2, '>') then i + 3 else i + 2
    else i + 1
  }

  /** The automaton over the one to three characters of a turn. */
  lemma TurnModes(s: string, i: nat)
    requires i < |s| && ModeAt(s, i) == QuoteOf(ModeAt(s, i))
    ensures var m, j := ModeAt(s, i), NextPos(s, i);
            && ModeAt(s, i + 1) == StepMode(m, s[i])
            && (j >= i + 2 ==> ModeAt(s, i + 2) == m)
            && (j == i + 2 && s[i] == '\\' ==> ModeAt(s, i + 1) in {BareEscape, DoubleEscape})
            && (j >= i + 2 && s[i] == '2' ==> m == Bare == ModeAt(s, i + 1))
            && (j == i + 3 ==> s[i] == '2' && ModeAt(s, i + 3) == Bare)
  {
    var m, j := ModeAt(s, i), NextPos(s, i);
    assert ModeAt(s, i + 1) == StepMode(m, s[i]);
    if j >= i + 2 {
      assert ModeAt(s, i + 2) == StepMode(ModeAt(s, i + 1), s[i + 1]);
      if j == i + 3 {
        assert ModeAt(s, i + 3) == StepMode(ModeAt(s, i + 2), s[i + 2]);
      }
    }
  }

  lemma TurnRedirects(s: string, i: nat)
    requires i < |s| && ModeAt(s, i) == QuoteOf(ModeAt(s, i)) && !OfStderr(s, i)
    ensures !OfStderr(s, NextPos(s, i))
    ensures forall k :: i < k < NextPos(s, i) ==> !Offends(s, k)
  {
    TurnModes(s, i);
    if NextPos(s, i) >= i + 2 && s[i] == '2' {
      assert BareTwo(s, i) && OfStderr(s, i + 1);
    }
  }

  /** One turn keeps the scanners' flags in step with the automaton and skips no offence. */
  lemma Turn(s: string, i: nat, inSingle: bool, inDouble: bool)
    requires i < |s| && Flags(s, i, inSingle, inDouble) && !OfStderr(s, i)
    ensures var j, c := NextPos(s, i), s[i];
            && j == (if !inSingle && c == '\\' && i + 1 < |s| then i + 2
                     else if !inSingle && !inDouble && c == '2' && CharAt(s, i + 1, '>') then
                       if CharAt(s, i + 2, '>') then i + 3 else i + 2
                     else i + 1)
            && !OfStderr(s, j)
            && (forall k :: i < k < j ==> !Offends(s, k))
            && Flags(s, j, if inSingle then c != '\'' else !inDouble && c == '\'',
                           if inDouble then c != '"' else !inSingle && c == '"')
  {
    TurnModes(s, i);
    TurnRedirects(s, i);
  }

  /** `has_chained_command`, exactly: some position offends. */
  method HasChainedCommand(s: string) returns (chained: bool)
    ensures chained <==> Chained(s)
  {
    var inSingle, inDouble, i := false, false, 0;
    while i < |s|
      invariant i <= |s| && Flags(s, i, inSingle, inDouble)
      invariant forall j :: 0 <= j < i ==> !Offends(s, j)
      invariant !OfStderr(s, i)
    {
      Turn(s, i, inSingle, inDouble);
      ghost var at := i;
      var c := s[i];
      i := i + 1;
      if inSingle {
        if c == '\'' {
          inSingle := false;
        }
      } else if inDouble {
        if c == '\\' {
          if i < |s| { i := i + 1; }
        } else if c == '"' {
          inDouble := false;
        } else if c == '`' || (c == '$' && i < |s| && s[i] == '(') {
          assert Offends(s, at);
          return true;
        }
      } else {
        if c == '\'' {
          inSingle := true;
        } else if c == '"' {
          inDouble := true;
        } else if c == '\\' {
          if i < |s| { i := i + 1; }
        } else if c == '$' && i < |s| && s[i] == '(' {
          assert Offends(s, at);
          return true;
        } else if c == '2' && i < |s| && s[i] == '>' {
          i := i + 1;
          if i < |s| && s[i] == '>' {
            i := i + 1;
          }
        } else if c in {'&', '|', ';', '`', '>'} {
          assert Offends(s, at);
          return true;
        }
      }
      assert i == NextPos(s, at);
    }
    chained := false;
  }

  lemma TwoOfSlice(s: string, a: nat, b: nat, i: nat)
    requires a <= i < b <= |s| && ModeAt(s, a) == Bare && BareTwo(s, i)
    ensures BareTwo(s[a..b], i - a)
  {
    SameMode(s, a, b, i - a);
  }

  lemma StderrOfSlice(s: string, a: nat, b: nat, j: nat)
    requires a <= b <= |s| && j < b - a && ModeAt(s, a) == Bare
    requires a == 0 || s[a - 1] !in {'2', '>'}
    requires OfStderr(s, a + j)
    ensures OfStderr(s[a..b], j)
  {
    var t := s[a..b];
    if BareTwo(s, a + j - 1) {
      assert s[a + j - 1] == '2' && j >= 1;
      TwoOfSlice(s, a, b, a + j - 1);
    } else {
      assert s[a + j - 1] == '>' && j >= 1;
      assert s[a + j - 2] == '2' && j >= 2;
      TwoOfSlice(s, a, b, a + j - 2);
      assert t[j - 1] == '>';
    }
  }

  /** A slice that starts outside quotes, not right after a `2` or a `>`, holds no offence
      the whole line does not hold there. */
  lemma SliceIsUnchained(s: string, a: nat, b: nat)
    requires a <= b <= |s| && ModeAt(s, a) == Bare
    requires a == 0 || s[a - 1] !in {'2', '>'}
    requires forall j :: a <= j < b ==> !Offends(s, j)
    ensures !Chained(s[a..b])
  {
    var t := s[a..b];
    forall j | 0 <= j < |t| ensures !Offends(t, j) {
      assert !Offends(s, a + j) && t[j] == s[a + j];
      SameMode(s, a, b, j);
      assert Substitutes(t, j) ==> Substitutes(s, a + j);
      if OfStderr(s, a + j) { StderrOfSlice(s, a, b, j); }
    }
  }

  lemma SameMode(s: string, a: nat, b: nat, j: nat)
    requires a <= b <= |s| && j <= b - a && ModeAt(s, a) == Bare
    ensures ModeAt(s[a..b], j) == ModeAt(s, a + j)
  {
    assert s[a..b] == s[..b][a..];
    ModeOfPrefix(s, b, a);
    ModeOfPrefix(s, b, a + j);
    ModeOfSlice(s[..b], a, j);
  }

  lemma SpacesStayBare(s: string, a: nat)
    requires a <= |s| && forall k :: 0 <= k < a ==> IsSpace(s[k])
    ensures ModeAt(s, a) == Bare
  {
  }

  lemma TrimStaysUnchained(s: string)
    requires !Chained(s)
    ensures !Chained(Trim(s))
  {
    var t := TrimStart(s);
    TrimStartIsSuffix(s);
    var a := |s| - |t|;
    SpacesStayBare(s, a);
    var b := a + |Trim(s)|;
    assert s[a..b] == Trim(s) by {
      assert Trim(s) <= t;
    }
    SliceIsUnchained(s, a, b);
  }

  // ---------------------------------------------------- top-level segments

  /** Each piece followed by its separator. */
  function Rebuild(pieces: seq<string>, seps: seq<string>): string
    requires |pieces| == |seps|
  {
    if pieces == [] then ""
    else
      var n := |pieces| - 1;
      Rebuild(pieces[..n], seps[..n]) + pieces[n] + seps[n]
  }

  const SEPARATORS := {"&&", "||", ";", "|"}

  /** Where piece `k` starts. */
  function StartOf(pieces: seq<string>, seps: seq<string>, k: nat): nat
    requires |pieces| == |seps| && k <= |pieces|
  {
    |Rebuild(pieces[..k], seps[..k])|
  }

  /** `pieces` and `seps` cut the front of `s`: they spell it out, every separator sits
      outside quotes and escapes, and no piece is chained. */
  ghost predicate Cuts(s: string, pieces: seq<string>, seps: seq<string>) {
    && |pieces| == |seps|
    && Rebuild(pieces, seps) <= s
    && forall k :: 0 <= k < |pieces| ==> CutAt(s, pieces, seps, k)
  }

  ghost predicate CutAt(s: string, pieces: seq<string>, seps: seq<string>, k: nat)
    requires k < |pieces| == |seps|
  {
    var p := StartOf(pieces, seps, k) + |pieces[k]|;
    && seps[k] in SEPARATORS && !Chained(pieces[k])
    && p <= |s| && seps[k] <= s[p..] && ModeAt(s, p) == Bare
  }

  /** The closed segments and the stages of the open one, separators forgotten. */
  function Nest(pieces: seq<string>, seps: seq<string>): (seq<seq<string>>, seq<string>)
    requires |pieces| == |seps|
  {
    if pieces == [] then ([], [])
    else
      var n := |pieces| - 1;
      var (segments, stages) := Nest(pieces[..n], seps[..n]);
      if seps[n] == "|" then (segments, stages + [pieces[n]])
      else (segments + [stages + [pieces[n]]], [])
  }

  lemma OneMoreCut(s: string, pieces: seq<string>, seps: seq<string>, start: nat, i: nat, sep: string)
    requires Cuts(s, pieces, seps) && start == |Rebuild(pieces, seps)|
    requires start <= i && i + |sep| <= |s| && sep in SEPARATORS && s[i..i + |sep|] == sep
    requires ModeAt(s, i) == Bare && !Chained(s[start..i])
    ensures var pieces', seps' := pieces + [s[start..i]], seps + [sep];
            && Cuts(s, pieces', seps') && |Rebuild(pieces', seps')| == i + |sep|
            && Nest(pieces', seps') == (if sep == "|" then (Nest(pieces, seps).0, Nest(pieces, seps).1 + [s[start..i]])
                                        else (Nest(pieces, seps).0 + [Nest(pieces, seps).1 + [s[start..i]]], []))
  {
    var n := |pieces|;
    var pieces', seps' := pieces + [s[start..i]], seps + [sep];
    assert pieces'[..n] == pieces && seps'[..n] == seps;
    assert Rebuild(pieces', seps') == Rebuild(pieces, seps) + s[start..i] + sep;
    assert Rebuild(pieces, seps) == s[..start];
    assert s[..i + |sep|] == s[..start] + s[start..i] + s[i..i + |sep|];
    forall k | 0 <= k < |pieces'| ensures CutAt(s, pieces', seps', k) {
      if k < n {
        assert pieces'[..k] == pieces[..k] && seps'[..k] == seps[..k];
        assert CutAt(s, pieces, seps, k);
      }
    }
  }

  predicate Unmodelled(s: string) {
    '`' in s || '\n' in s || exists i :: 0 <= i < |s| && s[i] == '$' && CharAt(s, i + 1, '(')
  }

  /** Position `i` shows a shape the splitter does not model: a subshell, a redirect other
      than `2>` and `2>>`, or a merge of standard error into another stream. */
  predicate Refused(s: string, i: nat)
    requires i < |s|
  {
    ModeAt(s, i) == Bare
    && (s[i] in {'(', ')', '`', '<'} || (s[i] == '>' && !OfStderr(s, i)) || Merged(s, i))
  }

  /** Position `i` is the `&` of an unquoted `2>&` or `2>>&`. */
  predicate Merged(s: string, i: nat) {
    CharAt(s, i, '&') && i > 0 && OfStderr(s, i - 1)
  }

  predicate Separates(s: string, i: nat)
    requires i < |s|
  {
    ModeAt(s, i) == Bare && s[i] in {'&', '|', ';'}
  }

  /** The longest separator at `i`; 0 for a lone `&`, which backgrounds, and for `|&`. */
  function SepWidth(s: string, i: nat): (w: nat)
    requires i < |s| && s[i] in {'&', '|', ';'}
    ensures i + w <= |s|
  {
    if s[i] == ';' then 1
    else if CharAt(s, i + 1, s[i]) then 2
    else if s[i] == '&' || CharAt(s, i + 1, '&') then 0
    else 1
  }

  datatype Cut = Cut(pieces: seq<string>, seps: seq<string>, last: string)

  /** The cut of `s[start..]`, read position by position from `i` under the quoting
      automaton; `None` when a shape is refused or a quote stays open. */
  function CutFrom(s: string, start: nat, i: nat): (r: Option<Cut>)
    requires start <= i <= |s|
    ensures r.Some? ==> |r.value.pieces| == |r.value.seps|
    decreases |s| - i
  {
    if i == |s| then
      if QuoteOf(ModeAt(s, i)) == Bare then Some(Cut([], [], s[start..])) else None
    else if Refused(s, i) then None
    else if Separates(s, i) then
      var n := i + SepWidth(s, i);
      if n == i then None else Behind([s[start..i]], [s[i..n]], CutFrom(s, n, n))
    else CutFrom(s, start, i + 1)
  }

  /** `rest` with more pieces in front. */
  function Behind(pieces: seq<string>, seps: seq<string>, rest: Option<Cut>): Option<Cut> {
    if rest == None then None
    else Some(Cut(pieces + rest.value.pieces, seps + rest.value.seps, rest.value.last))
  }

  /** The stages of each segment, untrimmed. */
  function Segments(c: Cut): seq<seq<string>>
    requires |c.pieces| == |c.seps|
  {
    Nest(c.pieces, c.seps).0 + [Nest(c.pieces, c.seps).1 + [c.last]]
  }

  predicate NoEmpty(segs: seq<seq<string>>) {
    forall i :: 0 <= i < |segs| ==> segs[i] != []
  }

  /** What `split_top_level_segments` returns: nothing unless there is more than one stage. */
  function Split(command: string): (r: Option<seq<seq<string>>>)
    ensures r.Some? ==> NoEmpty(r.value)
  {
    if Unmodelled(command) then None
    else
      match CutFrom(command, 0, 0)
      case None => None
      case Some(c) =>
        TidyHasNoEmptySegment(Segments(c));
        var tidy := Tidy(Segments(c));
        if tidy.Some? && (|tidy.value| >= 2 || (|tidy.value| == 1 && |tidy.value[0]| >= 2)) then tidy else None
  }

  lemma TidyHasNoEmptySegment(segments: seq<seq<string>>)
    ensures Tidy(segments).Some? ==> NoEmpty(Tidy(segments).value)
  {
    if segments != [] {
      TidyHasNoEmptySegment(segments[..|segments| - 1]);
    }
  }

  /** `whole` is what is cut so far in front of the cut from `i` on. */
  ghost predicate Cutting(whole: Option<Cut>, s: string, pieces: seq<string>, seps: seq<string>, start: nat, i: nat) {
    start <= i <= |s| && !Merged(s, i) && whole == Behind(pieces, seps, CutFrom(s, start, i))
  }

  lemma BehindTwice(p: seq<string>, q: seq<string>, p2: seq<string>, q2: seq<string>, rest: Option<Cut>)
    ensures Behind(p, q, Behind(p2, q2, rest)) == Behind(p + p2, q + q2, rest)
  {
    if rest.Some? {
      assert p + (p2 + rest.value.pieces) == (p + p2) + rest.value.pieces;
      assert q + (q2 + rest.value.seps) == (q + q2) + rest.value.seps;
    }
  }

  lemma CuttingStarts(s: string)
    ensures Cutting(CutFrom(s, 0, 0), s, [], [], 0, 0)
  {
    BehindNothing(CutFrom(s, 0, 0));
  }

  lemma BehindNothing(c: Option<Cut>)
    ensures Behind([], [], c) == c
  {
    if c.Some? {
      assert [] + c.value.pieces == c.value.pieces && [] + c.value.seps == c.value.seps;
    }
  }

  /** One unfolding at a separator. */
  lemma CutAtSeparator(s: string, start: nat, i: nat)
    requires start <= i < |s| && Separates(s, i) && !Merged(s, i)
    ensures var n := i + SepWidth(s, i);
            CutFrom(s, start, i) == if n == i then None else Behind([s[start..i]], [s[i..n]], CutFrom(s, n, n))
  {
  }

  lemma CuttingOn(whole: Option<Cut>, s: string, pieces: seq<string>, seps: seq<string>, start: nat, i: nat,
                  sep: string)
    requires Cutting(whole, s, pieces, seps, start, i) && i < |s| && Separates(s, i)
    requires sep == s[i..i + SepWidth(s, i)]
    ensures if sep == "" then whole == None
            else Cutting(whole, s, pieces + [s[start..i]], seps + [sep], i + |sep|, i + |sep|)
  {
    CutAtSeparator(s, start, i);
    var n := i + SepWidth(s, i);
    if n > i {
      NotMergedAfter(s, i, SepWidth(s, i));
      BehindTwice(pieces, seps, [s[start..i]], [s[i..n]], CutFrom(s, n, n));
    }
  }

  lemma NotMergedAfter(s: string, i: nat, w: nat)
    requires i < |s| && s[i] in {'&', '|', ';'} && w == SepWidth(s, i) > 0
    ensures !Merged(s, i + w)
  {
  }

  /** A turn at `i` on an unquoted `2>` that merges standard error. */
  predicate MergesAfter(s: string, i: nat)
    requires i < |s|
  {
    ModeAt(s, i) == Bare && s[i] == '2' && CharAt(s, i + 1, '>') && CharAt(s, NextPos(s, i), '&')
  }

  /** A turn on anything but a separator: the cut goes on after it, unless it is refused. */
  lemma CutTurn(s: string, start: nat, i: nat)
    requires start <= i < |s| && ModeAt(s, i) == QuoteOf(ModeAt(s, i)) && !OfStderr(s, i) && !Separates(s, i)
    ensures CutFrom(s, start, i) ==
            if Refused(s, i) || MergesAfter(s, i) then None else CutFrom(s, start, NextPos(s, i))
    ensures !Refused(s, i) && !MergesAfter(s, i) ==> !Merged(s, NextPos(s, i))
  {
    TurnModes(s, i);
    var j := NextPos(s, i);
    if !Refused(s, i) {
      if j == i + 2 {
        CutInside(s, start, i + 1);
      } else if j == i + 3 {
        CutInside(s, start, i + 1);
        CutInside(s, start, i + 2);
      }
      if MergesAfter(s, i) {
        assert OfStderr(s, j - 1) && ModeAt(s, j) == Bare;
        assert Refused(s, j);
      } else {
        MergesOnlyAfterTwo(s, i);
      }
    }
  }

  lemma CutInside(s: string, start: nat, i: nat)
    requires start <= i < |s| && !Separates(s, i) && !Refused(s, i)
    ensures CutFrom(s, start, i) == CutFrom(s, start, i + 1)
  {
  }

  lemma MergesOnlyAfterTwo(s: string, i: nat)
    requires i < |s| && ModeAt(s, i) == QuoteOf(ModeAt(s, i)) && !OfStderr(s, i) && !MergesAfter(s, i)
    ensures !Merged(s, NextPos(s, i))
  {
    TurnModes(s, i);
  }

  /** Trims the stages of each segment; `None` for an empty stage in a real pipeline;
      segments without any text are dropped. */
  function Tidy(segments: seq<seq<string>>): Option<seq<seq<string>>> {
    if segments == [] then Some([])
    else TidyOne(Tidy(segments[..|segments| - 1]), TrimAll(segments[|segments| - 1]))
  }

  function TidyOne(acc: Option<seq<seq<string>>>, stages: seq<string>): Option<seq<seq<string>>> {
    if acc == None || (|stages| > 1 && "" in stages) then None
    else if forall x :: x in stages ==> x == "" then acc
    else Some(acc.value + [stages])
  }

  function TrimAll(stages: seq<string>): (r: seq<string>)
    ensures |r| == |stages|
  {
    seq(|stages|, i requires 0 <= i < |stages| => Trim(stages[i]))
  }

  ghost predicate AllUnchained(segments: seq<seq<string>>) {
    forall k, j :: 0 <= k < |segments| && 0 <= j < |segments[k]| ==> !Chained(segments[k][j])
  }

  lemma TrimAllStaysUnchained(stages: seq<string>)
    requires forall j :: 0 <= j < |stages| ==> !Chained(stages[j])
    ensures forall j :: 0 <= j < |stages| ==> !Chained(TrimAll(stages)[j])
  {
    forall j | 0 <= j < |stages| ensures !Chained(TrimAll(stages)[j]) {
      TrimStaysUnchained(stages[j]);
    }
  }

  lemma TidyStaysUnchained(segments: seq<seq<string>>)
    requires AllUnchained(segments) && Tidy(segments).Some?
    ensures AllUnchained(Tidy(segments).value)
  {
    if segments != [] {
      var n := |segments| - 1;
      assert forall k :: 0 <= k < n ==> segments[..n][k] == segments[k];
      TidyStaysUnchained(segments[..n]);
      TrimAllStaysUnchained(segments[n]);
    }
  }

  lemma NestedUnchained(s: string, pieces: seq<string>, seps: seq<string>)
    requires |pieces| == |seps| && forall k :: 0 <= k < |pieces| ==> !Chained(pieces[k])
    ensures AllUnchained(Nest(pieces, seps).0 + [Nest(pieces, seps).1])
  {
    if pieces != [] {
      var n := |pieces| - 1;
      NestedUnchained(s, pieces[..n], seps[..n]);
      var (g, st) := Nest(pieces[..n], seps[..n]);
      assert (g + [st])[|g|] == st;
      assert forall k :: 0 <= k < |g| ==> (g + [st])[k] == g[k];
    }
  }

  /** The scan loop's state: what is cut so far, and an open piece from `start` to `i`. */
  ghost predicate Scanning(s: string, pieces: seq<string>, seps: seq<string>, start: nat, i: nat) {
    && start <= i <= |s| && Cuts(s, pieces, seps) && start == |Rebuild(pieces, seps)|
    && ModeAt(s, start) == Bare && (start == 0 || s[start - 1] in {'&', '|', ';'})
    && (forall j :: start <= j < i ==> !Offends(s, j))
    && !OfStderr(s, i)
  }

  lemma KeepScanning(s: string, pieces: seq<string>, seps: seq<string>, start: nat, i: nat)
    requires Scanning(s, pieces, seps, start, i) && i < |s| && ModeAt(s, i) == QuoteOf(ModeAt(s, i))
    requires !Offends(s, i)
    ensures Scanning(s, pieces, seps, start, NextPos(s, i))
  {
    TurnRedirects(s, i);
  }

  /** The loop's whole state: the scan, and the segments and stages read off the cuts. */
  ghost predicate Splitting(s: string, pieces: seq<string>, seps: seq<string>,
                            segments: seq<seq<string>>, stages: seq<string>, start: nat, i: nat) {
    Scanning(s, pieces, seps, start, i) && (segments, stages) == Nest(pieces, seps)
  }

  lemma ScanRestarts(s: string, pieces: seq<string>, seps: seq<string>, start: nat, at: nat, sep: string)
    requires Scanning(s, pieces, seps, start, at) && at < |s| && ModeAt(s, at) == Bare
    requires sep in SEPARATORS && at + |sep| <= |s| && s[at..at + |sep|] == sep
    ensures var n := at + |sep|;
            ModeAt(s, n) == Bare && n > 0 && s[n - 1] in {'&', '|', ';'} && !OfStderr(s, n) && Flags(s, n, false, false)
  {
    var n := at + |sep|;
    assert s[at] == sep[0] && (|sep| == 2 ==> s[at + 1] == sep[1]);
    assert ModeAt(s, at + 1) == Bare;
    assert |sep| == 2 ==> ModeAt(s, at + 2) == Bare;
  }

  lemma CutHere(s: string, pieces: seq<string>, seps: seq<string>,
                segments: seq<seq<string>>, stages: seq<string>, start: nat, at: nat, sep: string)
    requires Splitting(s, pieces, seps, segments, stages, start, at) && at < |s| && ModeAt(s, at) == Bare
    requires sep in SEPARATORS && at + |sep| <= |s| && s[at..at + |sep|] == sep
    ensures var n, piece := at + |sep|, s[start..at];
            Flags(s, n, false, false)
            && Splitting(s, pieces + [piece], seps + [sep],
                         if sep == "|" then segments else segments + [stages + [piece]],
                         if sep == "|" then stages + [piece] else [], n, n)
  {
    ScanRestarts(s, pieces, seps, start, at, sep);
    SliceIsUnchained(s, start, at);
    OneMoreCut(s, pieces, seps, start, at, sep);
  }

  /** One turn of the loop on anything but an unquoted separator; refuses the shapes that
      are not modelled. */
  method SkipChar(s: string, at: nat, single: bool, double: bool)
      returns (ok: bool, i: nat, inSingle: bool, inDouble: bool)
    requires at < |s| && Flags(s, at, single, double) && !OfStderr(s, at) && !Substitutes(s, at)
    requires single || double || s[at] !in {'&', '|', ';'}
    ensures ok <==> !Refused(s, at) && !MergesAfter(s, at)
    ensures ok ==> i == NextPos(s, at) && Flags(s, i, inSingle, inDouble) && !Offends(s, at)
  {
    Turn(s, at, single, double);
    ok, i, inSingle, inDouble := true, at + 1, single, double;
    var c := s[at];
    if inSingle {
      if c == '\'' {
        inSingle := false;
      }
    } else if inDouble {
      if c == '\\' {
        if i < |s| { i := i + 1; }
      } else if c == '"' {
        inDouble := false;
      }
    } else if c == '\'' {
      inSingle := true;
    } else if c == '"' {
      inDouble := true;
    } else if c == '\\' {
      if i < |s| { i := i + 1; }
    } else if c == '2' && CharAt(s, i, '>') {
      i := i + 1;
      if CharAt(s, i, '>') {
        i := i + 1;
      }
      ok := !CharAt(s, i, '&');
    } else if c in {'(', ')', '`', '<', '>'} {
      ok := false;
    }
  }

  /** The scan loop of `split_top_level_segments`: the closed segments, the stages of the
      open one and where its last piece starts, unless the command is refused. */
  method ScanSegments(command: string)
      returns (ok: bool, segments: seq<seq<string>>, stages: seq<string>, start: nat,
               ghost pieces: seq<string>, ghost seps: seq<string>)
    requires !Unmodelled(command)
    ensures ok ==> Splitting(command, pieces, seps, segments, stages, start, |command|)
                   && CutFrom(command, 0, 0) == Some(Cut(pieces, seps, command[start..]))
    ensures !ok ==> CutFrom(command, 0, 0) == None
  {
    segments, stages, start, pieces, seps := [], [], 0, [], [];
    ghost var whole := CutFrom(command, 0, 0);
    CuttingStarts(command);
    var inSingle, inDouble, i := false, false, 0;
    while i < |command|
      invariant i <= |command| && Flags(command, i, inSingle, inDouble)
      invariant Splitting(command, pieces, seps, segments, stages, start, i)
      invariant Cutting(whole, command, pieces, seps, start, i)
    {
      if inSingle || inDouble || command[i] !in {'&', '|', ';'} {
        ok, i, inSingle, inDouble :=
          PassChar(whole, command, i, inSingle, inDouble, pieces, seps, segments, stages, start);
        if !ok {
          return false, segments, stages, start, pieces, seps;
        }
      } else {
        var sep := SeparatorAt(command, i);
        CuttingOn(whole, command, pieces, seps, start, i, sep);
        if sep == "" {
          return false, segments, stages, start, pieces, seps;
        }
        CutHere(command, pieces, seps, segments, stages, start, i, sep);
        var piece := command[start..i];
        stages := stages + [piece];
        if sep != "|" {
          segments, stages := segments + [stages], [];
        }
        i := i + |sep|;
        pieces, seps, start := pieces + [piece], seps + [sep], i;
      }
    }
    ok := !inSingle && !inDouble;
    CutEnds(whole, command, pieces, seps, start);
  }

  lemma CutEnds(whole: Option<Cut>, s: string, pieces: seq<string>, seps: seq<string>, start: nat)
    requires Cutting(whole, s, pieces, seps, start, |s|)
    ensures whole == if QuoteOf(ModeAt(s, |s|)) == Bare then Some(Cut(pieces, seps, s[start..])) else None
  {
    assert pieces + [] == pieces && seps + [] == seps;
  }

  /** `SkipChar` on the loop's state. */
  method PassChar(ghost whole: Option<Cut>, s: string, at: nat, single: bool, double: bool,
                  ghost pieces: seq<string>, ghost seps: seq<string>,
                  ghost segments: seq<seq<string>>, ghost stages: seq<string>, ghost start: nat)
      returns (ok: bool, i: nat, inSingle: bool, inDouble: bool)
    requires !Unmodelled(s) && at < |s| && Flags(s, at, single, double)
    requires Splitting(s, pieces, seps, segments, stages, start, at)
    requires Cutting(whole, s, pieces, seps, start, at)
    requires single || double || s[at] !in {'&', '|', ';'}
    ensures ok ==> at < i <= |s| && Flags(s, i, inSingle, inDouble)
                   && Splitting(s, pieces, seps, segments, stages, start, i)
                   && Cutting(whole, s, pieces, seps, start, i)
    ensures !ok ==> whole == None
  {
    CutTurn(s, start, at);
    ok, i, inSingle, inDouble := SkipChar(s, at, single, double);
    if ok {
      KeepScanning(s, pieces, seps, start, at);
    }
  }

  /** `split_top_level_segments`. On success the untrimmed pieces and the separators spell
      out the command, no separator is quoted or escaped, and no returned stage is chained. */
  method SplitTopLevelSegments(command: string) returns (r: Option<seq<seq<string>>>)
    ensures r == Split(command)
    ensures r.Some? ==> CutFrom(command, 0, 0).Some? && IsCut(command, CutFrom(command, 0, 0).value)
    ensures r.Some? ==> AllUnchained(r.value)
  {
    if Unmodelled(command) {
      return None;
    }
    var ok, segments, stages, start;
    ghost var pieces, seps;
    ok, segments, stages, start, pieces, seps := ScanSegments(command);
    if !ok {
      return None;
    }
    EndScan(command, pieces, seps, start);
    r := TidyAll(segments + [stages + [command[start..]]]);
    if r.Some? {
      TidyStaysUnchained(segments + [stages + [command[start..]]]);
      if |r.value| < 2 && (|r.value| == 0 || |r.value[0]| < 2) {
        r := None;
      }
    }
  }

  /** The pieces and separators of `c` spell out `s`, every separator sits outside quotes
      and escapes, and no piece is chained. */
  ghost predicate IsCut(s: string, c: Cut) {
    Cuts(s, c.pieces, c.seps) && Rebuild(c.pieces, c.seps) + c.last == s && !Chained(c.last)
  }

  lemma EndScan(s: string, pieces: seq<string>, seps: seq<string>, start: nat)
    requires Scanning(s, pieces, seps, start, |s|)
    ensures Rebuild(pieces, seps) + s[start..] == s && !Chained(s[start..])
    ensures AllUnchained(Nest(pieces, seps).0 + [Nest(pieces, seps).1 + [s[start..]]])
  {
    SliceIsUnchained(s, start, |s|);
    assert s[start..|s|] == s[start..];
    assert Rebuild(pieces, seps) == s[..start];
    LastUnchained(s, pieces, seps, s[start..]);
  }

  /** The separator at `i`; none for a lone `&`, which backgrounds, and for `|&`. */
  method SeparatorAt(s: string, i: nat) returns (sep: string)
    requires i < |s| && s[i] in {'&', '|', ';'}
    ensures sep != "" ==> sep in SEPARATORS && i + |sep| <= |s| && s[i..i + |sep|] == sep
    ensures sep == "" <==> (s[i] == '&' && !CharAt(s, i + 1, '&')) || (s[i] == '|' && CharAt(s, i + 1, '&'))
    ensures sep == s[i..i + SepWidth(s, i)]
  {
    if (s[i] == '&' && !CharAt(s, i + 1, '&')) || (s[i] == '|' && CharAt(s, i + 1, '&')) {
      return "";
    }
    sep := if s[i] != ';' && CharAt(s, i + 1, s[i]) then [s[i], s[i]] else [s[i]];
  }

  lemma LastUnchained(s: string, pieces: seq<string>, seps: seq<string>, last: string)
    requires Cuts(s, pieces, seps) && !Chained(last)
    ensures AllUnchained(Nest(pieces, seps).0 + [Nest(pieces, seps).1 + [last]])
  {
    forall k | 0 <= k < |pieces| ensures !Chained(pieces[k]) {
      assert CutAt(s, pieces, seps, k);
    }
    NestedUnchained(s, pieces, seps);
    var (g, st) := Nest(pieces, seps);
    assert (g + [st])[|g|] == st;
    assert forall k :: 0 <= k < |g| ==> (g + [st])[k] == g[k];
  }

  /** The final loop of `split_top_level_segments`. */
  method TidyAll(segments: seq<seq<string>>) returns (r: Option<seq<seq<string>>>)
    ensures r == Tidy(segments)
  {
    var out: seq<seq<string>> := [];
    for i := 0 to |segments|
      invariant Tidy(segments[..i]) == Some(out)
    {
      assert segments[..i + 1][..i] == segments[..i];
      var stages := TrimAll(segments[i]);
      if |stages| > 1 && "" in stages {
        TidyFails(segments, i + 1);
        return None;
      }
      if exists x :: x in stages && x != "" {
        out := out + [stages];
      }
    }
    assert segments[..|segments|] == segments;
    r := Some(out);
  }

  lemma {:induction false} TidyFails(segments: seq<seq<string>>, n: nat)
    requires n <= |segments| && Tidy(segments[..n]) == None
    ensures Tidy(segments) == None
    decreases |segments|
  {
    var m := |segments| - 1;
    if n == |segments| {
      assert segments[..n] == segments;
    } else {
      assert segments[..m][..n] == segments[..n];
      TidyFails(segments[..m], n);
    }
  }
}

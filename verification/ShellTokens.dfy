/** The shell tokenizer of the command hook (`shell_split` in src/hooks.rs, non-Windows). */
module ShellTokens {
  import opened Common
  import opened ShellScan

  const STOPS := {'|', ';', '&', '>', '<'}

  function Flush(cur: string): seq<string> {
    if cur == "" then [] else [cur]
  }

  /** The tokens of `s`, scanned under quoting `q` with `cur` of a token already read. */
  function SplitFrom(s: string, q: Mode, cur: string): seq<string> {
    if s == "" then Flush(cur)
    else
      var c, rest := s[0], s[1..];
      if q == Single then
        if c == '\'' then SplitFrom(rest, Bare, cur) else SplitFrom(rest, Single, cur + [c])
      else if q == Double then
        if c == '"' then SplitFrom(rest, Bare, cur)
        else if c == '\\' && rest != "" && rest[0] in {'"', '\\', '$', '`'} then
          SplitFrom(rest[1..], Double, cur + [rest[0]])
        else SplitFrom(rest, Double, cur + [c])
      else if c == '\'' then SplitFrom(rest, Single, cur)
      else if c == '"' then SplitFrom(rest, Double, cur)
      else if c == '\\' then
        if rest == "" then Flush(cur) else SplitFrom(rest[1..], Bare, cur + [rest[0]])
      else if c in STOPS then Flush(cur)
      else if IsSpace(c) then Flush(cur) + SplitFrom(rest, Bare, "")
      else SplitFrom(rest, Bare, cur + [c])
  }

  function ShellSplit(s: string): seq<string> {
    SplitFrom(s, Bare, "")
  }

  /** The first unquoted, unescaped control or redirect character. */
  ghost predicate FirstStop(s: string, stop: nat) {
    && stop <= |s|
    && (stop < |s| ==> ModeAt(s, stop) == Bare && s[stop] in STOPS)
    && forall j :: 0 <= j < stop && ModeAt(s, j) == Bare ==> s[j] !in STOPS
  }

  /** The escapes inside double quotes differ from the reference automaton only in what
      they emit: `\x` is two turns here and one there, with the same quoting after. */
  ghost predicate InStep(s: string, i: nat, inSingle: bool, inDouble: bool)
    requires i <= |s|
  {
    && !(inSingle && inDouble)
    && QuoteOf(ModeAt(s, i)) == (if inSingle then Single else if inDouble then Double else Bare)
    && (i < |s| ==> ModeAt(s, i) != BareEscape)
    && (ModeAt(s, i) == DoubleEscape && i < |s| ==> s[i] !in {'"', '\\', '$', '`'})
  }

  /** One turn of `SplitFrom` at position `i` of `s`. */
  lemma SplitTurn(s: string, i: nat, q: Mode, cur: string)
    requires i < |s|
    ensures SplitFrom(s[i..], q, cur) ==
            var c := s[i];
            if q == Single then
              if c == '\'' then SplitFrom(s[i + 1..], Bare, cur) else SplitFrom(s[i + 1..], Single, cur + [c])
            else if q == Double then
              if c == '"' then SplitFrom(s[i + 1..], Bare, cur)
              else if c == '\\' && i + 1 < |s| && s[i + 1] in {'"', '\\', '$', '`'} then
                SplitFrom(s[i + 2..], Double, cur + [s[i + 1]])
              else SplitFrom(s[i + 1..], Double, cur + [c])
            else if c == '\'' then SplitFrom(s[i + 1..], Single, cur)
            else if c == '"' then SplitFrom(s[i + 1..], Double, cur)
            else if c == '\\' then
              if i + 1 == |s| then Flush(cur) else SplitFrom(s[i + 2..], Bare, cur + [s[i + 1]])
            else if c in STOPS then Flush(cur)
            else if IsSpace(c) then Flush(cur) + SplitFrom(s[i + 1..], Bare, "")
            else SplitFrom(s[i + 1..], Bare, cur + [c])
  {
    assert s[i..][1..] == s[i + 1..];
    if i + 1 < |s| {
      assert s[i + 1..][1..] == s[i + 2..];
    }
  }

  /** How far one turn goes, and the flags after it. */
  lemma InStepTurn(s: string, i: nat, inSingle: bool, inDouble: bool)
    requires i < |s| && InStep(s, i, inSingle, inDouble)
    ensures var c := s[i];
            var two := i + 1 < |s| && c == '\\' && !inSingle && (inDouble ==> s[i + 1] in {'"', '\\', '$', '`'});
            var j := if two then i + 2 else i + 1;
            && InStep(s, j, if inSingle then c != '\'' else !inDouble && c == '\'',
                            if inDouble then c != '"' else !inSingle && c == '"')
            && (two ==> ModeAt(s, i + 1) != Bare)
  {
    assert ModeAt(s, i + 1) == StepMode(ModeAt(s, i), s[i]);
    if i + 2 <= |s| {
      assert ModeAt(s, i + 2) == StepMode(ModeAt(s, i + 1), s[i + 1]);
    }
  }

  function QuoteFor(inSingle: bool, inDouble: bool): Mode {
    if inSingle then Single else if inDouble then Double else Bare
  }

  /** What the tokens read so far leave to read. */
  predicate Owes(s: string, out: seq<string>, cur: string, inSingle: bool, inDouble: bool, i: nat)
    requires i <= |s|
  {
    ShellSplit(s) == out + SplitFrom(s[i..], QuoteFor(inSingle, inDouble), cur)
  }

  ghost predicate NoStopBefore(s: string, i: nat)
    requires i <= |s|
  {
    forall j :: 0 <= j < i && ModeAt(s, j) == Bare ==> s[j] !in STOPS
  }

  /** The tokenizer's loop invariant. */
  ghost predicate Tokenizing(s: string, out: seq<string>, cur: string, inSingle: bool, inDouble: bool, i: nat) {
    && i <= |s| && InStep(s, i, inSingle, inDouble) && Owes(s, out, cur, inSingle, inDouble, i) && NoStopBefore(s, i)
  }

  /** The turn takes two characters: an escape. */
  predicate TakesTwo(s: string, i: nat, inSingle: bool, inDouble: bool)
    requires i < |s|
  {
    i + 1 < |s| && s[i] == '\\' && !inSingle && (inDouble ==> s[i + 1] in {'"', '\\', '$', '`'})
  }

  /** What one turn does to the tokens. */
  lemma TokenText(s: string, out: seq<string>, cur: string, inSingle: bool, inDouble: bool, i: nat)
    requires i < |s| && !(inSingle && inDouble) && Owes(s, out, cur, inSingle, inDouble, i)
    ensures var c := s[i];
            var bare := !inSingle && !inDouble;
            if bare && c in STOPS then ShellSplit(s) == out + Flush(cur)
            else if TakesTwo(s, i, inSingle, inDouble) then Owes(s, out, cur + [s[i + 1]], inSingle, inDouble, i + 2)
            else if bare && c == '\\' then Owes(s, out, cur, false, false, i + 1)
            else if !inDouble && c == '\'' then Owes(s, out, cur, !inSingle, false, i + 1)
            else if !inSingle && c == '"' then Owes(s, out, cur, false, !inDouble, i + 1)
            else if bare && IsSpace(c) then Owes(s, out + Flush(cur), "", false, false, i + 1)
            else Owes(s, out, cur + [c], inSingle, inDouble, i + 1)
  {
    SplitTurn(s, i, QuoteFor(inSingle, inDouble), cur);
    assert out + (Flush(cur) + SplitFrom(s[i + 1..], Bare, "")) == (out + Flush(cur)) + SplitFrom(s[i + 1..], Bare, "");
  }

  /** What it does to the flags and to where the tokens stop. */
  lemma TokenFlags(s: string, inSingle: bool, inDouble: bool, i: nat)
    requires i < |s| && InStep(s, i, inSingle, inDouble) && NoStopBefore(s, i)
    ensures var c := s[i];
            var bare := !inSingle && !inDouble;
            if bare && c in STOPS then FirstStop(s, i)
            else
              var j := if TakesTwo(s, i, inSingle, inDouble) then i + 2 else i + 1;
              NoStopBefore(s, j)
              && InStep(s, j, if inSingle then c != '\'' else !inDouble && c == '\'',
                              if inDouble then c != '"' else !inSingle && c == '"')
  {
    InStepTurn(s, i, inSingle, inDouble);
  }

  /** `shell_split`: its tokens, and the position it stops at. */
  method Tokenize(s: string) returns (out: seq<string>, ghost stop: nat)
    ensures out == ShellSplit(s) && FirstStop(s, stop)
  {
    out := [];
    var cur, inSingle, inDouble, i := "", false, false, 0;
    assert s[0..] == s;
    while i < |s|
      invariant Tokenizing(s, out, cur, inSingle, inDouble, i)
    {
      TokenText(s, out, cur, inSingle, inDouble, i);
      TokenFlags(s, inSingle, inDouble, i);
      var c := s[i];
      i := i + 1;
      if inSingle {
        if c == '\'' {
          inSingle := false;
        } else {
          cur := cur + [c];
        }
      } else if inDouble {
        if c == '"' {
          inDouble := false;
        } else if c == '\\' && i < |s| && s[i] in {'"', '\\', '$', '`'} {
          cur := cur + [s[i]];
          i := i + 1;
        } else {
          cur := cur + [c];
        }
      } else if c == '\'' {
        inSingle := true;
      } else if c == '"' {
        inDouble := true;
      } else if c == '\\' {
        if i < |s| {
          cur := cur + [s[i]];
          i := i + 1;
        }
      } else if c in STOPS {
        return out + Flush(cur), i - 1;
      } else if IsSpace(c) {
        out, cur := out + Flush(cur), "";
      } else {
        cur := cur + [c];
      }
    }
    assert s[i..] == "";
    out, stop := out + Flush(cur), |s|;
  }

  /** On a line without chained commands the tokenizer stops early only at an unquoted `<`,
      or at the `>` of an unquoted `2>`. */
  lemma UnchainedStopsOnlyAtRedirects(s: string, stop: nat)
    requires !Chained(s) && FirstStop(s, stop) && stop < |s|
    ensures s[stop] == '<' || (s[stop] == '>' && BareTwo(s, stop - 1))
  {
    assert !Offends(s, stop);
    if BareTwo(s, stop - 2) {
      assert ModeAt(s, stop - 1) == StepMode(ModeAt(s, stop - 2), s[stop - 2]);
    }
  }

  // ---------------------------------------------------- single-quote printing

  /** The inside of a single-quoted word: a quote becomes `'\''`. */
  function Escaped(t: string): string {
    if t == "" then "" else (if t[0] == '\'' then "'\\''" else [t[0]]) + Escaped(t[1..])
  }

  function Quoted(t: string): string {
    "'" + (Escaped(t) + "'")
  }

  function Print(tokens: seq<string>): string {
    if tokens == [] then "" else Quoted(tokens[0]) + (" " + Print(tokens[1..]))
  }

  function NonEmpty(tokens: seq<string>): seq<string> {
    if tokens == [] then [] else Flush(tokens[0]) + NonEmpty(tokens[1..])
  }

  /** `'\''`: close, escaped quote, reopen. */
  lemma EscapedQuote(tail: string, cur: string)
    ensures SplitFrom("'\\''" + tail, Single, cur) == SplitFrom(tail, Single, cur + ['\''])
  {
    var s0 := "'\\''" + tail;
    var s1 := "\\''" + tail;
    var s2 := "''" + tail;
    var s3 := "'" + tail;
    assert s0[1..] == s1 && s1[1..] == s2 && s2[1..] == s3 && s3[1..] == tail;
    assert SplitFrom(s0, Single, cur) == SplitFrom(s1, Bare, cur);
    assert s2[0] == '\'' && SplitFrom(s1, Bare, cur) == SplitFrom(s3, Bare, cur + ['\'']);
  }

  lemma {:induction false} EscapedReadsBack(t: string, rest: string, cur: string)
    ensures SplitFrom(Escaped(t) + ("'" + rest), Single, cur) == SplitFrom(rest, Bare, cur + t)
    decreases |t|
  {
    var s := Escaped(t) + ("'" + rest);
    if t == "" {
      assert s == "'" + rest && s[1..] == rest && cur + t == cur;
    } else {
      var tail := Escaped(t[1..]) + ("'" + rest);
      EscapedReadsBack(t[1..], rest, cur + [t[0]]);
      assert cur + [t[0]] + t[1..] == cur + t;
      if t[0] == '\'' {
        assert s == "'\\''" + tail;
        EscapedQuote(tail, cur);
      } else {
        assert s == [t[0]] + tail && s[1..] == tail;
      }
    }
  }

  /** Tokenizing undoes single-quote printing. Empty tokens are the one thing it loses. */
  lemma {:induction false} PrintReadsBack(tokens: seq<string>)
    ensures ShellSplit(Print(tokens)) == NonEmpty(tokens)
    ensures ShellSplit(Print(tokens)) == tokens <==> forall k :: 0 <= k < |tokens| ==> tokens[k] != ""
    decreases |tokens|
  {
    NonEmptyIsSame(tokens);
    if tokens != [] {
      var t, rest := tokens[0], " " + Print(tokens[1..]);
      var s := Print(tokens);
      assert s[1..] == Escaped(t) + ("'" + rest);
      EscapedReadsBack(t, rest, "");
      assert "" + t == t && rest[1..] == Print(tokens[1..]);
      PrintReadsBack(tokens[1..]);
    }
  }

  lemma NonEmptyIsSame(tokens: seq<string>)
    ensures |NonEmpty(tokens)| <= |tokens|
    ensures NonEmpty(tokens) == tokens <==> forall k :: 0 <= k < |tokens| ==> tokens[k] != ""
  {
    if tokens != [] {
      NonEmptyIsSame(tokens[1..]);
      assert tokens == [tokens[0]] + tokens[1..];
      if tokens[0] != "" {
        assert NonEmpty(tokens)[1..] == NonEmpty(tokens[1..]);
        assert (forall k :: 0 <= k < |tokens| ==> tokens[k] != "")
            <==> (forall k :: 0 <= k < |tokens[1..]| ==> tokens[1..][k] != "") by {
          assert forall k :: 0 < k < |tokens| ==> tokens[k] == tokens[1..][k - 1];
        }
      }
    }
  }

  // ------------------------------------------------------- the other quotings

  /** What a backslash escapes inside double quotes. */
  predicate EscapedInDouble(c: char) {
    c == '"' || c == '\\' || c == '$' || c == '`'
  }

  /** The inside of a double-quoted word. */
  function DoubleEscaped(t: string): string {
    if t == "" then "" else (if EscapedInDouble(t[0]) then ['\\', t[0]] else [t[0]]) + DoubleEscaped(t[1..])
  }

  /** A backslash before every character. */
  function Backslashed(t: string): string {
    if t == "" then "" else ['\\', t[0]] + Backslashed(t[1..])
  }

  lemma EscapedPair(c: char, tail: string, q: Mode, cur: string)
    requires q == Bare || (q == Double && EscapedInDouble(c))
    ensures SplitFrom(['\\', c] + tail, q, cur) == SplitFrom(tail, q, cur + [c])
  {
    var s := ['\\', c] + tail;
    assert s[1..] == [c] + tail && s[1..][1..] == tail;
  }

  /** Any other backslash inside double quotes stands for itself. */
  lemma OtherPair(c: char, tail: string, cur: string)
    requires !EscapedInDouble(c)
    ensures SplitFrom(['\\', c] + tail, Double, cur) == SplitFrom(tail, Double, cur + ['\\', c])
  {
    var s := ['\\', c] + tail;
    assert s[1..] == [c] + tail && ([c] + tail)[1..] == tail;
    assert cur + ['\\'] + [c] == cur + ['\\', c];
  }

  lemma OneInDouble(c: char, tail: string, cur: string)
    requires !EscapedInDouble(c)
    ensures SplitFrom([c] + tail, Double, cur) == SplitFrom(tail, Double, cur + [c])
  {
    assert ([c] + tail)[1..] == tail;
  }

  lemma {:induction false} DoubleReadsBack(t: string, rest: string, cur: string)
    ensures SplitFrom(DoubleEscaped(t) + (['"'] + rest), Double, cur) == SplitFrom(rest, Bare, cur + t)
    decreases |t|
  {
    var s := DoubleEscaped(t) + (['"'] + rest);
    if t == "" {
      assert s == ['"'] + rest && s[1..] == rest && cur + t == cur;
    } else {
      var tail := DoubleEscaped(t[1..]) + (['"'] + rest);
      DoubleReadsBack(t[1..], rest, cur + [t[0]]);
      assert cur + [t[0]] + t[1..] == cur + t;
      if EscapedInDouble(t[0]) {
        assert s == ['\\', t[0]] + tail;
        EscapedPair(t[0], tail, Double, cur);
      } else {
        assert s == [t[0]] + tail;
        OneInDouble(t[0], tail, cur);
      }
    }
  }

  lemma {:induction false} BackslashReadsBack(t: string, rest: string, cur: string)
    ensures SplitFrom(Backslashed(t) + rest, Bare, cur) == SplitFrom(rest, Bare, cur + t)
    decreases |t|
  {
    if t == "" {
      assert Backslashed(t) + rest == rest && cur + t == cur;
    } else {
      var tail := Backslashed(t[1..]) + rest;
      BackslashReadsBack(t[1..], rest, cur + [t[0]]);
      assert cur + [t[0]] + t[1..] == cur + t;
      assert Backslashed(t) + rest == ['\\', t[0]] + tail;
      EscapedPair(t[0], tail, Bare, cur);
    }
  }

  datatype Style = InSingle | InDouble | AfterBackslashes

  function Written(t: string, style: Style): string {
    match style
    case InSingle => Quoted(t)
    case InDouble => ['"'] + (DoubleEscaped(t) + ['"'])
    case AfterBackslashes => Backslashed(t)
  }

  /** The words, each in its own style, a space behind each. */
  function WordsLine(words: seq<(string, Style)>): string {
    if words == [] then "" else Written(words[0].0, words[0].1) + ([' '] + WordsLine(words[1..]))
  }

  function Said(words: seq<(string, Style)>): seq<string> {
    if words == [] then [] else [words[0].0] + Said(words[1..])
  }

  lemma OpensQuote(inside: string, rest: string, q: char)
    requires q == '\'' || q == '"'
    ensures SplitFrom([q] + (inside + [q]) + rest, Bare, "")
            == SplitFrom(inside + ([q] + rest), if q == '"' then Double else Single, "")
  {
    var s := [q] + (inside + [q]) + rest;
    assert s[1..] == inside + ([q] + rest);
  }

  lemma WordReadsBack(t: string, style: Style, rest: string)
    ensures SplitFrom(Written(t, style) + rest, Bare, "") == SplitFrom(rest, Bare, t)
  {
    match style {
      case InSingle => SingleWord(t, rest);
      case InDouble =>
        OpensQuote(DoubleEscaped(t), rest, '"');
        DoubleReadsBack(t, rest, "");
        Unappended(t);
      case AfterBackslashes =>
        BackslashReadsBack(t, rest, "");
        Unappended(t);
    }
  }

  lemma SingleWord(t: string, rest: string)
    ensures SplitFrom(Quoted(t) + rest, Bare, "") == SplitFrom(rest, Bare, t)
  {
    OpensQuote(Escaped(t), rest, '\'');
    assert "'" == ['\''];
    EscapedReadsBack(t, rest, "");
    Unappended(t);
  }

  lemma Unappended(t: string)
    ensures "" + t == t
  {
  }

  lemma SpaceEndsWord(rest: string, cur: string)
    ensures SplitFrom([' '] + rest, Bare, cur) == Flush(cur) + SplitFrom(rest, Bare, "")
  {
    assert ([' '] + rest)[1..] == rest;
  }

  /** Words in single quotes, in double quotes or escaped character by character are all read
      back as what they say. */
  lemma {:induction false} EveryStyleReadsBack(words: seq<(string, Style)>)
    ensures ShellSplit(WordsLine(words)) == NonEmpty(Said(words))
    decreases |words|
  {
    if words != [] {
      var (t, style) := words[0];
      var rest := [' '] + WordsLine(words[1..]);
      EveryStyleReadsBack(words[1..]);
      WordReadsBack(t, style, rest);
      SpaceEndsWord(WordsLine(words[1..]), t);
      assert Said(words) == [t] + Said(words[1..]) && Said(words)[1..] == Said(words[1..]);
    }
  }
}

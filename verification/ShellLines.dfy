/**
 Splitting a batch undoes spelling it out (`split_top_level_segments` in src/hooks.rs):
 plain stages joined by pipes, and pipelines joined by `&&`, `||` or `;`.
 */
module ShellLines {
  import opened Common
  import opened ShellScan

  /** A character without meaning to the splitter; white space is one. */
  predicate PlainChar(c: char) {
    c !in {'\'', '"', '\\', '&', '|', ';', '(', ')', '`', '<', '>', '$', '\n'}
  }

  /** A stage of plain characters, with text and no white space around it. */
  predicate PlainStage(t: string) {
    t != "" && Trim(t) == t && forall c :: c in t ==> PlainChar(c)
  }

  predicate PlainBatch(segs: seq<seq<string>>) {
    forall k :: 0 <= k < |segs| ==> segs[k] != [] && forall j :: 0 <= j < |segs[k]| ==> PlainStage(segs[k][j])
  }

  predicate Operators(ops: seq<string>) {
    forall k :: 0 <= k < |ops| ==> ops[k] in {"&&", "||", ";"}
  }

  /** The stages of one pipeline with pipes between them. */
  function Pipeline(stages: seq<string>): string {
    if stages == [] then "" else if |stages| == 1 then stages[0] else stages[0] + ("|" + Pipeline(stages[1..]))
  }

  /** The pipelines with the operators between them. */
  function Batch(segs: seq<seq<string>>, ops: seq<string>): string
    requires |segs| == |ops| + 1
  {
    if ops == [] then Pipeline(segs[0]) else Pipeline(segs[0]) + (ops[0] + Batch(segs[1..], ops[1..]))
  }

  // -------------------------------------------------------------- one piece

  lemma {:induction false} PlainRun(s: string, start: nat, i: nat, j: nat)
    requires start <= i <= j <= |s| && ModeAt(s, i) == Bare
    requires forall k :: i <= k < j ==> PlainChar(s[k])
    ensures ModeAt(s, j) == Bare && CutFrom(s, start, i) == CutFrom(s, start, j)
    decreases j - i
  {
    if i < j {
      assert PlainChar(s[i]) && ModeAt(s, i + 1) == StepMode(Bare, s[i]) == Bare;
      PlainRun(s, start, i + 1, j);
    }
  }

  /** A separator between plain characters. */
  lemma AtSeparator(s: string, start: nat, i: nat, sep: string)
    requires start <= i && i + |sep| <= |s| && sep in SEPARATORS && s[i..i + |sep|] == sep && ModeAt(s, i) == Bare
    requires i > 0 && s[i - 1] != '>' && (i + |sep| < |s| ==> PlainChar(s[i + |sep|]))
    ensures var n := i + |sep|;
            ModeAt(s, n) == Bare && CutFrom(s, start, i) == Behind([s[start..i]], [sep], CutFrom(s, n, n))
  {
    var n := i + |sep|;
    assert s[i] == sep[0] && (|sep| == 2 ==> s[i + 1] == sep[1]);
    assert ModeAt(s, i + 1) == StepMode(Bare, s[i]) == Bare;
    assert |sep| == 2 ==> ModeAt(s, i + 2) == Bare;
    assert !Merged(s, i) && Separates(s, i) && SepWidth(s, i) == |sep|;
    CutAtSeparator(s, start, i);
  }

  /** `s` goes on from `at` with `text`. */
  predicate Reads(s: string, at: nat, text: string) {
    at <= |s| && s[at..] == text
  }

  lemma PieceThenSeparator(s: string, at: nat, piece: string, sep: string, rest: string)
    requires Reads(s, at, piece + (sep + rest)) && ModeAt(s, at) == Bare && sep in SEPARATORS
    requires piece != "" && (forall c :: c in piece ==> PlainChar(c)) && (rest != "" ==> PlainChar(rest[0]))
    ensures var n := at + |piece| + |sep|;
            && Reads(s, n, rest) && ModeAt(s, n) == Bare
            && CutFrom(s, at, at) == Behind([piece], [sep], CutFrom(s, n, n))
  {
    var i, n := at + |piece|, at + |piece| + |sep|;
    ReadsPieces(s, at, piece, sep, rest);
    PlainRun(s, at, at, i);
    AtSeparator(s, at, i, sep);
  }

  lemma ReadsPieces(s: string, at: nat, piece: string, sep: string, rest: string)
    requires Reads(s, at, piece + (sep + rest)) && (forall c :: c in piece ==> PlainChar(c))
    ensures var i, n := at + |piece|, at + |piece| + |sep|;
            && n <= |s| && s[at..i] == piece && s[i..n] == sep && Reads(s, n, rest)
            && (forall k :: at <= k < i ==> PlainChar(s[k])) && (rest != "" ==> n < |s| && s[n] == rest[0])
            && (rest == "" ==> n == |s|)
  {
    var i, n := at + |piece|, at + |piece| + |sep|;
    var t := s[at..];
    assert t[..|piece|] == piece && t[|piece|..] == sep + rest;
    assert s[at..i] == piece && s[i..n] == sep && s[n..] == rest;
    forall k | at <= k < i ensures PlainChar(s[k]) {
      assert s[k] == piece[k - at] && piece[k - at] in piece;
    }
  }

  lemma LastPiece(s: string, at: nat, piece: string)
    requires Reads(s, at, piece) && ModeAt(s, at) == Bare && forall c :: c in piece ==> PlainChar(c)
    ensures CutFrom(s, at, at) == Some(Cut([], [], piece))
  {
    assert forall k :: at <= k < |s| ==> s[k] == s[at..][k - at] && s[k] in piece;
    PlainRun(s, at, at, |s|);
  }

  // --------------------------------------------------- segments of a longer cut

  /** A pipe puts its piece in front of the first segment, another separator makes it one. */
  function InFront(piece: string, sep: string, segs: seq<seq<string>>): seq<seq<string>>
    requires segs != []
  {
    if sep == "|" then [[piece] + segs[0]] + segs[1..] else [[piece]] + segs
  }

  lemma NestOne(piece: string, sep: string)
    ensures Nest([piece], [sep]) == if sep == "|" then ([], [piece]) else ([[piece]], [])
    ensures InFront(piece, sep, [[]]) == if sep == "|" then [[piece]] else [[piece], []]
  {
    var none: seq<string>, closed: seq<seq<string>> := [], [];
    assert [piece][..0] == none && [sep][..0] == none && Nest(none, none) == (closed, none);
    assert none + [piece] == [piece] == [piece] + none && closed + [[piece]] == [[piece]];
  }

  lemma {:induction false} NestInFront(piece: string, sep: string, pieces: seq<string>, seps: seq<string>)
    requires |pieces| == |seps|
    ensures var (g, st) := Nest(pieces, seps);
            var (h, su) := Nest([piece] + pieces, [sep] + seps);
            h + [su] == InFront(piece, sep, g + [st])
    decreases |pieces|
  {
    var ps, qs := [piece] + pieces, [sep] + seps;
    if pieces == [] {
      assert ps[..0] == [] && qs[..0] == [];
      assert ps == [piece] && qs == [sep];
      NestOne(piece, sep);
    } else {
      var n := |pieces| - 1;
      assert ps[..n + 1] == [piece] + pieces[..n] && qs[..n + 1] == [sep] + seps[..n];
      NestInFront(piece, sep, pieces[..n], seps[..n]);
      var (g, st) := Nest(pieces[..n], seps[..n]);
      var (h, su) := Nest(ps[..n + 1], qs[..n + 1]);
      assert Nest(ps, qs) == (if seps[n] == "|" then (h, su + [pieces[n]]) else (h + [su + [pieces[n]]], []));
      InFrontGrows(piece, sep, g, st, h, su, pieces[n]);
    }
  }

  lemma InFrontGrows(piece: string, sep: string, g: seq<seq<string>>, st: seq<string>,
                     h: seq<seq<string>>, su: seq<string>, more: string)
    requires h + [su] == InFront(piece, sep, g + [st])
    ensures h + [su + [more]] == InFront(piece, sep, g + [st + [more]])
    ensures h + [su + [more]] + [[]] == InFront(piece, sep, g + [st + [more]] + [[]])
  {
    var a, b := g + [st], g + [st + [more]];
    assert |h| + 1 == |InFront(piece, sep, a)|;
    assert (h + [su])[|h|] == su && forall k :: 0 <= k < |h| ==> (h + [su])[k] == h[k];
    if g == [] && sep == "|" {
      assert su == [piece] + st;
      assert ([piece] + st) + [more] == [piece] + (st + [more]);
    }
  }

  lemma SegmentsInFront(piece: string, sep: string, c: Cut)
    requires |c.pieces| == |c.seps|
    ensures var d := Cut([piece] + c.pieces, [sep] + c.seps, c.last);
            Segments(c) != [] && Segments(d) == InFront(piece, sep, Segments(c))
  {
    var (g, st) := Nest(c.pieces, c.seps);
    var (h, su) := Nest([piece] + c.pieces, [sep] + c.seps);
    NestInFront(piece, sep, c.pieces, c.seps);
    InFrontGrows(piece, sep, g, st, h, su, c.last);
  }

  // ------------------------------------------------------------- the whole batch

  /** The cut from `at` on gives these segments. */
  predicate CutsInto(s: string, at: nat, segs: seq<seq<string>>) {
    at <= |s| && CutFrom(s, at, at).Some? && Segments(CutFrom(s, at, at).value) == segs
  }

  lemma OnePieceFirst(s: string, at: nat, piece: string, sep: string, rest: string, segs: seq<seq<string>>)
    requires Reads(s, at, piece + (sep + rest)) && ModeAt(s, at) == Bare && sep in SEPARATORS
    requires piece != "" && (forall c :: c in piece ==> PlainChar(c)) && (rest != "" ==> PlainChar(rest[0]))
    requires CutsInto(s, at + |piece| + |sep|, segs)
    ensures segs != [] && CutsInto(s, at, InFront(piece, sep, segs))
  {
    PieceThenSeparator(s, at, piece, sep, rest);
    var n := at + |piece| + |sep|;
    SegmentsInFront(piece, sep, CutFrom(s, n, n).value);
  }

  lemma {:induction false} BatchStartsPlain(segs: seq<seq<string>>, ops: seq<string>)
    requires |segs| == |ops| + 1 && PlainBatch(segs)
    ensures Batch(segs, ops) != "" && Batch(segs, ops)[0] == segs[0][0][0] && PlainChar(Batch(segs, ops)[0])
  {
    assert PlainStage(segs[0][0]);
  }

  lemma TailIsPlain(segs: seq<seq<string>>)
    requires PlainBatch(segs) && segs != []
    ensures PlainBatch(segs[1..])
    ensures |segs[0]| > 1 ==> PlainBatch([segs[0][1..]] + segs[1..])
  {
    var t := [segs[0][1..]] + segs[1..];
    forall k, j | 0 <= k < |t| && |segs[0]| > 1 && 0 <= j < |t[k]| ensures PlainStage(t[k][j]) {
      if k == 0 { assert t[k][j] == segs[0][j + 1]; } else { assert t[k] == segs[k]; }
    }
    assert forall k :: 0 < k < |t| ==> t[k] == segs[k];
  }

  /** The batch without its first stage, when a pipe follows that. */
  lemma PipedBatch(segs: seq<seq<string>>, ops: seq<string>)
    requires |segs| == |ops| + 1 && |segs[0]| > 1
    ensures Batch(segs, ops) == segs[0][0] + ("|" + Batch([segs[0][1..]] + segs[1..], ops))
  {
    var t := [segs[0][1..]] + segs[1..];
    assert t[0] == segs[0][1..] && t[1..] == segs[1..];
  }

  /** Behind the first piece and its separator the rest is read, outside quotes. */
  lemma GoesOn(s: string, at: nat, piece: string, sep: string, rest: string) returns (n: nat)
    requires Reads(s, at, piece + (sep + rest)) && ModeAt(s, at) == Bare && sep in SEPARATORS
    requires PlainStage(piece) && (rest != "" ==> PlainChar(rest[0]))
    ensures n == at + |piece| + |sep| > at && Reads(s, n, rest) && ModeAt(s, n) == Bare
  {
    n := at + |piece| + |sep|;
    PieceThenSeparator(s, at, piece, sep, rest);
  }

  lemma {:induction false} BatchIsCut(s: string, at: nat, segs: seq<seq<string>>, ops: seq<string>)
    requires |segs| == |ops| + 1 && PlainBatch(segs) && Operators(ops)
    requires Reads(s, at, Batch(segs, ops)) && ModeAt(s, at) == Bare
    ensures CutsInto(s, at, segs)
    decreases |s| - at
  {
    assert PlainStage(segs[0][0]);
    if |segs[0]| > 1 {
      PipedIsCut(s, at, segs, ops);
    } else if ops == [] {
      assert segs[0] == [segs[0][0]];
      LastPiece(s, at, segs[0][0]);
      OnlyPiece(segs[0][0]);
      assert segs == [[segs[0][0]]];
    } else {
      OperatorIsCut(s, at, segs, ops);
    }
  }

  lemma {:induction false} PipedIsCut(s: string, at: nat, segs: seq<seq<string>>, ops: seq<string>)
    requires |segs| == |ops| + 1 && PlainBatch(segs) && Operators(ops) && |segs[0]| > 1
    requires Reads(s, at, Batch(segs, ops)) && ModeAt(s, at) == Bare
    ensures CutsInto(s, at, segs)
    decreases |s| - at, 0
  {
    var tail := [segs[0][1..]] + segs[1..];
    assert PlainStage(segs[0][0]);
    PipedBatch(segs, ops);
    TailIsPlain(segs);
    BatchStartsPlain(tail, ops);
    var n := GoesOn(s, at, segs[0][0], "|", Batch(tail, ops));
    BatchIsCut(s, n, tail, ops);
    OnePieceFirst(s, at, segs[0][0], "|", Batch(tail, ops), tail);
    FirstBack(segs);
  }

  lemma {:induction false} OperatorIsCut(s: string, at: nat, segs: seq<seq<string>>, ops: seq<string>)
    requires |segs| == |ops| + 1 && PlainBatch(segs) && Operators(ops) && |segs[0]| == 1 && ops != []
    requires Reads(s, at, Batch(segs, ops)) && ModeAt(s, at) == Bare
    ensures CutsInto(s, at, segs)
    decreases |s| - at, 0
  {
    var piece, rest := segs[0][0], Batch(segs[1..], ops[1..]);
    assert PlainStage(piece) && segs[0] == [piece];
    TailIsPlain(segs);
    BatchStartsPlain(segs[1..], ops[1..]);
    assert Operators(ops[1..]);
    var n := GoesOn(s, at, piece, ops[0], rest);
    BatchIsCut(s, n, segs[1..], ops[1..]);
    OnePieceFirst(s, at, piece, ops[0], rest, segs[1..]);
    assert [[piece]] + segs[1..] == segs;
  }

  lemma OnlyPiece(piece: string)
    ensures Segments(Cut([], [], piece)) == [[piece]]
  {
    assert Nest([], []) == ([], []) && [] + [piece] == [piece] && [] + [[piece]] == [[piece]];
  }

  lemma FirstBack(segs: seq<seq<string>>)
    requires segs != [] && |segs[0]| > 1
    ensures InFront(segs[0][0], "|", [segs[0][1..]] + segs[1..]) == segs
  {
    var t := [segs[0][1..]] + segs[1..];
    assert t[1..] == segs[1..] && [segs[0][0]] + t[0] == segs[0];
  }

  lemma {:induction false} TidyKeepsPlain(segs: seq<seq<string>>)
    requires PlainBatch(segs)
    ensures Tidy(segs) == Some(segs)
    decreases |segs|
  {
    if segs != [] {
      var n := |segs| - 1;
      assert forall k :: 0 <= k < n ==> segs[..n][k] == segs[k];
      TidyKeepsPlain(segs[..n]);
      assert forall j :: 0 <= j < |segs[n]| ==> PlainStage(segs[n][j]);
      assert TrimAll(segs[n]) == segs[n] && segs[n][0] in segs[n];
      assert segs[..n] + [segs[n]] == segs;
    }
  }

  lemma {:induction false} PipelineIsModelled(stages: seq<string>)
    requires forall j :: 0 <= j < |stages| ==> PlainStage(stages[j])
    ensures forall c :: c in Pipeline(stages) ==> c !in {'`', '\n', '$'}
    decreases |stages|
  {
    if |stages| > 1 { PipelineIsModelled(stages[1..]); }
  }

  lemma {:induction false} BatchIsModelled(segs: seq<seq<string>>, ops: seq<string>)
    requires |segs| == |ops| + 1 && PlainBatch(segs) && Operators(ops)
    ensures forall c :: c in Batch(segs, ops) ==> c !in {'`', '\n', '$'}
    decreases |segs|
  {
    PipelineIsModelled(segs[0]);
    if ops != [] {
      TailIsPlain(segs);
      assert Operators(ops[1..]);
      BatchIsModelled(segs[1..], ops[1..]);
      assert forall c :: c in ops[0] ==> c in {'&', '|', ';'};
    }
  }

  lemma SplitOfCut(s: string, segs: seq<seq<string>>)
    requires CutsInto(s, 0, segs) && Tidy(segs) == Some(segs) && segs != [] && segs[0] != []
    requires forall c :: c in s ==> c !in {'`', '\n', '$'}
    ensures Split(s) == if |segs| == 1 && |segs[0]| == 1 then None else Some(segs)
  {
    forall i | 0 <= i < |s| ensures s[i] != '$' {
      assert s[i] in s;
    }
  }

  /** A batch of more than one plain stage splits into the pipelines it was spelled from,
      stage by stage; one plain stage does not split. */
  lemma SplitUndoesBatch(segs: seq<seq<string>>, ops: seq<string>)
    requires |segs| == |ops| + 1 && PlainBatch(segs) && Operators(ops)
    ensures Split(Batch(segs, ops)) == if |segs| == 1 && |segs[0]| == 1 then None else Some(segs)
  {
    var s := Batch(segs, ops);
    BatchIsModelled(segs, ops);
    assert s[0..] == s;
    BatchIsCut(s, 0, segs, ops);
    TidyKeepsPlain(segs);
    SplitOfCut(s, segs);
  }

  // ------------------------------------------------------ what never splits

  /** Outside quotes: no subshell, and no redirect but that of standard error. */
  predicate SimpleAt(s: string, i: nat)
    requires i < |s|
  {
    ModeAt(s, i) == Bare ==>
      s[i] != '(' && s[i] != ')' && s[i] != '`' && s[i] != '<'
      && (s[i] == '>' ==> i > 0 && (s[i - 1] == '2' || s[i - 1] == '>'))
  }

  lemma {:induction false} CutIsSimple(s: string, start: nat, i: nat, k: nat)
    requires start <= i <= k < |s| && CutFrom(s, start, i).Some?
    ensures SimpleAt(s, k)
    decreases |s| - i
  {
    if Separates(s, i) {
      var n := i + SepWidth(s, i);
      if n <= k { CutIsSimple(s, n, n, k); }
    } else if i < k {
      CutIsSimple(s, start, i + 1, k);
    }
  }

  lemma {:induction false} CutEndsUnquoted(s: string, start: nat, i: nat)
    requires start <= i <= |s| && CutFrom(s, start, i).Some?
    ensures ModeAt(s, |s|) in {Bare, BareEscape}
    decreases |s| - i
  {
    if i < |s| {
      if Separates(s, i) {
        var n := i + SepWidth(s, i);
        CutEndsUnquoted(s, n, n);
      } else {
        CutEndsUnquoted(s, start, i + 1);
      }
    }
  }

  lemma SplitHasCut(s: string)
    requires Split(s).Some?
    ensures !Unmodelled(s) && CutFrom(s, 0, 0).Some?
  {
  }

  lemma Modelled(s: string, i: nat)
    requires !Unmodelled(s) && i < |s|
    ensures s[i] != '\n' && s[i] != '`' && !(s[i] == '$' && i + 1 < |s| && s[i + 1] == '(')
  {
    assert s[i] in s;
    assert s[i] == '$' ==> !CharAt(s, i + 1, '(');
  }

  /** A command that splits closes its quotes and has no newline, no substitution, no
      subshell and no redirect of its input or its output. */
  lemma SplitIsSimple(s: string)
    requires Split(s).Some?
    ensures ModeAt(s, |s|) in {Bare, BareEscape}
    ensures forall i :: 0 <= i < |s| ==>
              SimpleAt(s, i) && s[i] != '\n' && s[i] != '`' && !(s[i] == '$' && i + 1 < |s| && s[i + 1] == '(')
  {
    SplitHasCut(s);
    CutEndsUnquoted(s, 0, 0);
    forall i | 0 <= i < |s|
      ensures SimpleAt(s, i) && s[i] != '\n' && s[i] != '`' && !(s[i] == '$' && i + 1 < |s| && s[i + 1] == '(')
    {
      CutIsSimple(s, 0, 0, i);
      Modelled(s, i);
    }
  }
}

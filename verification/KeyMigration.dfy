/**
 The one-time canonicalisation of project keys (src/global_db.rs): rows naming one
 directory several ways are merged by summing, relative ones dropped, and the savings
 ledger is re-pointed one UPDATE at a time.
 */
module KeyMigration {
  import opened Common

  // ------------------------------------------------ the textual normaliser

  predicate StartsWith(s: string, p: string) {
    p <= s
  }

  const VERBATIM_UNC := "\\\\?\\UNC\\"
  const VERBATIM := "\\\\?\\"

  function StripVerbatim(s: string): (r: string) {
    if StartsWith(s, VERBATIM_UNC) then "\\\\" + s[|VERBATIM_UNC|..]
    else if StartsWith(s, VERBATIM) then s[|VERBATIM|..]
    else s
  }

  predicate IsAsciiLetter(c: char) {
    'a' <= c <= 'z' || 'A' <= c <= 'Z'
  }

  predicate HasDrive(s: string) {
    |s| >= 2 && IsAsciiLetter(s[0]) && s[1] == ':'
  }

  function UpperDrive(s: string): string {
    if HasDrive(s) && 'a' <= s[0] <= 'z' then [s[0] - 'a' + 'A'] + s[1..] else s
  }

  function RootLen(s: string): nat {
    if |s| >= 3 && HasDrive(s) then 3 else 1
  }

  predicate IsSeparator(c: char) {
    c == '/' || c == '\\'
  }

  function TrimTo(s: string, rootLen: nat): (r: string)
    ensures r <= s && (|s| >= rootLen ==> |r| >= rootLen)
    ensures |r| <= rootLen || !IsSeparator(r[|r| - 1])
  {
    if |s| > rootLen && IsSeparator(s[|s| - 1]) then TrimTo(s[..|s| - 1], rootLen) else s
  }

  /** `normalize_key_string` without its first step. */
  function Fold(s: string): string {
    var u := UpperDrive(s);
    TrimTo(u, RootLen(u))
  }

  /** `normalize_key_string`, editing the string in place. */
  method NormalizeKeyString(path: string) returns (s: string)
    ensures s == Fold(StripVerbatim(path))
  {
    s := path;
    if StartsWith(s, VERBATIM_UNC) {
      s := "\\\\" + s[|VERBATIM_UNC|..];
    } else if StartsWith(s, VERBATIM) {
      s := s[|VERBATIM|..];
    }
    if HasDrive(s) && 'a' <= s[0] <= 'z' {
      s := [s[0] - 'a' + 'A'] + s[1..];
    }
    var rootLen := RootLen(s);
    ghost var u := s;
    while |s| > rootLen && IsSeparator(s[|s| - 1])
      invariant TrimTo(s, rootLen) == TrimTo(u, rootLen)
    {
      s := s[..|s| - 1];
    }
  }

  function Normalize(path: string): string {
    Fold(StripVerbatim(path))
  }

  /** `plain` is `path` without its verbatim prefix, a UNC one leaving two backslashes. */
  predicate Unverbatim(path: string, plain: string) {
    if StartsWith(path, VERBATIM_UNC) then
      |plain| >= 2 && plain[0] == '\\' && plain[1] == '\\' && path == VERBATIM_UNC + plain[2..]
    else if StartsWith(path, VERBATIM) then path == VERBATIM + plain
    else path == plain
  }

  /** The same letter, in upper case. */
  predicate UpperOf(c: char, u: char) {
    if 'a' <= c <= 'z' then u as int == c as int - 32 else u == c
  }

  /** `key` is `plain` with its drive letter in upper case and without the separators at its
      end, but for those of its root: the first character, or a drive and its separator. */
  predicate KeyOf(plain: string, key: string) {
    var drive := |plain| >= 2 && ('a' <= plain[0] <= 'z' || 'A' <= plain[0] <= 'Z') && plain[1] == ':';
    var root := if drive && |plain| >= 3 then 3 else 1;
    && |key| <= |plain|
    && (forall k :: 0 <= k < |key| ==> if drive && k == 0 then UpperOf(plain[0], key[0]) else key[k] == plain[k])
    && (forall k :: |key| <= k < |plain| ==> plain[k] in {'/', '\\'})
    && (|key| < |plain| ==> |key| >= root)
    && (|key| > root ==> key[|key| - 1] !in {'/', '\\'})
  }

  /** `r` is `s` without the separators at its end, down to `root` characters. */
  predicate CutTo(s: string, root: nat, r: string) {
    r <= s && (|r| < |s| ==> |r| >= root) && (|r| > root ==> !IsSeparator(r[|r| - 1]))
    && forall k :: |r| <= k < |s| ==> IsSeparator(s[k])
  }

  lemma {:induction false} TrimCuts(s: string, root: nat)
    ensures CutTo(s, root, TrimTo(s, root))
    decreases |s|
  {
    if |s| > root && IsSeparator(s[|s| - 1]) {
      TrimCuts(s[..|s| - 1], root);
    }
  }

  lemma FoldIsKey(s: string)
    ensures KeyOf(s, Fold(s))
  {
    var u := UpperDrive(s);
    assert |u| == |s| && forall k :: 1 <= k < |s| ==> u[k] == s[k];
    TrimCuts(u, RootLen(u));
  }

  lemma StripIsPlain(path: string)
    ensures Unverbatim(path, StripVerbatim(path))
  {
    var s := StripVerbatim(path);
    if StartsWith(path, VERBATIM_UNC) {
      PrefixAndRest(path, VERBATIM_UNC);
      assert s[2..] == path[|VERBATIM_UNC|..];
    } else if StartsWith(path, VERBATIM) {
      PrefixAndRest(path, VERBATIM);
    }
  }

  lemma PrefixAndRest(s: string, p: string)
    requires p <= s
    ensures s == p + s[|p|..]
  {
  }

  /** The normaliser's answer, said of the characters. */
  lemma NormalizeIsKey(path: string)
    ensures exists plain :: Unverbatim(path, plain) && KeyOf(plain, Normalize(path))
  {
    FoldIsKey(StripVerbatim(path));
    StripIsPlain(path);
  }

  /** ... which leaves no choice. */
  lemma KeyIsUnique(path: string, p: string, q: string, a: string, b: string)
    requires Unverbatim(path, p) && Unverbatim(path, q) && KeyOf(p, a) && KeyOf(q, b)
    ensures p == q && a == b
  {
    SamePlain(path, p, q);
    SameLength(p, a, b);
    SameLength(p, b, a);
    assert forall k :: 0 <= k < |a| ==> a[k] == b[k];
  }

  lemma SamePlain(path: string, p: string, q: string)
    requires Unverbatim(path, p) && Unverbatim(path, q)
    ensures p == q
  {
    if StartsWith(path, VERBATIM_UNC) {
      assert p[2..] == path[|VERBATIM_UNC|..] == q[2..];
      assert p == p[..2] + p[2..] && q == q[..2] + q[2..];
    } else if StartsWith(path, VERBATIM) {
      assert p == path[|VERBATIM|..] == q;
    }
  }

  lemma LastIsText(plain: string, key: string)
    requires KeyOf(plain, key)
    requires |key| > 3 || (|key| > 1 && !(HasDrive(plain) && |plain| >= 3))
    ensures plain[|key| - 1] !in {'/', '\\'}
  {
    assert key[|key| - 1] == plain[|key| - 1];
  }

  lemma SameLength(plain: string, a: string, b: string)
    requires KeyOf(plain, a) && KeyOf(plain, b)
    ensures |a| <= |b|
  {
    if |b| < |a| {
      LastIsText(plain, a);
    }
  }

  lemma FoldIsIdempotent(s: string)
    ensures Fold(Fold(s)) == Fold(s)
  {
    var u := UpperDrive(s);
    assert UpperDrive(u) == u;
    var t := TrimTo(u, RootLen(u));
    assert UpperDrive(t) == t;
    if |t| >= 3 {
      assert HasDrive(t) == HasDrive(u);
    }
  }

  predicate HasText(s: string) {
    exists i :: 0 <= i < |s| && !IsSeparator(s[i])
  }

  /** A verbatim path whose own text, after the prefix, is a verbatim path again. */
  predicate TwiceVerbatim(path: string) {
    (StartsWith(path, VERBATIM + VERBATIM) && HasText(path[8..]))
    || (StartsWith(path, VERBATIM_UNC + "?\\") && HasText(path[10..]))
  }

  lemma TrimStopsAtText(s: string, i: nat)
    requires 1 <= i <= |s|
    ensures |TrimTo(s, 1)| > i <==> HasText(s[i..])
  {
    var t := TrimTo(s, 1);
    if |t| > i {
      assert !IsSeparator(s[i..][|t| - 1 - i]);
    } else if HasText(s[i..]) {
      var k :| 0 <= k < |s[i..]| && !IsSeparator(s[i..][k]);
      TrimKeepsText(s, i + k);
    }
  }

  lemma {:induction false} TrimKeepsText(s: string, i: nat)
    requires 1 <= i < |s| && !IsSeparator(s[i])
    ensures |TrimTo(s, 1)| > i
    decreases |s|
  {
    if IsSeparator(s[|s| - 1]) {
      TrimKeepsText(s[..|s| - 1], i);
    }
  }

  /** What is folded starts with the verbatim prefix exactly when that prefix and some text
      were there before. */
  lemma FoldKeepsVerbatim(s: string)
    ensures StartsWith(Fold(s), VERBATIM) <==> StartsWith(s, VERBATIM) && HasText(s[4..])
  {
    if StartsWith(s, VERBATIM) {
      assert s[0] == '\\' && !HasDrive(s) && Fold(s) == TrimTo(s, 1);
      TrimStopsAtText(s, 4);
      if |s| > 4 && HasText(s[4..]) {
        assert TrimTo(s, 1)[..4] == s[..4];
      } else {
        TrimSlashed(s);
      }
    } else {
      var u := UpperDrive(s);
      assert Fold(s) <= u && (HasDrive(s) ==> u[0] != '\\');
    }
  }

  /** The bare prefix loses its last separator. */
  lemma TrimSlashed(s: string)
    requires |s| >= 4 && !HasText(s[4..]) && IsSeparator(s[3])
    ensures |TrimTo(s, 1)| < 4
  {
    assert forall k :: 4 <= k < |s| ==> s[k] == s[4..][k - 4];
  }

  lemma StripThenVerbatim(path: string)
    ensures var s := StripVerbatim(path);
            StartsWith(s, VERBATIM) && HasText(s[4..]) <==> TwiceVerbatim(path)
  {
    var s := StripVerbatim(path);
    if StartsWith(path, VERBATIM_UNC) {
      assert path[4] == 'U' && (VERBATIM + VERBATIM)[4] == '\\';
      assert |s| >= 2 && s == "\\\\" + path[8..];
      UncThenVerbatim(path, s);
    } else if StartsWith(path, VERBATIM) {
      assert s == path[4..];
      DoubledVerbatim(path, s);
      assert (VERBATIM_UNC + "?\\")[..8] == VERBATIM_UNC;
    } else {
      assert (VERBATIM + VERBATIM)[..4] == VERBATIM && (VERBATIM_UNC + "?\\")[..8] == VERBATIM_UNC;
    }
  }

  lemma DoubledVerbatim(path: string, s: string)
    requires StartsWith(path, VERBATIM) && s == path[4..]
    ensures StartsWith(s, VERBATIM) <==> StartsWith(path, VERBATIM + VERBATIM)
    ensures |s| >= 4 ==> s[4..] == path[8..]
  {
    if StartsWith(s, VERBATIM) {
      assert path == VERBATIM + s && s == VERBATIM + s[4..];
      assert path == (VERBATIM + VERBATIM) + s[4..];
    }
  }

  lemma UncThenVerbatim(path: string, s: string)
    requires StartsWith(path, VERBATIM_UNC) && s == "\\\\" + path[8..]
    ensures StartsWith(s, VERBATIM) <==> StartsWith(path, VERBATIM_UNC + "?\\")
    ensures |s| >= 4 ==> s[4..] == path[10..]
  {
    var rest := path[8..];
    assert path == VERBATIM_UNC + rest;
    assert s[0] == '\\' && s[1] == '\\' && forall k :: 2 <= k < |s| ==> s[k] == rest[k - 2];
    if StartsWith(s, VERBATIM) {
      assert rest[0] == s[2] == '?' && rest[1] == s[3] == '\\';
      assert rest == "?\\" + rest[2..];
      assert path == (VERBATIM_UNC + "?\\") + rest[2..];
    }
  }

  /** Normalising twice is normalising once if and only if the path is not verbatim twice. */
  lemma NormalizeIsIdempotentIff(path: string)
    ensures Normalize(Normalize(path)) == Normalize(path) <==> !TwiceVerbatim(path)
  {
    var n := Normalize(path);
    FoldKeepsVerbatim(StripVerbatim(path));
    StripThenVerbatim(path);
    FoldIsIdempotent(StripVerbatim(path));
    if StartsWith(n, VERBATIM) {
      assert |StripVerbatim(n)| < |n|;
    } else {
      assert VERBATIM_UNC[..|VERBATIM|] == VERBATIM;
    }
  }

  const DOUBLED := "\\\\?\\\\\\?\\x"
  const UNC_TWICE := "\\\\?\\UNC\\?\\x"
  const BARE_TWICE := "\\\\?\\\\\\?\\"

  lemma VerbatimShapes()
    ensures TwiceVerbatim(DOUBLED) && TwiceVerbatim(UNC_TWICE) && !TwiceVerbatim(BARE_TWICE)
  {
    var a, b, c := DOUBLED, UNC_TWICE, BARE_TWICE;
    assert a == VERBATIM + VERBATIM + "x" && a[8..] == "x" && !IsSeparator(a[8..][0]);
    assert b == VERBATIM_UNC + "?\\" + "x" && b[10..] == "x" && !IsSeparator(b[10..][0]);
    assert c[8..] == [] && c[4] != 'U' && (VERBATIM_UNC + "?\\")[4] == 'U';
  }

  predicate FixedTwice(path: string) {
    Normalize(Normalize(path)) == Normalize(path)
  }

  /** A doubled prefix, and a UNC prefix before the rest of a verbatim one; and a bare
      doubled prefix, which is safe because nothing but separators follows. */
  lemma VerbatimInputs()
    ensures !FixedTwice(DOUBLED) && !FixedTwice(UNC_TWICE) && FixedTwice(BARE_TWICE)
  {
    VerbatimShapes();
    FixedTwiceIff(DOUBLED);
    FixedTwiceIff(UNC_TWICE);
    FixedTwiceIff(BARE_TWICE);
  }

  lemma FixedTwiceIff(path: string)
    ensures FixedTwice(path) <==> !TwiceVerbatim(path)
  {
    NormalizeIsIdempotentIff(path);
  }

  // ------------------------------------------------------------ the tables

  datatype LedgerRow = LedgerRow(path: string, saved: int)

  /** The two decisions taken per path, kept abstract: they ask the platform. */
  datatype Paths = Paths(isAbsolute: string -> bool, normalize: string -> string)

  ghost predicate IdempotentOn(ps: Paths, rows: seq<(string, int)>) {
    forall i :: 0 <= i < |rows| ==>
      ps.normalize(ps.normalize(rows[i].0)) == ps.normalize(rows[i].0)
  }

  /** Which statements fail; the failures after the DELETE are ignored. */
  datatype Faults = Faults(
    select: bool, delete: bool, insert: string -> bool, update: string -> bool, flag: bool)

  predicate NoFaults(f: Faults, rows: seq<(string, int)>, ps: Paths) {
    !f.select && !f.delete && !f.flag && forall i :: 0 <= i < |rows| ==>
      !f.insert(ps.normalize(rows[i].0)) && !f.update(rows[i].0)
  }

  /** What is read of a table: reading stops at a row that fails and skips one whose columns
      do not convert. */
  predicate IsPart(rows: seq<(string, int)>, table: map<string, int>) {
    && (forall i :: 0 <= i < |rows| ==> rows[i].0 in table && table[rows[i].0] == rows[i].1)
    && (forall i, j :: 0 <= i < j < |rows| ==> rows[i].0 != rows[j].0)
  }

  predicate IsListing(rows: seq<(string, int)>, table: map<string, int>) {
    IsPart(rows, table) && forall k :: k in table ==> (k, table[k]) in rows
  }

  function KeysOf(rows: seq<(string, int)>): set<string> {
    set row | row in rows :: row.0
  }

  /** The rows of the table that were not read. */
  function Unread(rows: seq<(string, int)>, table: map<string, int>): map<string, int> {
    table - KeysOf(rows)
  }

  function Absolute(table: map<string, int>, ps: Paths): map<string, int> {
    map k | k in table && ps.isAbsolute(k) :: table[k]
  }

  /** Tokens of the absolute rows whose canonical key is `key`. */
  function SumFor(rows: seq<(string, int)>, ps: Paths, key: string): int {
    if rows == [] then 0
    else
      var (p, n) := rows[|rows| - 1];
      SumFor(rows[..|rows| - 1], ps, key) + if ps.isAbsolute(p) && ps.normalize(p) == key then n else 0
  }

  function SumAbsolute(rows: seq<(string, int)>, ps: Paths): int {
    if rows == [] then 0
    else
      var (p, n) := rows[|rows| - 1];
      SumAbsolute(rows[..|rows| - 1], ps) + if ps.isAbsolute(p) then n else 0
  }

  ghost predicate HasKey(rows: seq<(string, int)>, ps: Paths, key: string) {
    exists i :: 0 <= i < |rows| && ps.isAbsolute(rows[i].0) && ps.normalize(rows[i].0) == key
  }

  ghost function Total(m: map<string, int>): int
    decreases |m|
  {
    if m == map[] then 0 else
      var k :| k in m;
      m[k] + Total(m - {k})
  }

  lemma TotalWithout(m: map<string, int>, k: string)
    requires k in m
    ensures Total(m) == m[k] + Total(m - {k})
    decreases |m|
  {
    var j :| j in m && Total(m) == m[j] + Total(m - {j});
    if j != k {
      TotalWithout(m - {j}, k);
      TotalWithout(m - {k}, j);
      assert m - {j} - {k} == m - {k} - {j};
    }
  }

  lemma TotalUpdate(m: map<string, int>, k: string, n: int)
    ensures Total(m[k := n]) == Total(m) + n - if k in m then m[k] else 0
  {
    TotalWithout(m[k := n], k);
    assert m[k := n] - {k} == m - {k};
    if k in m {
      TotalWithout(m, k);
    } else {
      assert m - {k} == m;
    }
  }

  // ------------------------------------------------------------ the ledger

  function RenameOne(ledger: seq<LedgerRow>, from: string, to: string): (r: seq<LedgerRow>)
    ensures |r| == |ledger|
  {
    seq(|ledger|, i requires 0 <= i < |ledger| =>
      if ledger[i].path == from then ledger[i].(path := to) else ledger[i])
  }

  /** The UPDATE statements, one after the other. */
  function RenameInOrder(ledger: seq<LedgerRow>, pairs: seq<(string, string)>): (r: seq<LedgerRow>)
    ensures |r| == |ledger|
    decreases |pairs|
  {
    if pairs == [] then ledger
    else RenameInOrder(RenameOne(ledger, pairs[0].0, pairs[0].1), pairs[1..])
  }

  predicate Moves(pairs: seq<(string, string)>, path: string) {
    exists i :: 0 <= i < |pairs| && pairs[i].0 == path
  }

  /** Every moving row renamed at once. */
  function RenameTogether(ledger: seq<LedgerRow>, pairs: seq<(string, string)>, normalize: string -> string)
      : (r: seq<LedgerRow>)
    ensures |r| == |ledger|
  {
    seq(|ledger|, i requires 0 <= i < |ledger| =>
      if Moves(pairs, ledger[i].path) then ledger[i].(path := normalize(ledger[i].path)) else ledger[i])
  }

  ghost predicate Canonical(pairs: seq<(string, string)>, normalize: string -> string) {
    forall i :: 0 <= i < |pairs| ==>
      pairs[i].1 == normalize(pairs[i].0) != pairs[i].0 && normalize(pairs[i].1) == pairs[i].1
  }

  /** With an idempotent normaliser no target is itself a source, so the one-at-a-time
      updates equal the simultaneous renaming, whatever their order. */
  lemma {:induction false} OrderOfUpdatesIsIrrelevant(
      ledger: seq<LedgerRow>, pairs: seq<(string, string)>, normalize: string -> string)
    requires Canonical(pairs, normalize)
    ensures RenameInOrder(ledger, pairs) == RenameTogether(ledger, pairs, normalize)
    decreases |pairs|
  {
    if pairs == [] {
      NothingMoves(ledger, pairs, normalize);
    } else {
      var (from, to) := pairs[0];
      var rest := pairs[1..];
      OrderOfUpdatesIsIrrelevant(RenameOne(ledger, from, to), rest, normalize);
      assert !Moves(rest, to);
      forall path
        ensures Moves(pairs, path) <==> path == from || Moves(rest, path)
      {
        if Moves(rest, path) {
          var i :| 0 <= i < |rest| && rest[i].0 == path;
          assert pairs[i + 1].0 == path;
        }
        assert path == from ==> pairs[0].0 == path;
      }
      assert RenameTogether(RenameOne(ledger, from, to), rest, normalize)
          == RenameTogether(ledger, pairs, normalize);
    }
  }

  /** One row per canonical key of an absolute row, holding the sum of its spellings. */
  ghost predicate IsMerged(m: map<string, int>, rows: seq<(string, int)>, ps: Paths) {
    && (forall k :: k in m <==> HasKey(rows, ps, k))
    && (forall k :: k in m ==> m[k] == SumFor(rows, ps, k))
    && Total(m) == SumAbsolute(rows, ps)
  }

  function MergeOne(m: map<string, int>, ps: Paths, row: (string, int)): map<string, int> {
    if !ps.isAbsolute(row.0) then m
    else
      var key := ps.normalize(row.0);
      m[key := (if key in m then m[key] else 0) + row.1]
  }

  lemma SumStep(rows: seq<(string, int)>, ps: Paths, i: nat, key: string)
    requires i < |rows|
    ensures SumFor(rows[..i + 1], ps, key) == SumFor(rows[..i], ps, key)
              + if ps.isAbsolute(rows[i].0) && ps.normalize(rows[i].0) == key then rows[i].1 else 0
    ensures SumAbsolute(rows[..i + 1], ps)
            == SumAbsolute(rows[..i], ps) + if ps.isAbsolute(rows[i].0) then rows[i].1 else 0
  {
    assert rows[..i + 1][..i] == rows[..i] && rows[..i + 1][i] == rows[i];
  }

  lemma MergeKeys(m: map<string, int>, rows: seq<(string, int)>, ps: Paths, i: nat)
    requires i < |rows| && IsMerged(m, rows[..i], ps)
    ensures forall k :: k in MergeOne(m, ps, rows[i]) <==> HasKey(rows[..i + 1], ps, k)
  {
    OneMore(rows, ps, i);
  }

  lemma MergeSum(m: map<string, int>, rows: seq<(string, int)>, ps: Paths, i: nat, k: string)
    requires i < |rows| && IsMerged(m, rows[..i], ps) && k in MergeOne(m, ps, rows[i])
    ensures MergeOne(m, ps, rows[i])[k] == SumFor(rows[..i + 1], ps, k)
  {
    SumStep(rows, ps, i, k);
    if k !in m { NoKeyNoSum(rows[..i], ps, k); }
  }

  lemma MergeTotal(m: map<string, int>, rows: seq<(string, int)>, ps: Paths, i: nat)
    requires i < |rows| && Total(m) == SumAbsolute(rows[..i], ps)
    ensures Total(MergeOne(m, ps, rows[i])) == SumAbsolute(rows[..i + 1], ps)
  {
    var (path, n) := rows[i];
    var key := ps.normalize(path);
    SumStep(rows, ps, i, key);
    TotalUpdate(m, key, (if key in m then m[key] else 0) + n);
  }

  lemma MergeStep(m: map<string, int>, rows: seq<(string, int)>, ps: Paths, i: nat)
    requires i < |rows| && IsMerged(m, rows[..i], ps)
    ensures IsMerged(MergeOne(m, ps, rows[i]), rows[..i + 1], ps)
  {
    MergeKeys(m, rows, ps, i);
    MergeTotal(m, rows, ps, i);
    var m' := MergeOne(m, ps, rows[i]);
    forall k | k in m' ensures m'[k] == SumFor(rows[..i + 1], ps, k) {
      MergeSum(m, rows, ps, i, k);
    }
  }

  /** The merging loop: sums per canonical key, the keys that move, and whether any row
      is dropped. */
  method MergeRows(rows: seq<(string, int)>, ps: Paths)
      returns (remapped: seq<(string, string)>, merged: map<string, int>, dropped: bool)
    ensures remapped == Remapped(rows, ps) && dropped == Dropped(rows, ps)
    ensures IsMerged(merged, rows, ps)
  {
    remapped, merged, dropped := [], map[], false;
    for i := 0 to |rows|
      invariant remapped == Remapped(rows[..i], ps) && dropped == Dropped(rows[..i], ps)
      invariant IsMerged(merged, rows[..i], ps)
    {
      var (path, tokens) := rows[i];
      OneMore(rows, ps, i);
      MergeStep(merged, rows, ps, i);
      if !ps.isAbsolute(path) {
        dropped := true;
        continue;
      }
      var key := ps.normalize(path);
      if key != path {
        remapped := remapped + [(path, key)];
      }
      merged := merged[key := (if key in merged then merged[key] else 0) + tokens];
    }
    assert rows[..|rows|] == rows;
  }

  // --------------------------------------------------------- the migration

  datatype Store = Store(projects: map<string, int>, ledger: seq<LedgerRow>, normalized: bool)

  /** The store after a migration that computed `merged` from `rows`. */
  function AfterMigration(s: Store, rows: seq<(string, int)>, ps: Paths, f: Faults, merged: map<string, int>): Store {
    if s.normalized || f.select then s
    else if Remapped(rows, ps) == [] && !Dropped(rows, ps) then s.(normalized := !f.flag)
    else if f.delete then s
    else Store(Inserted(merged, f.insert),
               RenameInOrder(s.ledger, Applied(Remapped(rows, ps), f.update)), !f.flag)
  }

  class GlobalStore {
    var projects: map<string, int>
    var ledger: seq<LedgerRow>
    var normalized: bool

    function View(): Store
      reads this
    {
      Store(projects, ledger, normalized)
    }

    /** `migrate_project_paths`; `rows` is what the SELECT returns. */
    method MigrateProjectPaths(rows: seq<(string, int)>, ps: Paths, f: Faults) returns (merged: map<string, int>)
      modifies this
      ensures IsMerged(merged, rows, ps)
      ensures View() == AfterMigration(old(View()), rows, ps, f, merged)
    {
      var remapped, dropped;
      remapped, merged, dropped := MergeRows(rows, ps);
      if normalized || f.select {
        return;
      }
      if remapped != [] || dropped {
        if f.delete {
          return;
        }
        projects := Inserted(merged, f.insert);
        RewriteLedger(remapped, f.update);
      }
      if !f.flag {
        normalized := true;
      }
    }

    method RewriteLedger(remapped: seq<(string, string)>, fails: string -> bool)
      modifies this`ledger
      ensures ledger == RenameInOrder(old(ledger), Applied(remapped, fails))
    {
      for i := 0 to |remapped|
        invariant RenameInOrder(ledger, Applied(remapped[i..], fails))
               == RenameInOrder(old(ledger), Applied(remapped, fails))
      {
        var (from, to) := remapped[i];
        assert remapped[i..][0] == remapped[i] && remapped[i..][1..] == remapped[i + 1..];
        ghost var next := Applied(remapped[i + 1..], fails);
        assert Applied(remapped[i..], fails) == if fails(from) then next else [remapped[i]] + next;
        assert ([remapped[i]] + next)[1..] == next;
        if !fails(from) {
          ledger := RenameOne(ledger, from, to);
        }
      }
    }
  }

  /** The key under which a ledger row is found: its project's, if that row was read. */
  ghost function KeyFor(rows: seq<(string, int)>, ps: Paths, path: string): string {
    if exists i :: 0 <= i < |rows| && rows[i].0 == path && ps.isAbsolute(path) then ps.normalize(path) else path
  }

  lemma RemappedIff(rows: seq<(string, int)>, ps: Paths, q: (string, string))
    ensures q in Remapped(rows, ps) <==>
              (exists i :: 0 <= i < |rows| && rows[i].0 == q.0) && ps.isAbsolute(q.0) && q.1 == ps.normalize(q.0) != q.0
  {
    if rows != [] {
      var n := |rows| - 1;
      RemappedIff(rows[..n], ps, q);
      assert forall i :: 0 <= i < n ==> rows[..n][i] == rows[i];
    }
  }

  lemma RenamedPerRow(ledger: seq<LedgerRow>, rows: seq<(string, int)>, ps: Paths)
    ensures var r := RenameTogether(ledger, Remapped(rows, ps), ps.normalize);
            forall i :: 0 <= i < |ledger| ==> r[i] == ledger[i].(path := KeyFor(rows, ps, ledger[i].path))
  {
    var pairs := Remapped(rows, ps);
    var r := RenameTogether(ledger, pairs, ps.normalize);
    forall i | 0 <= i < |ledger| ensures r[i] == ledger[i].(path := KeyFor(rows, ps, ledger[i].path)) {
      var p := ledger[i].path;
      RemappedIff(rows, ps, (p, ps.normalize(p)));
      if Moves(pairs, p) {
        var j :| 0 <= j < |pairs| && pairs[j].0 == p;
        assert pairs[j] in pairs;
        RemappedIff(rows, ps, pairs[j]);
      }
    }
  }

  /** With no failing statement and an idempotent normaliser, the projects table ends with
      one row per canonical key holding the sum of its spellings, no token of an absolute
      row is lost, and the ledger rows of every moved project follow it. */
  lemma MigrationConserves(s: Store, rows: seq<(string, int)>, ps: Paths, f: Faults, merged: map<string, int>)
    requires IsListing(rows, s.projects) && IsMerged(merged, rows, ps)
    requires !s.normalized && IdempotentOn(ps, rows) && NoFaults(f, rows, ps)
    ensures var s' := AfterMigration(s, rows, ps, f, merged);
            s'.normalized && s'.projects == merged && Total(s'.projects) == SumAbsolute(rows, ps)
            && s'.ledger == RenameTogether(s.ledger, Remapped(rows, ps), ps.normalize)
    ensures var s' := AfterMigration(s, rows, ps, f, merged);
            |s'.ledger| == |s.ledger|
            && forall i :: 0 <= i < |s.ledger| ==>
                 s'.ledger[i] == s.ledger[i].(path := KeyFor(rows, ps, s.ledger[i].path))
  {
    RenamedPerRow(s.ledger, rows, ps);
    if Remapped(rows, ps) == [] && !Dropped(rows, ps) {
      AlreadyCanonical(rows, ps, s.projects, merged);
      NothingMoves(s.ledger, Remapped(rows, ps), ps.normalize);
    } else {
      AllInserted(rows, ps, f, merged);
      RemappedIsCanonical(rows, ps);
      NoUpdateFails(s.ledger, Remapped(rows, ps), rows, ps, f);
      OrderOfUpdatesIsIrrelevant(s.ledger, Remapped(rows, ps), ps.normalize);
    }
  }

  /** There is something to rewrite: a row moves or is dropped. */
  predicate Work(rows: seq<(string, int)>, ps: Paths) {
    Remapped(rows, ps) != [] || Dropped(rows, ps)
  }

  predicate AbsoluteKeys(rows: seq<(string, int)>, ps: Paths) {
    forall i :: 0 <= i < |rows| && ps.isAbsolute(rows[i].0) ==> ps.isAbsolute(ps.normalize(rows[i].0))
  }

  lemma MovedRow(rows: seq<(string, int)>, ps: Paths)
    requires Work(rows, ps)
    ensures exists i :: 0 <= i < |rows| && (!ps.isAbsolute(rows[i].0) || ps.normalize(rows[i].0) != rows[i].0)
  {
    if Remapped(rows, ps) != [] {
      RemappedMember(rows, ps);
      assert Remapped(rows, ps)[0] in Remapped(rows, ps);
    }
  }

  /** With something to rewrite, the store is left as it was if and only if the SELECT or
      the DELETE fails, and is tried again exactly then or when the flag cannot be set. */
  lemma LeftAsItWasIff(s: Store, rows: seq<(string, int)>, ps: Paths, f: Faults, merged: map<string, int>)
    requires IsPart(rows, s.projects) && IsMerged(merged, rows, ps) && !s.normalized && Work(rows, ps)
    requires IdempotentOn(ps, rows) && AbsoluteKeys(rows, ps)
    ensures AfterMigration(s, rows, ps, f, merged) == s <==> f.select || f.delete
    ensures !AfterMigration(s, rows, ps, f, merged).normalized <==> f.select || f.delete || f.flag
  {
    if !f.select && !f.delete {
      MovedRow(rows, ps);
      var i :| 0 <= i < |rows| && (!ps.isAbsolute(rows[i].0) || ps.normalize(rows[i].0) != rows[i].0);
      var p := rows[i].0;
      assert !HasKey(rows, ps, p);
      assert p in s.projects && p !in Inserted(merged, f.insert);
    }
  }

  /** The table's absolute rows hold what was read and what was not. */
  lemma {:induction false} ReadAndUnread(rows: seq<(string, int)>, table: map<string, int>, ps: Paths)
    requires IsPart(rows, table)
    ensures Total(Absolute(table, ps)) == SumAbsolute(rows, ps) + Total(Absolute(Unread(rows, table), ps))
    decreases |rows|
  {
    if rows == [] {
      assert Unread(rows, table) == table;
    } else {
      var n := |rows| - 1;
      ReadAndUnread(rows[..n], table, ps);
      OneMoreRead(rows, table);
      AbsoluteWithout(Unread(rows[..n], table), rows[n].0, ps);
    }
  }

  lemma AbsoluteWithout(m: map<string, int>, k: string, ps: Paths)
    requires k in m
    ensures Total(Absolute(m, ps)) == Total(Absolute(m - {k}, ps)) + if ps.isAbsolute(k) then m[k] else 0
  {
    if ps.isAbsolute(k) {
      TotalWithout(Absolute(m, ps), k);
      assert Absolute(m, ps) - {k} == Absolute(m - {k}, ps);
    } else {
      assert Absolute(m, ps) == Absolute(m - {k}, ps);
    }
  }

  lemma OneMoreRead(rows: seq<(string, int)>, table: map<string, int>)
    requires IsPart(rows, table) && rows != []
    ensures var n := |rows| - 1;
            var (p, tokens) := rows[n];
            && p in Unread(rows[..n], table) && Unread(rows[..n], table)[p] == tokens
            && Unread(rows, table) == Unread(rows[..n], table) - {p}
  {
    var n := |rows| - 1;
    assert rows == rows[..n] + [rows[n]];
    assert KeysOf(rows) == KeysOf(rows[..n]) + {rows[n].0};
    forall row | row in rows[..n] ensures row.0 != rows[n].0 {
      var i :| 0 <= i < n && rows[..n][i] == row;
    }
  }

  predicate NonNegative(m: map<string, int>) {
    forall k :: k in m ==> m[k] >= 0
  }

  predicate HoldsNone(m: map<string, int>) {
    forall k :: k in m ==> m[k] == 0
  }

  lemma {:induction false} TotalIsZeroIff(m: map<string, int>)
    requires NonNegative(m)
    ensures Total(m) >= 0 && (Total(m) == 0 <==> HoldsNone(m))
    decreases |m|
  {
    if m != map[] {
      var k :| k in m;
      TotalWithout(m, k);
      TotalIsZeroIff(m - {k});
      assert forall j :: j in m && j != k ==> j in m - {k} && m[j] == (m - {k})[j];
    }
  }

  lemma {:induction false} SumsAreNonNegative(rows: seq<(string, int)>, ps: Paths, key: string)
    requires forall i :: 0 <= i < |rows| ==> rows[i].1 >= 0
    ensures SumFor(rows, ps, key) >= 0
    decreases |rows|
  {
    if rows != [] { SumsAreNonNegative(rows[..|rows| - 1], ps, key); }
  }

  /** Once the DELETE succeeded, exactly the tokens of the absolute rows that were not read
      and of the failing keys are gone: the absolute total is kept if and only if both hold
      none. When the flag is set as well, no later run makes up for them. */
  lemma TokensConservedIff(s: Store, rows: seq<(string, int)>, ps: Paths, f: Faults, merged: map<string, int>)
    requires !s.normalized && IsPart(rows, s.projects) && IsMerged(merged, rows, ps) && Work(rows, ps)
    requires !f.select && !f.delete
    ensures var s' := AfterMigration(s, rows, ps, f, merged);
            var unread, lost := Absolute(Unread(rows, s.projects), ps), Lost(merged, f.insert);
            && Total(s'.projects) == Total(Absolute(s.projects, ps)) - Total(unread) - Total(lost)
            && (NonNegative(s.projects) ==>
                  (Total(s'.projects) == Total(Absolute(s.projects, ps)) <==> HoldsNone(unread) && HoldsNone(lost)))
            && (!f.flag ==> forall g :: AfterMigration(s', rows, ps, g, merged) == s')
  {
    TotalSplits(merged, f.insert);
    ReadAndUnread(rows, s.projects, ps);
    if NonNegative(s.projects) { NothingIsNegative(s, rows, ps, f, merged); }
  }

  lemma NothingIsNegative(s: Store, rows: seq<(string, int)>, ps: Paths, f: Faults, merged: map<string, int>)
    requires IsPart(rows, s.projects) && IsMerged(merged, rows, ps) && NonNegative(s.projects)
    ensures var unread, lost := Absolute(Unread(rows, s.projects), ps), Lost(merged, f.insert);
            && Total(unread) >= 0 && (Total(unread) == 0 <==> HoldsNone(unread))
            && Total(lost) >= 0 && (Total(lost) == 0 <==> HoldsNone(lost))
  {
    forall k | k in merged ensures merged[k] >= 0 {
      SumsAreNonNegative(rows, ps, k);
    }
    TotalIsZeroIff(Absolute(Unread(rows, s.projects), ps));
    TotalIsZeroIff(Lost(merged, f.insert));
  }

  /** The ledger follows its projects if and only if no UPDATE fails whose old key is in it. */
  lemma LedgerFollowsIff(s: Store, rows: seq<(string, int)>, ps: Paths, f: Faults, merged: map<string, int>)
    requires !s.normalized && IdempotentOn(ps, rows) && Work(rows, ps) && !f.select && !f.delete
    ensures var pairs := Remapped(rows, ps);
            AfterMigration(s, rows, ps, f, merged).ledger == RenameTogether(s.ledger, pairs, ps.normalize)
            <==> forall i :: 0 <= i < |s.ledger| && Moves(pairs, s.ledger[i].path) ==> !f.update(s.ledger[i].path)
  {
    var pairs := Remapped(rows, ps);
    RemappedIsCanonical(rows, ps);
    AppliedMembers(pairs, f.update);
    OrderOfUpdatesIsIrrelevant(s.ledger, Applied(pairs, f.update), ps.normalize);
    SameRenamingIff(s.ledger, pairs, Applied(pairs, f.update), f.update, ps.normalize);
  }

  lemma AppliedMembers(pairs: seq<(string, string)>, fails: string -> bool)
    ensures forall q :: q in Applied(pairs, fails) <==> q in pairs && !fails(q.0)
  {
    if pairs != [] {
      AppliedMembers(pairs[1..], fails);
      assert pairs == [pairs[0]] + pairs[1..];
    }
  }

  lemma SameRenamingIff(ledger: seq<LedgerRow>, pairs: seq<(string, string)>, applied: seq<(string, string)>,
                        fails: string -> bool, normalize: string -> string)
    requires Canonical(pairs, normalize) && forall q :: q in applied <==> q in pairs && !fails(q.0)
    ensures Canonical(applied, normalize)
    ensures RenameTogether(ledger, applied, normalize) == RenameTogether(ledger, pairs, normalize)
            <==> forall i :: 0 <= i < |ledger| && Moves(pairs, ledger[i].path) ==> !fails(ledger[i].path)
  {
    forall i | 0 <= i < |applied|
      ensures applied[i].1 == normalize(applied[i].0) != applied[i].0 && normalize(applied[i].1) == applied[i].1
    {
      assert applied[i] in pairs;
    }
    forall path ensures Moves(applied, path) <==> Moves(pairs, path) && !fails(path) {
      MovesApplied(pairs, applied, fails, path);
    }
    var a, b := RenameTogether(ledger, applied, normalize), RenameTogether(ledger, pairs, normalize);
    if a == b {
      forall i | 0 <= i < |ledger| && Moves(pairs, ledger[i].path) ensures !fails(ledger[i].path) {
        assert a[i] == b[i] && normalize(ledger[i].path) != ledger[i].path;
      }
    }
  }

  lemma MovesApplied(pairs: seq<(string, string)>, applied: seq<(string, string)>, fails: string -> bool, path: string)
    requires forall q :: q in applied <==> q in pairs && !fails(q.0)
    ensures Moves(applied, path) <==> Moves(pairs, path) && !fails(path)
  {
    if Moves(applied, path) {
      var i :| 0 <= i < |applied| && applied[i].0 == path;
      assert applied[i] in pairs;
    }
    if Moves(pairs, path) && !fails(path) {
      var i :| 0 <= i < |pairs| && pairs[i].0 == path;
      assert pairs[i] in applied;
    }
  }

  /** A row that moves, and failures that break each half of the promise. */
  lemma FailuresAreNotUndone(ps: Paths)
    requires ps.isAbsolute("/a/") && ps.isAbsolute("/a") && ps.normalize("/a/") == "/a" == ps.normalize("/a")
    ensures var rows, merged := [("/a/", 7)], map["/a" := 7];
            var s := Store(map["/a/" := 7], [LedgerRow("/a/", 7)], false);
            IsMerged(merged, rows, ps) && Work(rows, ps)
            && AfterMigration(s, rows, ps, Faults(false, false, _ => true, _ => true, false), merged)
            == Store(map[], s.ledger, true)
  {
    var rows, merged := [("/a/", 7)], map["/a" := 7];
    assert rows[..0] == [] && Remapped([], ps) == [];
    assert Remapped(rows, ps) == [] + [("/a/", "/a")] == [("/a/", "/a")];
    MergeStep(map[], rows, ps, 0);
    assert rows[..1] == rows && MergeOne(map[], ps, rows[0]) == merged;
    var all: string -> bool := _ => true;
    assert [("/a/", "/a")][1..] == [] && Applied([("/a/", "/a")], all) == [];
    assert Inserted(merged, all) == map[];
  }

  /** A row that fails to read behind one that moves: without any failing statement its
      tokens are gone and the flag is set. */
  lemma UnreadRowsAreLost(ps: Paths)
    requires ps.isAbsolute("/a/") && ps.normalize("/a/") == "/a"
    ensures var rows, merged := [("/a/", 7)], map["/a" := 7];
            var s := Store(map["/a/" := 7, "/b" := 5], [], false);
            IsPart(rows, s.projects) && IsMerged(merged, rows, ps) && Work(rows, ps)
            && AfterMigration(s, rows, ps, Faults(false, false, _ => false, _ => false, false), merged)
            == Store(map["/a" := 7], [], true)
  {
    var rows, merged := [("/a/", 7)], map["/a" := 7];
    assert rows[..0] == [] && Remapped([], ps) == [];
    assert Remapped(rows, ps) == [] + [("/a/", "/a")] == [("/a/", "/a")];
    MergeStep(map[], rows, ps, 0);
    assert rows[..1] == rows && MergeOne(map[], ps, rows[0]) == merged;
    var none: string -> bool := _ => false;
    assert Inserted(merged, none) == merged;
    assert RenameInOrder([], Applied(Remapped(rows, ps), none)) == [];
  }

  function Lost(m: map<string, int>, fails: string -> bool): map<string, int> {
    map k | k in m && fails(k) :: m[k]
  }

  lemma {:induction false} TotalSplits(m: map<string, int>, fails: string -> bool)
    ensures Total(m) == Total(Inserted(m, fails)) + Total(Lost(m, fails))
    decreases |m|
  {
    if m == map[] {
      assert Inserted(m, fails) == map[] && Lost(m, fails) == map[];
    } else {
      var k :| k in m;
      TotalSplits(m - {k}, fails);
      TotalWithout(m, k);
      if fails(k) {
        TotalWithout(Lost(m, fails), k);
        assert Lost(m, fails) - {k} == Lost(m - {k}, fails);
        assert Inserted(m, fails) == Inserted(m - {k}, fails);
      } else {
        TotalWithout(Inserted(m, fails), k);
        assert Inserted(m, fails) - {k} == Inserted(m - {k}, fails);
        assert Lost(m, fails) == Lost(m - {k}, fails);
      }
    }
  }

  /** The rows that move, in the order they were read. */
  function Remapped(rows: seq<(string, int)>, ps: Paths): seq<(string, string)> {
    if rows == [] then []
    else
      var p := rows[|rows| - 1].0;
      Remapped(rows[..|rows| - 1], ps)
      + if ps.isAbsolute(p) && ps.normalize(p) != p then [(p, ps.normalize(p))] else []
  }

  predicate Dropped(rows: seq<(string, int)>, ps: Paths) {
    exists i :: 0 <= i < |rows| && !ps.isAbsolute(rows[i].0)
  }

  function Applied(pairs: seq<(string, string)>, fails: string -> bool): seq<(string, string)> {
    if pairs == [] then []
    else (if fails(pairs[0].0) then [] else [pairs[0]]) + Applied(pairs[1..], fails)
  }

  function Inserted(merged: map<string, int>, fails: string -> bool): map<string, int> {
    map k | k in merged && !fails(k) :: merged[k]
  }

  lemma OneMore(rows: seq<(string, int)>, ps: Paths, i: nat)
    requires i < |rows|
    ensures rows[..i + 1][..i] == rows[..i] && |rows[..i + 1]| == i + 1 && rows[..i + 1][i] == rows[i]
    ensures Dropped(rows[..i + 1], ps) <==> Dropped(rows[..i], ps) || !ps.isAbsolute(rows[i].0)
    ensures forall k :: HasKey(rows[..i + 1], ps, k) <==>
              HasKey(rows[..i], ps, k) || (ps.isAbsolute(rows[i].0) && ps.normalize(rows[i].0) == k)
  {
    var a, b := rows[..i], rows[..i + 1];
    assert forall j :: 0 <= j < i ==> a[j] == b[j];
    assert b[i] == rows[i];
    forall k
      ensures HasKey(b, ps, k) <==> HasKey(a, ps, k) || (ps.isAbsolute(rows[i].0) && ps.normalize(rows[i].0) == k)
    {
      if HasKey(a, ps, k) {
        var j :| 0 <= j < |a| && ps.isAbsolute(a[j].0) && ps.normalize(a[j].0) == k;
        assert ps.isAbsolute(b[j].0) && ps.normalize(b[j].0) == k;
      }
    }
  }

  lemma NoKeyNoSum(rows: seq<(string, int)>, ps: Paths, key: string)
    requires !HasKey(rows, ps, key)
    ensures SumFor(rows, ps, key) == 0
  {
    if rows != [] {
      var n := |rows| - 1;
      OneMore(rows, ps, n);
      assert rows[..n + 1] == rows;
      NoKeyNoSum(rows[..n], ps, key);
    }
  }

  lemma AllInserted(rows: seq<(string, int)>, ps: Paths, f: Faults, merged: map<string, int>)
    requires forall k :: k in merged <==> HasKey(rows, ps, k)
    ensures NoFaults(f, rows, ps) ==> Inserted(merged, f.insert) == merged
  {
  }

  lemma RemappedMember(rows: seq<(string, int)>, ps: Paths)
    ensures forall q :: q in Remapped(rows, ps) ==>
              exists i :: 0 <= i < |rows| && rows[i].0 == q.0 && q.1 == ps.normalize(q.0) != q.0
  {
    if rows != [] {
      var n := |rows| - 1;
      RemappedMember(rows[..n], ps);
      forall q | q in Remapped(rows, ps)
        ensures exists i :: 0 <= i < |rows| && rows[i].0 == q.0 && q.1 == ps.normalize(q.0) != q.0
      {
        if q in Remapped(rows[..n], ps) {
          var i :| 0 <= i < n && rows[..n][i].0 == q.0;
          assert rows[i].0 == q.0;
        } else {
          assert rows[n].0 == q.0;
        }
      }
    }
  }

  lemma RemappedIsCanonical(rows: seq<(string, int)>, ps: Paths)
    ensures IdempotentOn(ps, rows) ==> Canonical(Remapped(rows, ps), ps.normalize)
  {
    RemappedMember(rows, ps);
    var pairs := Remapped(rows, ps);
    forall i | 0 <= i < |pairs| && IdempotentOn(ps, rows)
      ensures pairs[i].1 == ps.normalize(pairs[i].0) != pairs[i].0 && ps.normalize(pairs[i].1) == pairs[i].1
    {
      assert pairs[i] in pairs;
    }
  }

  lemma NoUpdateFails(ledger: seq<LedgerRow>, pairs: seq<(string, string)>,
                      rows: seq<(string, int)>, ps: Paths, f: Faults)
    requires pairs == Remapped(rows, ps)
    ensures NoFaults(f, rows, ps) ==> Applied(pairs, f.update) == pairs
  {
    RemappedMember(rows, ps);
    if NoFaults(f, rows, ps) {
      forall i | 0 <= i < |pairs| ensures !f.update(pairs[i].0) {
        assert pairs[i] in pairs;
      }
      AppliedAll(pairs, f.update);
    }
  }

  lemma AppliedAll(pairs: seq<(string, string)>, fails: string -> bool)
    requires forall i :: 0 <= i < |pairs| ==> !fails(pairs[i].0)
    ensures Applied(pairs, fails) == pairs
  {
    if pairs != [] {
      AppliedAll(pairs[1..], fails);
    }
  }

  lemma NothingMoves(ledger: seq<LedgerRow>, pairs: seq<(string, string)>, normalize: string -> string)
    requires pairs == []
    ensures RenameTogether(ledger, pairs, normalize) == ledger
  {
    var r := RenameTogether(ledger, pairs, normalize);
    forall i | 0 <= i < |ledger| ensures r[i] == ledger[i] {
      assert !Moves(pairs, ledger[i].path);
    }
  }

  /** When nothing moves and nothing is dropped the table already is its merged form. */
  lemma AlreadyCanonical(rows: seq<(string, int)>, ps: Paths, table: map<string, int>, merged: map<string, int>)
    requires IsListing(rows, table) && Remapped(rows, ps) == [] && !Dropped(rows, ps)
    requires IsMerged(merged, rows, ps)
    ensures table == merged
  {
    AllFixed(rows, ps);
    forall k
      ensures k in table <==> k in merged
    {
      if k in table {
        var i :| 0 <= i < |rows| && rows[i] == (k, table[k]);
        assert ps.normalize(rows[i].0) == k;
      }
    }
    forall k | k in table ensures table[k] == merged[k] {
      var i :| 0 <= i < |rows| && rows[i] == (k, table[k]);
      SingleSpelling(rows, ps, i);
    }
  }

  lemma AllFixed(rows: seq<(string, int)>, ps: Paths)
    requires Remapped(rows, ps) == [] && !Dropped(rows, ps)
    ensures forall i :: 0 <= i < |rows| ==> ps.isAbsolute(rows[i].0) && ps.normalize(rows[i].0) == rows[i].0
  {
    if rows != [] {
      var n := |rows| - 1;
      OneMore(rows, ps, n);
      assert rows[..n + 1] == rows;
      AllFixed(rows[..n], ps);
      forall i | 0 <= i < n ensures ps.normalize(rows[i].0) == rows[i].0 {
        assert rows[..n][i] == rows[i];
      }
    }
  }

  lemma SingleSpelling(rows: seq<(string, int)>, ps: Paths, i: nat)
    requires i < |rows|
    requires forall j, k :: 0 <= j < k < |rows| ==> rows[j].0 != rows[k].0
    requires forall j :: 0 <= j < |rows| ==> ps.isAbsolute(rows[j].0) && ps.normalize(rows[j].0) == rows[j].0
    ensures SumFor(rows, ps, rows[i].0) == rows[i].1
  {
    var n := |rows| - 1;
    if i == n {
      assert !HasKey(rows[..n], ps, rows[n].0);
      NoKeyNoSum(rows[..n], ps, rows[n].0);
    } else {
      SingleSpelling(rows[..n], ps, i);
    }
  }
}

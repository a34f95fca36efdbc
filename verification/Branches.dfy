/**
 Branch tracking metadata (src/branch_meta.rs), the names of branch databases
 (src/branch.rs) and the guarded operations callers build from them (src/branch.rs,
 src/commands.rs).
 */
module Branches {
  import opened Common

  type Name = string

  // ------------------------------------------------------------- file names

  predicate Unsafe(c: char) {
    c == '/' || c == '\\' || c == ':' || c == '*' || c == '?' || c == '"' || c == '<' || c == '>' || c == '|'
    || c == ' ' || c == '.'
  }

  function Substitute(s: string): (r: string)
    ensures |r| == |s| && forall i :: 0 <= i < |s| ==> r[i] == if Unsafe(s[i]) then '_' else s[i]
  {
    seq(|s|, i requires 0 <= i < |s| => if Unsafe(s[i]) then '_' else s[i])
  }

  /** Every run of underscores becomes one. */
  function Collapse(s: string): string {
    if s == [] then []
    else
      var n := |s| - 1;
      Collapse(s[..n]) + if s[n] == '_' && n > 0 && s[n - 1] == '_' then [] else [s[n]]
  }

  function TrimLeft(s: string): string {
    if s != [] && s[0] == '_' then TrimLeft(s[1..]) else s
  }

  function TrimRight(s: string): string {
    if s != [] && s[|s| - 1] == '_' then TrimRight(s[..|s| - 1]) else s
  }

  function Sanitize(name: Name): string {
    TrimRight(TrimLeft(Collapse(Substitute(name))))
  }

  method SanitizeBranchName(name: Name) returns (result: string)
    ensures result == Sanitize(name)
  {
    var sanitized := Substitute(name);
    result := "";
    var prevUnderscore := false;
    for i := 0 to |sanitized|
      invariant result == Collapse(sanitized[..i])
      invariant prevUnderscore <==> i > 0 && sanitized[i - 1] == '_'
    {
      var c := sanitized[i];
      assert sanitized[..i + 1][..i] == sanitized[..i];
      assert result + [] == result;
      if c == '_' {
        if !prevUnderscore {
          result := result + [c];
        }
        prevUnderscore := true;
      } else {
        result := result + [c];
        prevUnderscore := false;
      }
    }
    assert sanitized[..|sanitized|] == sanitized;
    result := TrimRight(TrimLeft(result));
  }

  predicate NoRuns(s: string) {
    forall i :: 0 < i < |s| ==> s[i - 1] != '_' || s[i] != '_'
  }

  predicate SafeChars(s: string) {
    forall i :: 0 <= i < |s| ==> !Unsafe(s[i])
  }

  /** A name that is already a usable file stem. */
  predicate Clean(s: string) {
    SafeChars(s) && NoRuns(s) && (s != [] ==> s[0] != '_' && s[|s| - 1] != '_')
  }

  /** What is left of `s` without separators: its characters other than underscores and
      unsafe ones, in order. */
  function Letters(s: string): string {
    if s == [] then []
    else
      var n := |s| - 1;
      Letters(s[..n]) + if s[n] == '_' || Unsafe(s[n]) then [] else [s[n]]
  }

  lemma {:induction false} SubstituteLetters(s: string)
    ensures Letters(Substitute(s)) == Letters(s)
    decreases |s|
  {
    if s != [] {
      var n := |s| - 1;
      SubstituteLetters(s[..n]);
      assert Substitute(s)[..n] == Substitute(s[..n]);
    }
  }

  lemma {:induction false} CollapseFacts(s: string)
    requires SafeChars(s)
    ensures SafeChars(Collapse(s)) && NoRuns(Collapse(s)) && Letters(Collapse(s)) == Letters(s)
    ensures s == [] ==> Collapse(s) == []
    ensures s != [] ==> Collapse(s) != [] && Collapse(s)[|Collapse(s)| - 1] == s[|s| - 1]
    decreases |s|
  {
    if s != [] {
      var n := |s| - 1;
      var front, c := Collapse(s[..n]), s[n];
      CollapseFacts(s[..n]);
      LettersOne(s[..n], c);
      assert s == s[..n] + [c];
      if c == '_' && n > 0 && s[n - 1] == '_' {
        assert Collapse(s) == front + [] == front;
      } else {
        CollapseOne(front, c);
      }
    }
  }

  lemma CollapseOne(front: string, c: char)
    requires SafeChars(front) && NoRuns(front) && !Unsafe(c)
    requires c == '_' && front != [] ==> front[|front| - 1] != '_'
    ensures SafeChars(front + [c]) && NoRuns(front + [c])
    ensures Letters(front + [c]) == Letters(front) + if c == '_' then [] else [c]
  {
    LettersOne(front, c);
    forall i | 0 < i < |front| + 1 ensures (front + [c])[i - 1] != '_' || (front + [c])[i] != '_' {
      if i < |front| { assert front[i - 1] != '_' || front[i] != '_'; }
    }
  }

  lemma LettersOne(front: string, c: char)
    ensures Letters(front + [c]) == Letters(front) + if c == '_' || Unsafe(c) then [] else [c]
  {
    assert (front + [c])[..|front|] == front;
  }

  lemma {:induction false} TrimLeftFacts(s: string)
    requires SafeChars(s) && NoRuns(s)
    ensures SafeChars(TrimLeft(s)) && NoRuns(TrimLeft(s)) && Letters(TrimLeft(s)) == Letters(s)
    ensures TrimLeft(s) != [] ==> TrimLeft(s)[0] != '_'
    decreases |s|
  {
    if s != [] && s[0] == '_' {
      TrimLeftFacts(s[1..]);
      LettersCons(s);
    }
  }

  lemma {:induction false} LettersCons(s: string)
    requires s != [] && s[0] == '_'
    ensures Letters(s[1..]) == Letters(s)
    decreases |s|
  {
    var n := |s| - 1;
    if n > 0 {
      LettersCons(s[..n]);
      assert s[1..][..n - 1] == s[..n][1..];
    } else {
      assert s[..0] == [];
    }
  }

  lemma {:induction false} TrimRightFacts(s: string)
    requires SafeChars(s) && NoRuns(s) && (s != [] ==> s[0] != '_')
    ensures Clean(TrimRight(s)) && Letters(TrimRight(s)) == Letters(s)
    decreases |s|
  {
    if s != [] && s[|s| - 1] == '_' {
      TrimRightFacts(s[..|s| - 1]);
      assert Letters(s) == Letters(s[..|s| - 1]) + [];
    }
  }

  /** A sanitized name is a clean stem that keeps every other character in order. */
  lemma SanitizeIsClean(name: Name)
    ensures Clean(Sanitize(name)) && Letters(Sanitize(name)) == Letters(name)
  {
    var s := Substitute(name);
    SubstituteLetters(name);
    CollapseFacts(s);
    TrimLeftFacts(Collapse(s));
    TrimRightFacts(TrimLeft(Collapse(s)));
  }

  lemma {:induction false} CollapseKeeps(s: string)
    requires NoRuns(s)
    ensures Collapse(s) == s
    decreases |s|
  {
    if s != [] {
      CollapseKeeps(s[..|s| - 1]);
    }
  }

  /** Names that are already clean are kept, exactly; so sanitizing twice changes nothing. */
  lemma SanitizeFixesExactlyCleanNames(name: Name)
    ensures Sanitize(name) == name <==> Clean(name)
    ensures Sanitize(Sanitize(name)) == Sanitize(name)
  {
    SanitizeIsClean(name);
    if Clean(name) { CleanIsKept(name); }
    CleanIsKept(Sanitize(name));
  }

  lemma CleanIsKept(s: string)
    requires Clean(s)
    ensures Sanitize(s) == s
  {
    assert Substitute(s) == s;
    CollapseKeeps(s);
  }

  // -------------------------------------------------------------- metadata

  datatype Entry = Entry(dbFile: string, parent: Option<Name>, createdAt: nat, lastSynced: nat)
  datatype Meta = Meta(defaultBranch: Name, branches: map<Name, Entry>)

  function NewMeta(defaultBranch: Name, now: nat): Meta {
    Meta(defaultBranch, map[defaultBranch := Entry("tokensave.db", None, now, now)])
  }

  function Added(m: Meta, name: Name, dbFile: string, parent: Name, now: nat): Meta {
    m.(branches := m.branches[name := Entry(dbFile, Some(parent), now, now)])
  }

  function Removed(m: Meta, name: Name): Meta {
    if name == m.defaultBranch then m else m.(branches := m.branches - {name})
  }

  function AllRemoved(m: Meta): Meta {
    m.(branches := m.branches - (m.branches.Keys - {m.defaultBranch}))
  }

  function Reparented(e: Entry, from: Name, to: Name): Entry {
    if e.parent == Some(from) then e.(parent := Some(to)) else e
  }

  predicate Renamable(m: Meta, from: Name, to: Name) {
    from != to && from in m.branches && to !in m.branches
  }

  function Renamed(m: Meta, from: Name, to: Name): Meta {
    if !Renamable(m, from, to) then m
    else
      var moved := (m.branches - {from})[to := m.branches[from]];
      Meta(if m.defaultBranch == from then to else m.defaultBranch,
           map n | n in moved :: Reparented(moved[n], from, to))
  }

  function Promoted(m: Meta, name: Name): Meta {
    if name !in m.branches then m else Meta(name, m.branches[name := m.branches[name].(parent := None)])
  }

  function Touched(m: Meta, name: Name, now: nat): Meta {
    if name !in m.branches then m
    else m.(branches := m.branches[name := m.branches[name].(lastSynced := now)])
  }

  /** The database file for `branch`: its stem, unless another branch has that file; then
      the stem and a hash of the full name, which is not checked again. */
  function UniqueDbFile(m: Meta, branch: Name, hash: Name -> string): string {
    var candidate := StemFile(branch);
    if exists name :: name in m.branches && name != branch && m.branches[name].dbFile == candidate
    then HashedFile(branch, hash) else candidate
  }

  function StemFile(branch: Name): string {
    "branches/" + Sanitize(branch) + ".db"
  }

  function HashedFile(branch: Name, hash: Name -> string): string {
    "branches/" + Sanitize(branch) + "-" + hash(branch) + ".db"
  }

  // ------------------------------------------------- operations and their guards

  /** One operation with what the repository answered: for tracking, the nearest tracked
      ancestor and whether the parent's database exists; for set-default, whether the
      branch is known to the repository or checked out; for reconciling, whether the
      recorded default is gone and the default detected instead. */
  datatype Op =
    | Track(branch: Name, ancestor: Option<Name>, dbExists: bool, now: nat)
    | Remove(name: Name)
    | RemoveAll
    | SetDefault(name: Name, known: bool)
    | Reconcile(gone: bool, detected: Option<Name>)
    | Touch(name: Name, now: nat)

  /** The ancestor search only answers with other tracked branches. */
  predicate Possible(m: Meta, op: Op) {
    op.Track? && op.ancestor.Some? ==> op.ancestor.value in m.branches && op.ancestor.value != op.branch
  }

  predicate Tracks(m: Meta, op: Op) {
    op.Track? && op.branch != m.defaultBranch && op.branch !in m.branches && op.dbExists
  }

  function ParentOf(m: Meta, op: Op): Name
    requires op.Track?
  {
    if op.ancestor.Some? then op.ancestor.value else m.defaultBranch
  }

  function Apply(m: Meta, op: Op, hash: Name -> string): Meta {
    match op
    case Track(branch, _, _, now) =>
      if Tracks(m, op) then Added(m, branch, UniqueDbFile(m, branch, hash), ParentOf(m, op), now) else m
    case Remove(name) => Removed(m, name)
    case RemoveAll => AllRemoved(m)
    case SetDefault(name, known) =>
      if name == m.defaultBranch then m
      else if name in m.branches then Promoted(m, name)
      else if known then Renamed(m, m.defaultBranch, name) else m
    case Reconcile(gone, detected) =>
      if gone && detected.Some? && detected.value != m.defaultBranch && detected.value !in m.branches
      then Renamed(m, m.defaultBranch, detected.value) else m
    case Touch(name, now) => Touched(m, name, now)
  }

  function After(m: Meta, ops: seq<Op>, hash: Name -> string): Meta
    decreases |ops|
  {
    if ops == [] then m else Apply(After(m, ops[..|ops| - 1], hash), ops[|ops| - 1], hash)
  }

  ghost predicate PossibleRun(m: Meta, ops: seq<Op>, hash: Name -> string) {
    forall i :: 0 <= i < |ops| ==> Possible(After(m, ops[..i], hash), ops[i])
  }

  /** Of the entries `before`, those but `names` and `d` are removed, the others left. */
  ghost predicate Moving(before: map<Name, Entry>, all: set<Name>, names: set<Name>, d: Name,
                         removed: map<Name, Entry>, left: map<Name, Entry>) {
    && names <= all == before.Keys - {d}
    && removed == before - (names + {d}) && left == before - (all - names)
  }

  lemma NoneMoved(before: map<Name, Entry>, all: set<Name>, d: Name)
    requires all == before.Keys - {d}
    ensures Moving(before, all, all, d, map[], before)
  {
    assert all - all == {};
  }

  lemma MoveOne(before: map<Name, Entry>, all: set<Name>, names: set<Name>, d: Name,
                removed: map<Name, Entry>, left: map<Name, Entry>, name: Name)
    requires Moving(before, all, names, d, removed, left) && name in names
    ensures name in left
    ensures Moving(before, all, names - {name}, d, removed[name := left[name]], left - {name})
  {
  }

  lemma AllMoved(before: map<Name, Entry>, all: set<Name>, d: Name, removed: map<Name, Entry>, left: map<Name, Entry>)
    requires Moving(before, all, {}, d, removed, left)
    ensures removed == before - {d} && left == before - (before.Keys - {d})
  {
    assert {} + {d} == {d} && all - {} == all;
  }

  class BranchMeta {
    var defaultBranch: Name
    var branches: map<Name, Entry>

    ghost function Value(): Meta
      reads this
    {
      Meta(defaultBranch, branches)
    }

    constructor (defaultBranch: Name, now: nat)
      ensures Value() == NewMeta(defaultBranch, now)
    {
      this.defaultBranch := defaultBranch;
      this.branches := map[defaultBranch := Entry("tokensave.db", None, now, now)];
    }

    method AddBranch(name: Name, dbFile: string, parent: Name, now: nat)
      modifies this
      ensures Value() == Added(old(Value()), name, dbFile, parent, now)
    {
      branches := branches[name := Entry(dbFile, Some(parent), now, now)];
    }

    method RemoveBranch(name: Name) returns (entry: Option<Entry>)
      modifies this`branches
      ensures Value() == Removed(old(Value()), name)
      ensures entry == (if name != defaultBranch && name in old(branches) then Some(old(branches)[name]) else None)
    {
      if name == defaultBranch {
        return None;
      }
      entry := if name in branches then Some(branches[name]) else None;
      branches := branches - {name};
    }

    method TouchSynced(name: Name, now: nat)
      modifies this`branches
      ensures Value() == Touched(old(Value()), name, now)
    {
      if name in branches {
        branches := branches[name := branches[name].(lastSynced := now)];
      }
    }

    method RemoveAllBranches() returns (removed: map<Name, Entry>)
      modifies this`branches
      ensures Value() == AllRemoved(old(Value()))
      ensures removed == old(branches) - {defaultBranch}
    {
      var names := branches.Keys - {defaultBranch};
      ghost var all := names;
      removed := map[];
      NoneMoved(branches, all, defaultBranch);
      while names != {}
        invariant Moving(old(branches), all, names, defaultBranch, removed, branches)
        decreases |names|
      {
        var name :| name in names;
        MoveOne(old(branches), all, names, defaultBranch, removed, branches, name);
        removed := removed[name := branches[name]];
        branches := branches - {name};
        names := names - {name};
      }
      AllMoved(old(branches), all, defaultBranch, removed, branches);
    }

    /** Every entry whose parent was `from` gets the parent `to`. */
    method FollowParents(from: Name, to: Name)
      modifies this`branches
      ensures branches == map n | n in old(branches) :: Reparented(old(branches)[n], from, to)
    {
      var todo := branches.Keys;
      while todo != {}
        invariant todo <= branches.Keys == old(branches).Keys
        invariant forall n :: n in branches ==>
                                branches[n] == if n in todo then old(branches)[n]
                                               else Reparented(old(branches)[n], from, to)
        decreases |todo|
      {
        var n :| n in todo;
        if branches[n].parent == Some(from) {
          branches := branches[n := branches[n].(parent := Some(to))];
        }
        todo := todo - {n};
      }
    }

    method RenameBranch(from: Name, to: Name) returns (ok: bool)
      modifies this
      ensures ok <==> Renamable(old(Value()), from, to)
      ensures Value() == Renamed(old(Value()), from, to)
    {
      if from == to || to in branches {
        return false;
      }
      if from !in branches {
        return false;
      }
      var entry := branches[from];
      branches := branches - {from};
      branches := branches[to := entry];
      if defaultBranch == from {
        defaultBranch := to;
      }
      FollowParents(from, to);
      return true;
    }

    method SetDefault(name: Name) returns (ok: bool)
      modifies this
      ensures ok <==> name in old(branches)
      ensures Value() == Promoted(old(Value()), name)
    {
      if name !in branches {
        return false;
      }
      branches := branches[name := branches[name].(parent := None)];
      defaultBranch := name;
      return true;
    }

    method UniqueBranchDbFile(branch: Name, hash: Name -> string) returns (file: string)
      ensures file == UniqueDbFile(Value(), branch, hash)
    {
      var stem := SanitizeBranchName(branch);
      var candidate := "branches/" + stem + ".db";
      var collides := false;
      var names := branches.Keys;
      while names != {}
        invariant names <= branches.Keys
        invariant collides <==>
                  exists n :: n in branches && n !in names && n != branch && branches[n].dbFile == candidate
        decreases |names|
      {
        var name :| name in names;
        if name != branch && branches[name].dbFile == candidate {
          collides := true;
        }
        names := names - {name};
      }
      file := if collides then "branches/" + stem + "-" + hash(branch) + ".db" else candidate;
    }

    /** `track_branch_copy` after the metadata is loaded. */
    method TrackBranchCopy(branch: Name, ancestor: Option<Name>, dbExists: bool, now: nat, hash: Name -> string)
        returns (added: bool)
      modifies this
      ensures Value() == Apply(old(Value()), Track(branch, ancestor, dbExists, now), hash)
      ensures added <==> Tracks(old(Value()), Track(branch, ancestor, dbExists, now))
    {
      if branch == defaultBranch || branch in branches {
        return false;
      }
      var parent := if ancestor.Some? then ancestor.value else defaultBranch;
      if !dbExists {
        return false;
      }
      var dbFile := UniqueBranchDbFile(branch, hash);
      AddBranch(branch, dbFile, parent, now);
      return true;
    }

    /** `set_default_branch` after the metadata is loaded. */
    method SetDefaultBranch(name: Name, known: bool, ghost hash: Name -> string) returns (refused: bool)
      modifies this
      ensures Value() == Apply(old(Value()), Op.SetDefault(name, known), hash)
      ensures refused <==> name !in old(branches) && name != old(defaultBranch) && !known
    {
      if name == defaultBranch {
        return false;
      }
      var previous := defaultBranch;
      var promoted := SetDefault(name);
      if !promoted {
        if !known {
          return true;
        }
        var _ := RenameBranch(previous, name);
      }
      return false;
    }

    /** `reconcile_default_branch` under the lock. */
    method ReconcileDefaultBranch(gone: bool, detected: Option<Name>, ghost hash: Name -> string)
      modifies this
      ensures Value() == Apply(old(Value()), Reconcile(gone, detected), hash)
    {
      if gone && detected.Some? && detected.value != defaultBranch && detected.value !in branches {
        var _ := RenameBranch(defaultBranch, detected.value);
      }
    }
  }

  // ------------------------------------------------------- the default branch

  /** The default branch is tracked and has no parent. */
  predicate Rooted(m: Meta) {
    m.defaultBranch in m.branches && m.branches[m.defaultBranch].parent == None
  }

  lemma StepKeepsRooted(m: Meta, op: Op, hash: Name -> string)
    requires Rooted(m)
    ensures Rooted(Apply(m, op, hash))
  {
  }

  lemma {:induction false} EveryRunIsRooted(defaultBranch: Name, now: nat, ops: seq<Op>, hash: Name -> string)
    ensures Rooted(After(NewMeta(defaultBranch, now), ops, hash))
    decreases |ops|
  {
    if ops != [] {
      EveryRunIsRooted(defaultBranch, now, ops[..|ops| - 1], hash);
      StepKeepsRooted(After(NewMeta(defaultBranch, now), ops[..|ops| - 1], hash), ops[|ops| - 1], hash);
    }
  }

  // ---------------------------------------------------------- database files

  predicate DistinctFiles(m: Meta) {
    forall a, b :: a in m.branches && b in m.branches && a != b ==> m.branches[a].dbFile != m.branches[b].dbFile
  }

  /** The branches that use `file`. */
  function Holders(m: Meta, file: string): set<Name> {
    set n | n in m.branches && m.branches[n].dbFile == file
  }

  /** If the step needs the hashed name, no other branch has it yet. */
  predicate FreshHash(m: Meta, op: Op, hash: Name -> string) {
    Tracks(m, op) && Holders(m, StemFile(op.branch)) != {} ==> Holders(m, HashedFile(op.branch, hash)) == {}
  }

  lemma UniqueFileIsFreshIff(m: Meta, op: Op, hash: Name -> string)
    requires Tracks(m, op)
    ensures Holders(m, UniqueDbFile(m, op.branch, hash)) == {} <==> FreshHash(m, op, hash)
  {
    var candidate := StemFile(op.branch);
    if UniqueDbFile(m, op.branch, hash) == candidate && Holders(m, candidate) != {} {
      var n :| n in Holders(m, candidate);
      assert n in m.branches && n != op.branch && m.branches[n].dbFile == candidate;
    }
    if Holders(m, candidate) == {} {
      forall n | n in m.branches ensures m.branches[n].dbFile != candidate {
        assert n !in Holders(m, candidate);
      }
    }
  }

  /** A step keeps the files pairwise distinct exactly when it needs no hashed name that is
      taken. */
  lemma StepKeepsFilesDistinctIff(m: Meta, op: Op, hash: Name -> string)
    requires DistinctFiles(m)
    ensures DistinctFiles(Apply(m, op, hash)) <==> FreshHash(m, op, hash)
  {
    if Tracks(m, op) {
      UniqueFileIsFreshIff(m, op, hash);
      AddKeepsFilesDistinctIff(m, op.branch, UniqueDbFile(m, op.branch, hash), ParentOf(m, op), op.now);
    } else {
      OthersKeepFilesDistinct(m, op, hash);
    }
  }

  lemma AddKeepsFilesDistinctIff(m: Meta, branch: Name, file: string, parent: Name, now: nat)
    requires DistinctFiles(m) && branch !in m.branches
    ensures DistinctFiles(Added(m, branch, file, parent, now)) <==> Holders(m, file) == {}
  {
    var m' := Added(m, branch, file, parent, now);
    if Holders(m, file) != {} {
      var n :| n in Holders(m, file);
      assert n in m'.branches && branch in m'.branches && m'.branches[n].dbFile == m'.branches[branch].dbFile;
    } else {
      forall n | n in m.branches ensures m.branches[n].dbFile != file {
        assert n !in Holders(m, file);
      }
    }
  }

  lemma OthersKeepFilesDistinct(m: Meta, op: Op, hash: Name -> string)
    requires DistinctFiles(m) && !Tracks(m, op)
    ensures DistinctFiles(Apply(m, op, hash))
  {
    match op {
      case SetDefault(name, _) => RenamedStaysDistinct(m, m.defaultBranch, name);
      case Reconcile(_, detected) =>
        if detected.Some? { RenamedStaysDistinct(m, m.defaultBranch, detected.value); }
      case _ =>
    }
  }

  lemma RenamedStaysDistinct(m: Meta, from: Name, to: Name)
    requires DistinctFiles(m)
    ensures DistinctFiles(Renamed(m, from, to))
  {
  }

  lemma {:induction false} FreshRunsKeepFilesDistinct(defaultBranch: Name, now: nat, ops: seq<Op>, hash: Name -> string)
    requires forall i :: 0 <= i < |ops| ==> FreshHash(After(NewMeta(defaultBranch, now), ops[..i], hash), ops[i], hash)
    ensures DistinctFiles(After(NewMeta(defaultBranch, now), ops, hash))
    decreases |ops|
  {
    if ops != [] {
      var n := |ops| - 1;
      forall i | 0 <= i < n
        ensures FreshHash(After(NewMeta(defaultBranch, now), ops[..n][..i], hash), ops[..n][i], hash)
      {
        assert ops[..n][..i] == ops[..i];
      }
      FreshRunsKeepFilesDistinct(defaultBranch, now, ops[..n], hash);
      StepKeepsFilesDistinctIff(After(NewMeta(defaultBranch, now), ops[..n], hash), ops[n], hash);
    }
  }

  /** Asking again for a branch just tracked gives the file it has. */
  lemma RetrackIsStable(m: Meta, op: Op, hash: Name -> string)
    requires Tracks(m, op)
    ensures UniqueDbFile(Apply(m, op, hash), op.branch, hash) == UniqueDbFile(m, op.branch, hash)
            == Apply(m, op, hash).branches[op.branch].dbFile
  {
    var m' := Apply(m, op, hash);
    assert forall n :: n != op.branch ==> (n in m'.branches <==> n in m.branches);
    assert forall n :: n in m.branches ==> m'.branches[n] == m.branches[n];
  }

  // ------------------------------------------------------------ conservation

  lemma SwappedMember(s: set<Name>, t: set<Name>, from: Name, to: Name)
    requires from in s && to !in s && t == s - {from} + {to}
    ensures |t| == |s|
  {
  }

  /** The name `n` goes by after renaming `from` to `to`. */
  function NameAfter(n: Name, from: Name, to: Name): Name {
    if n == from then to else n
  }

  /** Renaming moves one key; every entry is kept under its new name, with the parent under
      its new name, and the default branch goes by its new name. */
  lemma RenameMovesOneKey(m: Meta, from: Name, to: Name)
    requires Renamable(m, from, to)
    ensures var r := Renamed(m, from, to);
            && r.branches.Keys == m.branches.Keys - {from} + {to}
            && r.defaultBranch == NameAfter(m.defaultBranch, from, to)
            && forall n :: n in m.branches ==>
                 var e, f := m.branches[n], r.branches[NameAfter(n, from, to)];
                 && f.dbFile == e.dbFile && f.createdAt == e.createdAt && f.lastSynced == e.lastSynced
                 && f.parent == if e.parent.Some? then Some(NameAfter(e.parent.value, from, to)) else None
  {
  }

  /** Renaming back restores everything, unless a removed branch of the new name was still
      somebody's parent. */
  lemma RenamingBackUndoesIff(m: Meta, from: Name, to: Name)
    requires Renamable(m, from, to)
    ensures Renamed(Renamed(m, from, to), to, from) == m <==>
            (m.defaultBranch != to && forall n :: n in m.branches ==> m.branches[n].parent != Some(to))
  {
    var r := Renamed(m, from, to);
    var b := Renamed(r, to, from);
    RenameMovesOneKey(m, from, to);
    RenameMovesOneKey(r, to, from);
    assert b.branches.Keys == m.branches.Keys;
    forall n | n in m.branches
      ensures b.branches[n] == m.branches[n] <==> m.branches[n].parent != Some(to)
    {
      assert NameAfter(NameAfter(n, from, to), to, from) == n;
      RenamedTwice(m.branches[n].parent, from, to);
    }
    if b == m {
      assert forall n :: n in m.branches ==> b.branches[n] == m.branches[n];
    }
  }

  lemma RenamedTwice(parent: Option<Name>, from: Name, to: Name)
    requires from != to
    ensures parent.Some? ==>
              (NameAfter(NameAfter(parent.value, from, to), to, from) == parent.value <==> parent.value != to)
  {
  }

  /** The default branch moves only to a branch asked for that is tracked or known, or to a
      detected untracked one once it is gone. */
  lemma DefaultMovesIff(m: Meta, op: Op, hash: Name -> string)
    requires m.defaultBranch in m.branches
    ensures Apply(m, op, hash).defaultBranch ==
            match op
            case SetDefault(name, known) => if name in m.branches || known then name else m.defaultBranch
            case Reconcile(gone, detected) =>
              if gone && detected.Some? && detected.value !in m.branches then detected.value else m.defaultBranch
            case _ => m.defaultBranch
  {
  }

  /** Which entries a step leaves exactly as they were, under their name. */
  predicate Untouched(m: Meta, op: Op, n: Name)
    requires n in m.branches
  {
    match op
    case Track(_, _, _, _) => true
    case Remove(name) => n != name || n == m.defaultBranch
    case RemoveAll => n == m.defaultBranch
    case SetDefault(name, _) =>
      n != name && (name in m.branches || (n != m.defaultBranch && m.branches[n].parent != Some(m.defaultBranch)))
    case Reconcile(gone, _) =>
      !gone || (n != m.defaultBranch && m.branches[n].parent != Some(m.defaultBranch))
    case Touch(name, _) => n != name
  }

  lemma StepLeavesTheRest(m: Meta, op: Op, hash: Name -> string, n: Name)
    requires n in m.branches && Untouched(m, op, n)
    ensures n in Apply(m, op, hash).branches && Apply(m, op, hash).branches[n] == m.branches[n]
  {
  }

  /** What touching a branch or promoting it does to its own entry. */
  lemma AskedEntry(m: Meta, op: Op, hash: Name -> string)
    requires (op.Touch? || op.SetDefault?) && op.name in m.branches
    ensures var m' := Apply(m, op, hash);
            m'.branches.Keys == m.branches.Keys
            && var e, f := m.branches[op.name], m'.branches[op.name];
               && f.dbFile == e.dbFile && f.createdAt == e.createdAt
               && f.lastSynced == (if op.Touch? then op.now else e.lastSynced)
               && f.parent == if op.SetDefault? && op.name != m.defaultBranch then None else e.parent
  {
  }

  /** Removing forgets exactly the branches asked for, and never the default. */
  lemma RemovalIsExact(m: Meta, op: Op, hash: Name -> string)
    requires op.Remove? || op.RemoveAll?
    ensures forall n :: n in Apply(m, op, hash).branches <==>
              n in m.branches && (n == m.defaultBranch || (op.Remove? && n != op.name))
  {
  }

  /** A tracked branch starts out with a database of its own or a hashed one, its parent,
      which is the ancestor found or else the default, and one time. */
  lemma TrackedEntry(m: Meta, branch: Name, ancestor: Option<Name>, dbExists: bool, now: nat, hash: Name -> string)
    ensures var m' := Apply(m, Track(branch, ancestor, dbExists, now), hash);
            if dbExists && branch != m.defaultBranch && branch !in m.branches then
              && m'.branches.Keys == m.branches.Keys + {branch}
              && var e := m'.branches[branch];
                 && e.parent == Some(if ancestor.Some? then ancestor.value else m.defaultBranch)
                 && e.createdAt == now && e.lastSynced == now
            else m' == m
  {
  }

  /** So it keeps, for every file, the number of branches that use it. */
  lemma RenameConservesFiles(m: Meta, from: Name, to: Name, file: string)
    ensures |Holders(Renamed(m, from, to), file)| == |Holders(m, file)|
  {
    if Renamable(m, from, to) {
      RenameMovesOneKey(m, from, to);
      MovedKeyConserves(m, Renamed(m, from, to), from, to, file);
    }
  }

  lemma MovedKeyConserves(m: Meta, r: Meta, from: Name, to: Name, file: string)
    requires from in m.branches && to !in m.branches && r.branches.Keys == m.branches.Keys - {from} + {to}
    requires r.branches[to].dbFile == m.branches[from].dbFile
    requires forall n :: n in m.branches && n != from ==>
                           n in r.branches && r.branches[n].dbFile == m.branches[n].dbFile
    ensures |Holders(r, file)| == |Holders(m, file)|
  {
    if m.branches[from].dbFile == file {
      assert Holders(r, file) == Holders(m, file) - {from} + {to};
      SwappedMember(Holders(m, file), Holders(r, file), from, to);
    } else {
      assert Holders(r, file) == Holders(m, file);
    }
  }

  predicate Rearranges(op: Op) {
    op.SetDefault? || op.Reconcile? || op.Touch?
  }

  /** Set-default, reconciling and touching conserve the collection of files. */
  lemma StepConservesFiles(m: Meta, op: Op, hash: Name -> string, file: string)
    requires Rearranges(op)
    ensures |Holders(Apply(m, op, hash), file)| == |Holders(m, file)|
  {
    match op {
      case SetDefault(name, known) =>
        RenameConservesFiles(m, m.defaultBranch, name, file);
        if name in m.branches {
          assert Holders(Promoted(m, name), file) == Holders(m, file);
        }
      case Reconcile(_, detected) =>
        if detected.Some? { RenameConservesFiles(m, m.defaultBranch, detected.value, file); }
      case Touch(name, now) =>
        assert Holders(Touched(m, name, now), file) == Holders(m, file);
    }
  }

  lemma {:induction false} RunsConserveFiles(m: Meta, ops: seq<Op>, hash: Name -> string, file: string)
    requires forall i :: 0 <= i < |ops| ==> Rearranges(ops[i])
    ensures |Holders(After(m, ops, hash), file)| == |Holders(m, file)|
    decreases |ops|
  {
    if ops != [] {
      RunsConserveFiles(m, ops[..|ops| - 1], hash, file);
      StepConservesFiles(After(m, ops[..|ops| - 1], hash), ops[|ops| - 1], hash, file);
    }
  }

  // -------------------------------------------------------------- parent links

  /** `rank` grows along every link from a parent to its child, and parents are tracked. */
  predicate Ranked(m: Meta, rank: map<Name, nat>) {
    forall n :: n in m.branches ==>
                  n in rank
                  && (m.branches[n].parent.Some? ==>
                        var p := m.branches[n].parent.value;
                        p in m.branches && p in rank && rank[p] < rank[n])
  }

  ghost predicate Forest(m: Meta) {
    exists rank :: Ranked(m, rank)
  }

  predicate ParentsTracked(m: Meta) {
    forall n :: n in m.branches && m.branches[n].parent.Some? ==> m.branches[n].parent.value in m.branches
  }

  predicate Childless(m: Meta, name: Name) {
    forall n :: n in m.branches && n != name ==> m.branches[n].parent != Some(name)
  }

  /** A removal of a branch that is still somebody's parent. */
  predicate Orphans(m: Meta, op: Op) {
    op.Remove? && op.name != m.defaultBranch && op.name in m.branches && !Childless(m, op.name)
  }

  function RankAfter(m: Meta, op: Op, rank: map<Name, nat>): map<Name, nat>
    requires Ranked(m, rank) && Rooted(m) && Possible(m, op)
  {
    if Tracks(m, op) then rank[op.branch := rank[ParentOf(m, op)] + 1]
    else if op.SetDefault? && op.name !in m.branches then rank[op.name := rank[m.defaultBranch]]
    else if op.Reconcile? && op.detected.Some? && op.detected.value !in m.branches
    then rank[op.detected.value := rank[m.defaultBranch]]
    else rank
  }

  /** A step keeps the parents tracked and the links acyclic unless it removes a branch
      that is still somebody's parent. */
  lemma StepKeepsForest(m: Meta, op: Op, hash: Name -> string, rank: map<Name, nat>)
    requires Ranked(m, rank) && Rooted(m) && Possible(m, op) && !Orphans(m, op)
    ensures Ranked(Apply(m, op, hash), RankAfter(m, op, rank))
  {
    match op {
      case Track(_, _, _, _) =>
      case Remove(name) =>
      case RemoveAll =>
      case SetDefault(name, known) =>
        if name !in m.branches { RenameKeepsRank(m, m.defaultBranch, name, rank); }
      case Reconcile(_, detected) =>
        if detected.Some? && detected.value !in m.branches {
          RenameKeepsRank(m, m.defaultBranch, detected.value, rank);
        }
      case Touch(name, now) =>
    }
  }

  lemma RenameKeepsRank(m: Meta, from: Name, to: Name, rank: map<Name, nat>)
    requires Ranked(m, rank) && from in m.branches && to !in m.branches
    ensures Ranked(Renamed(m, from, to), rank[to := rank[from]])
    ensures Ranked(m, rank[to := rank[from]])
  {
  }

  /** ... and such a removal always leaves a parent untracked. */
  lemma OrphaningBreaksForest(m: Meta, op: Op, hash: Name -> string)
    requires Orphans(m, op)
    ensures !ParentsTracked(Apply(m, op, hash)) && !Forest(Apply(m, op, hash))
  {
    var m' := Apply(m, op, hash);
    var n :| n in m.branches && n != op.name && m.branches[n].parent == Some(op.name);
    assert n in m'.branches && m'.branches[n].parent.value !in m'.branches;
  }

  lemma {:induction false} RunsKeepForest(defaultBranch: Name, now: nat, ops: seq<Op>, hash: Name -> string)
    requires PossibleRun(NewMeta(defaultBranch, now), ops, hash)
    requires forall i :: 0 <= i < |ops| ==> !Orphans(After(NewMeta(defaultBranch, now), ops[..i], hash), ops[i])
    ensures Forest(After(NewMeta(defaultBranch, now), ops, hash))
    decreases |ops|
  {
    var m0 := NewMeta(defaultBranch, now);
    if ops == [] {
      assert Ranked(m0, map[defaultBranch := 0]);
    } else {
      var n := |ops| - 1;
      forall i | 0 <= i < n
        ensures Possible(After(m0, ops[..n][..i], hash), ops[..n][i])
        ensures !Orphans(After(m0, ops[..n][..i], hash), ops[..n][i])
      {
        assert ops[..n][..i] == ops[..i];
      }
      RunsKeepForest(defaultBranch, now, ops[..n], hash);
      EveryRunIsRooted(defaultBranch, now, ops[..n], hash);
      var rank :| Ranked(After(m0, ops[..n], hash), rank);
      StepKeepsForest(After(m0, ops[..n], hash), ops[n], hash, rank);
    }
  }

  /** A chain of branches, each followed by its parent. */
  predicate IsChain(m: Meta, chain: seq<Name>) {
    && (forall i :: 0 <= i < |chain| ==> chain[i] in m.branches)
    && forall i :: 0 <= i < |chain| - 1 ==> m.branches[chain[i]].parent == Some(chain[i + 1])
  }

  lemma {:induction false} ChainFallsInRank(m: Meta, rank: map<Name, nat>, chain: seq<Name>, i: nat, j: nat)
    requires Ranked(m, rank) && IsChain(m, chain) && i < j < |chain|
    ensures rank[chain[j]] < rank[chain[i]]
    decreases j
  {
    if i + 1 < j {
      ChainFallsInRank(m, rank, chain, i, j - 1);
    }
    assert m.branches[chain[j - 1]].parent == Some(chain[j - 1 + 1]);
  }

  /** In a forest no branch is its own ancestor, and every chain of parents is bounded by
      the number of branches. */
  lemma {:induction false} ForestHasNoCycle(m: Meta, chain: seq<Name>)
    requires Forest(m) && IsChain(m, chain)
    ensures forall i, j :: 0 <= i < j < |chain| ==> chain[i] != chain[j]
    ensures |chain| <= |m.branches|
  {
    var rank :| Ranked(m, rank);
    forall i, j | 0 <= i < j < |chain| ensures chain[i] != chain[j] {
      ChainFallsInRank(m, rank, chain, i, j);
    }
    DistinctFit(chain, m.branches.Keys);
  }

  lemma {:induction false} DistinctFit(xs: seq<Name>, s: set<Name>)
    requires forall i :: 0 <= i < |xs| ==> xs[i] in s
    requires forall i, j :: 0 <= i < j < |xs| ==> xs[i] != xs[j]
    ensures |xs| <= |s|
    decreases |xs|
  {
    if xs != [] {
      DistinctFit(xs[1..], s - {xs[0]});
    }
  }

  /** Four possible steps are a possible run. */
  lemma FourSteps(m: Meta, a: Op, b: Op, c: Op, d: Op, hash: Name -> string)
    requires Possible(m, a)
    requires Possible(Apply(m, a, hash), b)
    requires Possible(Apply(Apply(m, a, hash), b, hash), c)
    requires Possible(Apply(Apply(Apply(m, a, hash), b, hash), c, hash), d)
    ensures PossibleRun(m, [a, b, c, d], hash)
    ensures After(m, [a, b, c, d], hash) == Apply(Apply(Apply(Apply(m, a, hash), b, hash), c, hash), d, hash)
  {
    var m3 := Apply(Apply(Apply(m, a, hash), b, hash), c, hash);
    ThreeSteps(m, [a, b, c], hash);
    OneMore(m, [a, b, c], d, m3, hash);
    assert [a, b, c] + [d] == [a, b, c, d];
  }

  lemma OneMore(m: Meta, ops: seq<Op>, op: Op, reached: Meta, hash: Name -> string)
    requires PossibleRun(m, ops, hash) && After(m, ops, hash) == reached && Possible(reached, op)
    ensures PossibleRun(m, ops + [op], hash) && After(m, ops + [op], hash) == Apply(reached, op, hash)
  {
    var all := ops + [op];
    assert all[..|ops|] == ops;
    forall i | 0 <= i < |all| ensures Possible(After(m, all[..i], hash), all[i]) {
      assert i < |ops| ==> all[..i] == ops[..i];
    }
  }

  lemma TrackStep(m: Meta, a: Name, parent: Name, hash: Name -> string)
    requires a !in m.branches && parent in m.branches && m.defaultBranch in m.branches
    ensures Possible(m, Track(a, Some(parent), true, 0))
    ensures var m' := Apply(m, Track(a, Some(parent), true, 0), hash);
            m'.branches.Keys == m.branches.Keys + {a} && m'.branches[a].parent == Some(parent)
            && m'.defaultBranch == m.defaultBranch && forall n :: n in m.branches ==> m'.branches[n] == m.branches[n]
  {
  }

  function CycleRun(main: Name, a: Name, b: Name): seq<Op> {
    [Track(a, Some(main), true, 0), Track(b, Some(a), true, 0), Remove(a), Track(a, Some(b), true, 0)]
  }

  /** With a removal in between, re-adding the name can close a cycle. */
  lemma RemovalCanCloseCycle(main: Name, a: Name, b: Name, hash: Name -> string)
    requires main != a && main != b && a != b
    ensures PossibleRun(NewMeta(main, 0), CycleRun(main, a, b), hash)
    ensures IsChain(After(NewMeta(main, 0), CycleRun(main, a, b), hash), [a, b, a])
  {
    var t1, t2, t4 := Track(a, Some(main), true, 0), Track(b, Some(a), true, 0), Track(a, Some(b), true, 0);
    var m0 := NewMeta(main, 0);
    TrackStep(m0, a, main, hash);
    var m2 := Apply(Apply(m0, t1, hash), t2, hash);
    TrackStep(Apply(m0, t1, hash), b, a, hash);
    CycleCloses(m2, a, b, hash);
    FourSteps(m0, t1, t2, Remove(a), t4, hash);
  }

  lemma CycleCloses(m: Meta, a: Name, b: Name, hash: Name -> string)
    requires m.defaultBranch in m.branches && m.defaultBranch != a && a != b
    requires a in m.branches && b in m.branches && m.branches[b].parent == Some(a)
    ensures var m' := Apply(m, Remove(a), hash);
            Possible(m', Track(a, Some(b), true, 0)) && IsChain(Apply(m', Track(a, Some(b), true, 0), hash), [a, b, a])
  {
    TrackStep(Apply(m, Remove(a), hash), a, b, hash);
  }

  function TakenRun(main: Name, branch: Name, hash: Name -> string): seq<Op> {
    [Track(Sanitize(branch), Some(main), true, 0),
     Track(Sanitize(branch) + "-" + hash(branch), Some(main), true, 0),
     Track(branch, Some(main), true, 0)]
  }

  /** The hashed name is not checked against the others, and an ordinary branch can have
      it: tracking the stem, the clean name made of stem and hash, and then the branch
      gives the last two one file. */
  lemma HashedNameCanBeTaken(main: Name, branch: Name, hash: Name -> string)
    requires !Clean(branch) && branch != main && main != Sanitize(branch)
    requires main != Sanitize(branch) + "-" + hash(branch)
    requires Clean(Sanitize(branch) + "-" + hash(branch))
    ensures PossibleRun(NewMeta(main, 0), TakenRun(main, branch, hash), hash)
    ensures var m := After(NewMeta(main, 0), TakenRun(main, branch, hash), hash);
            var other := Sanitize(branch) + "-" + hash(branch);
            branch != other && branch in m.branches && other in m.branches
            && m.branches[branch].dbFile == m.branches[other].dbFile
  {
    var stem, other := Sanitize(branch), Sanitize(branch) + "-" + hash(branch);
    var m0, ops := NewMeta(main, 0), TakenRun(main, branch, hash);
    SanitizeFixesExactlyCleanNames(branch);
    CleanIsKept(other);
    SameFile(stem, hash(branch));
    StemsDiffer(stem, other);
    TrackStep(m0, stem, main, hash);
    StemIsTracked(m0, stem, main, hash);
    var m1 := Apply(m0, ops[0], hash);
    OtherIsTracked(m1, stem, other, main, hash);
    var m2 := Apply(m1, ops[1], hash);
    TrackStep(m2, branch, main, hash);
    HashedWhenTaken(m2, branch, stem, hash);
    ThreeSteps(m0, ops, hash);
  }

  lemma StemIsTracked(m: Meta, stem: Name, main: Name, hash: Name -> string)
    requires m == NewMeta(main, 0) && stem != main && StemFile(stem) != "tokensave.db"
    ensures var m' := Apply(m, Track(stem, Some(main), true, 0), hash);
            stem in m'.branches && m'.branches[stem].dbFile == StemFile(stem)
  {
  }

  lemma OtherIsTracked(m: Meta, stem: Name, other: Name, main: Name, hash: Name -> string)
    requires m.defaultBranch == main && m.branches.Keys == {main, stem} && other !in {main, stem}
    requires m.branches[stem].dbFile == StemFile(stem) != StemFile(other)
    requires m.branches[main].dbFile == "tokensave.db" != StemFile(other)
    ensures Possible(m, Track(other, Some(main), true, 0))
    ensures var m' := Apply(m, Track(other, Some(main), true, 0), hash);
            && m'.branches.Keys == {main, stem, other} && m'.defaultBranch == main
            && m'.branches[stem].dbFile == StemFile(stem) && m'.branches[other].dbFile == StemFile(other)
  {
    TrackStep(m, other, main, hash);
  }

  lemma HashedWhenTaken(m: Meta, branch: Name, stem: Name, hash: Name -> string)
    requires stem != branch && stem in m.branches && m.branches[stem].dbFile == StemFile(branch)
    ensures UniqueDbFile(m, branch, hash) == HashedFile(branch, hash)
  {
  }

  /** The stem's file is neither that of a longer stem nor the default's. */
  lemma StemsDiffer(stem: string, other: string)
    requires Sanitize(stem) == stem && Sanitize(other) == other && |stem| < |other|
    ensures StemFile(stem) != StemFile(other)
    ensures StemFile(stem) != "tokensave.db" && StemFile(other) != "tokensave.db"
  {
    assert |StemFile(stem)| < |StemFile(other)|;
    assert StemFile(stem)[0] == 'b' && StemFile(other)[0] == 'b' && "tokensave.db"[0] == 't';
  }

  lemma ThreeSteps(m: Meta, ops: seq<Op>, hash: Name -> string)
    requires |ops| == 3
    requires Possible(m, ops[0]) && Possible(Apply(m, ops[0], hash), ops[1])
    requires Possible(Apply(Apply(m, ops[0], hash), ops[1], hash), ops[2])
    ensures PossibleRun(m, ops, hash)
    ensures After(m, ops, hash) == Apply(Apply(Apply(m, ops[0], hash), ops[1], hash), ops[2], hash)
  {
    var a, b, c := ops[0], ops[1], ops[2];
    var m1 := Apply(m, a, hash);
    OneMore(m, [], a, m, hash);
    OneMore(m, [a], b, m1, hash);
    OneMore(m, [a, b], c, Apply(m1, b, hash), hash);
    assert [] + [a] == [a] && [a] + [b] == [a, b] && [a, b] + [c] == ops;
  }

  lemma SameFile(stem: string, digest: string)
    ensures "branches/" + stem + "-" + digest + ".db" == "branches/" + (stem + "-" + digest) + ".db"
  {
  }
}

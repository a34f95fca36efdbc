/**
 Project discovery (`discover_project_from` in src/config.rs). The start directory's
 ancestors are positions in a chain from the file system root (0) down; each directory
 carries its project files and its `.git` marker.
 */
module Discovery {
  import opened Common

  datatype GitMarker = Repository | LinkedWorktree

  /** `hasDb`: `.tokensave/tokensave.db` exists; `hasConfig`: `config.json` is a file. */
  datatype Dir = Dir(hasDb: bool, hasConfig: bool, isHome: bool, git: Option<GitMarker>)

  datatype Found =
    | Initialized(root: nat)
    | Incomplete(root: nat)
    | Uninitialized(gitRoot: Option<nat>)

  /** A database makes a project, even in the home directory; a bare config does not there. */
  predicate IsProject(d: Dir) {
    d.hasDb || (!d.isHome && d.hasConfig)
  }

  function ProjectAt(chain: seq<Dir>, p: nat): Found
    requires p < |chain| && IsProject(chain[p])
  {
    if chain[p].hasDb then Initialized(p) else Incomplete(p)
  }

  predicate MarkerIn(chain: seq<Dir>, lo: int, hi: int) {
    exists i :: lo < i <= hi && 0 <= i < |chain| && chain[i].git.Some?
  }

  predicate RepositoryIn(chain: seq<Dir>, lo: int, hi: int) {
    exists i :: lo < i <= hi && 0 <= i < |chain| && chain[i].git == Some(Repository)
  }

  /** `p` is the deepest project at or above `start`; -1 when there is none. */
  predicate NearestProject(chain: seq<Dir>, start: nat, p: int)
    requires start < |chain|
  {
    -1 <= p <= start && (p >= 0 ==> IsProject(chain[p]))
    && forall i :: p < i <= start ==> !IsProject(chain[i])
  }

  predicate NearestMarker(chain: seq<Dir>, start: nat, g: Option<nat>)
    requires start < |chain|
  {
    match g
    case None => forall i :: 0 <= i <= start ==> chain[i].git == None
    case Some(r) => r <= start && chain[r].git.Some? && forall i :: r < i <= start ==> chain[i].git == None
  }

  /** What `f` must be when `p` is the nearest project. */
  predicate OwnedVia(chain: seq<Dir>, start: nat, p: int, f: Found)
    requires start < |chain|
  {
    NearestProject(chain, start, p) &&
    if p >= 0 && !(RepositoryIn(chain, p, start) && MarkerIn(chain, -1, p)) then f == ProjectAt(chain, p)
    else f.Uninitialized? && NearestMarker(chain, start, f.gitRoot)
  }

  /** The rule: the nearest project wins, unless it belongs to an outer repository that an
      independent repository below it cuts off; then only the nearest git root is left. */
  ghost predicate Owner(chain: seq<Dir>, start: nat, f: Found)
    requires start < |chain|
  {
    exists p :: OwnedVia(chain, start, p, f)
  }

  /** The upward walk, one ancestor per turn. */
  method Discover(chain: seq<Dir>, start: nat) returns (f: Found)
    requires start < |chain|
    ensures Owner(chain, start, f)
    ensures f.Initialized? ==> f.root <= start && chain[f.root].hasDb
    ensures f.Incomplete? ==>
              f.root <= start && !chain[f.root].hasDb && chain[f.root].hasConfig && !chain[f.root].isHome
    ensures (forall i :: 0 <= i <= start ==> chain[i].git == None) ==>
              (f == Uninitialized(None) <==>
                 forall i :: 0 <= i <= start ==> !chain[i].hasDb && (chain[i].isHome || !chain[i].hasConfig))
  {
    var gitRoot: Option<nat> := None;
    var crossed := false;
    var dir: int := start;
    while dir >= 0
      invariant -1 <= dir <= start
      invariant forall i :: dir < i <= start ==> !IsProject(chain[i])
      invariant crossed <==> RepositoryIn(chain, dir, start)
      invariant match gitRoot
                case None => forall i :: dir < i <= start ==> chain[i].git == None
                case Some(r) => dir < r && NearestMarker(chain, start, gitRoot)
    {
      if IsProject(chain[dir]) {
        assert NearestProject(chain, start, dir);
        if crossed {
          var marked := MarkedAbove(chain, dir);
          if marked {
            break;
          }
        }
        assert OwnedVia(chain, start, dir, ProjectAt(chain, dir));
        return ProjectAt(chain, dir);
      }
      var marker := chain[dir].git;
      if marker.Some? {
        if gitRoot == None {
          gitRoot := Some(dir);
        }
        if marker.value == Repository {
          crossed := true;
        }
      }
      dir := dir - 1;
    }
    assert NearestProject(chain, start, dir);
    f := Uninitialized(gitRoot);
    assert OwnedVia(chain, start, dir, f);
  }

  /** `dir.ancestors().any(..)`: a marker in `dir` or above. */
  method MarkedAbove(chain: seq<Dir>, dir: nat) returns (marked: bool)
    requires dir < |chain|
    ensures marked <==> MarkerIn(chain, -1, dir)
  {
    var i: int := dir;
    while i >= 0
      invariant -1 <= i <= dir && !MarkerIn(chain, i, dir)
    {
      if chain[i].git.Some? {
        return true;
      }
      i := i - 1;
    }
    marked := false;
  }

  // ------------------------------------------------------------- properties

  lemma NearestIsUnique(chain: seq<Dir>, start: nat, p: int, q: int)
    requires start < |chain| && NearestProject(chain, start, p) && NearestProject(chain, start, q)
    ensures p == q
  {
  }

  /** The rule has at most one answer, so it says exactly what the walk returns. */
  lemma OwnerIsUnique(chain: seq<Dir>, start: nat, f: Found, g: Found)
    requires start < |chain| && Owner(chain, start, f) && Owner(chain, start, g)
    ensures f == g
  {
    var p :| OwnedVia(chain, start, p, f);
    var q :| OwnedVia(chain, start, q, g);
    NearestIsUnique(chain, start, p, q);
  }

  /** If a directory resolves to a project, so does every directory between them. */
  lemma EveryDirectoryBetweenAgrees(chain: seq<Dir>, start: nat, between: nat, f: Found)
    requires start < |chain| && Owner(chain, start, f) && !f.Uninitialized?
    requires f.root <= between <= start
    ensures Owner(chain, between, f)
  {
    if RepositoryIn(chain, f.root, between) {
      assert RepositoryIn(chain, f.root, start);
    }
    assert OwnedVia(chain, between, f.root, f);
  }

  /** A reported git root is a fixed point: starting there gives the same answer. */
  lemma GitRootIsAFixedPoint(chain: seq<Dir>, start: nat, g: nat)
    requires start < |chain| && Owner(chain, start, Uninitialized(Some(g)))
    ensures g <= start && chain[g].git.Some? && Owner(chain, g, Uninitialized(Some(g)))
  {
    var p :| OwnedVia(chain, start, p, Uninitialized(Some(g)));
    if p >= 0 {
      assert RepositoryIn(chain, p, g) by {
        var i :| p < i <= start && 0 <= i < |chain| && chain[i].git == Some(Repository);
        assert i <= g;
      }
    }
    assert OwnedVia(chain, g, p, Uninitialized(Some(g)));
  }

  /** Isolation: an owner found above a repository's root lies under no marker, neither its
      own nor one further up. */
  lemma OuterRepositoryIsNeverUsed(chain: seq<Dir>, start: nat, f: Found, repo: nat)
    requires start < |chain| && Owner(chain, start, f) && !f.Uninitialized?
    requires f.root < repo <= start && chain[repo].git == Some(Repository)
    ensures forall i :: 0 <= i <= f.root ==> chain[i].git == None
  {
    assert RepositoryIn(chain, f.root, start);
    forall i | 0 <= i <= f.root ensures chain[i].git == None {
      if chain[i].git.Some? {
        assert MarkerIn(chain, -1, f.root);
      }
    }
  }
}

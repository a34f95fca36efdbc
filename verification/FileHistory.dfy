/**
 A file's history (src/blame_engine.rs): the first-parent walk that drops unchanged
 blobs, and the grouping of matched visits into change events, on runs where no rename
 is followed. Commits are positions in the first-parent chain, newest first.
 */
module FileHistory {
  import opened Common

  type Blob = nat

  /** A commit's tree entry for the file, and the commit it yields. */
  datatype Visit = Visit(commit: nat, blob: Blob)

  // --------------------------------------------------------------- the walk

  /** The blob last recorded by the walk of `chain`: that of its oldest present commit. */
  function LastPresent(chain: seq<Option<Blob>>): Option<Blob> {
    if chain == [] then None
    else if chain[|chain| - 1].Some? then chain[|chain| - 1]
    else LastPresent(chain[..|chain| - 1])
  }

  /** The commits that have the file with another blob than the nearest newer commit that
      has it: the newest commit of every run of equal blobs. */
  function Visits(chain: seq<Option<Blob>>): seq<Visit> {
    if chain == [] then []
    else
      var n := |chain| - 1;
      Visits(chain[..n])
      + if chain[n].Some? && chain[n] != LastPresent(chain[..n]) then [Visit(n, chain[n].value)] else []
  }

  method WalkFileHistory(chain: seq<Option<Blob>>, maxCommits: nat)
      returns (visits: seq<Visit>, visited: nat, hitMax: bool)
    requires chain != []
    ensures visited == (if maxCommits <= |chain| then maxCommits else |chain|)
    ensures visits == Visits(chain[..visited])
    ensures hitMax <==> |chain| > maxCommits
  {
    visits, visited := [], 0;
    var lastBlob: Option<Blob> := None;
    var exhausted := false;
    while visited < maxCommits && !exhausted
      invariant visited <= maxCommits && visited <= |chain|
      invariant exhausted <==> visited == |chain|
      invariant visits == Visits(chain[..visited]) && lastBlob == LastPresent(chain[..visited])
    {
      assert chain[..visited + 1][..visited] == chain[..visited];
      var entry := chain[visited];
      if entry.Some? && lastBlob != entry {
        visits := visits + [Visit(visited, entry.value)];
        lastBlob := entry;
      }
      visited := visited + 1;
      exhausted := visited == |chain|;
    }
    hitMax := !exhausted && visited == maxCommits;
  }

  function Present(chain: seq<Option<Blob>>): seq<Blob> {
    if chain == [] then []
    else
      var n := |chain| - 1;
      Present(chain[..n]) + if chain[n].Some? then [chain[n].value] else []
  }

  /** Adjacent duplicates removed. */
  function Dedup<T(==)>(xs: seq<T>): (ys: seq<T>)
    ensures xs != [] ==> ys != [] && ys[|ys| - 1] == xs[|xs| - 1]
  {
    if xs == [] then []
    else
      var n := |xs| - 1;
      var ys := Dedup(xs[..n]);
      if n > 0 && xs[n - 1] == xs[n] then ys else ys + [xs[n]]
  }

  function Blobs(visits: seq<Visit>): (bs: seq<Blob>)
    ensures |bs| == |visits|
  {
    seq(|visits|, i requires 0 <= i < |visits| => visits[i].blob)
  }

  lemma LastPresentIsLast(chain: seq<Option<Blob>>)
    ensures LastPresent(chain) == (if Present(chain) == [] then None else Some(Present(chain)[|Present(chain)| - 1]))
  {
  }

  lemma BlobsAppend(visits: seq<Visit>, v: Visit)
    ensures Blobs(visits + [v]) == Blobs(visits) + [v.blob]
  {
  }

  lemma DedupAppend<T>(xs: seq<T>, x: T)
    ensures Dedup(xs + [x]) == (if xs != [] && xs[|xs| - 1] == x then Dedup(xs) else Dedup(xs) + [x])
  {
    assert (xs + [x])[..|xs|] == xs;
  }

  /** The visits' blobs are the present blobs of the chain with adjacent repeats removed. */
  lemma {:induction false} VisitedBlobsAreDeduplicated(chain: seq<Option<Blob>>)
    ensures Blobs(Visits(chain)) == Dedup(Present(chain))
    decreases |chain|
  {
    if chain != [] {
      var n := |chain| - 1;
      VisitedBlobsAreDeduplicated(chain[..n]);
      LastPresentIsLast(chain[..n]);
      if chain[n].None? {
        assert Visits(chain) == Visits(chain[..n]) && Present(chain) == Present(chain[..n]);
      } else {
        OneMoreBlob(Visits(chain[..n]), Present(chain[..n]), n, chain[n].value);
      }
    }
  }

  lemma OneMoreBlob(visits: seq<Visit>, present: seq<Blob>, n: nat, b: Blob)
    requires Blobs(visits) == Dedup(present)
    ensures Dedup(present + [b])
            == Blobs(visits + if present != [] && present[|present| - 1] == b then [] else [Visit(n, b)])
  {
    DedupAppend(present, b);
    BlobsAppend(visits, Visit(n, b));
    assert visits + [] == visits;
  }

  /** Which commits are visited, each exactly once and newest first. */
  lemma VisitsAreRunHeads(chain: seq<Option<Blob>>)
    ensures forall v :: v in Visits(chain) <==>
              v.commit < |chain| && chain[v.commit] == Some(v.blob)
              && LastPresent(chain[..v.commit]) != Some(v.blob)
    ensures forall i, j :: 0 <= i < j < |Visits(chain)| ==> Visits(chain)[i].commit < Visits(chain)[j].commit
  {
    if chain != [] {
      var n := |chain| - 1;
      VisitsAreRunHeads(chain[..n]);
      var vs := Visits(chain[..n]);
      forall i | 0 <= i < |vs| ensures vs[i].commit < n {
        assert vs[i] in vs;
      }
      forall v: Visit | v.commit < n
        ensures chain[..n][v.commit] == chain[v.commit] && chain[..n][..v.commit] == chain[..v.commit]
      {
      }
    }
  }

  // ------------------------------------------------- who introduced the blob

  /** Commit `i` changed the file: its parent, the next older commit, has another entry. */
  predicate ChangesFile(chain: seq<Option<Blob>>, i: nat)
    requires i < |chain|
  {
    i + 1 == |chain| || chain[i + 1] != chain[i]
  }

  /** The commit that brought in what commit `i` holds. */
  function IntroducedAt(chain: seq<Option<Blob>>, i: nat): (j: nat)
    requires i < |chain|
    ensures i <= j < |chain| && ChangesFile(chain, j) && (j == i <==> ChangesFile(chain, i))
    ensures forall k :: i <= k <= j ==> chain[k] == chain[i]
    decreases |chain| - i
  {
    if ChangesFile(chain, i) then i else IntroducedAt(chain, i + 1)
  }

  /** Every visit of a walk names the commit that introduced its blob if and only if no two
      consecutive commits hold one blob, the newer of them walked, unless the nearest newer
      commit with the file holds that blob too. */
  lemma VisitsNameIntroducersIff(chain: seq<Option<Blob>>, walked: nat)
    requires walked <= |chain|
    ensures (forall v :: v in Visits(chain[..walked]) ==>
               v.commit < |chain| && IntroducedAt(chain, v.commit) == v.commit)
            <==> forall i :: 0 <= i < walked && i + 1 < |chain| && chain[i].Some? && chain[i + 1] == chain[i] ==>
                   LastPresent(chain[..i]) == chain[i]
  {
    var c := chain[..walked];
    VisitsAreRunHeads(c);
    assert forall i :: 0 <= i <= walked ==> c[..i] == chain[..i];
    forall i | 0 <= i < walked && i + 1 < |chain| && chain[i].Some? && chain[i + 1] == chain[i]
      ensures LastPresent(chain[..i]) == chain[i] <==> Visit(i, chain[i].value) !in Visits(c)
    {
      assert c[i] == Some(chain[i].value) && c[..i] == chain[..i];
    }
    forall v | v in Visits(c) ensures v.commit < walked && chain[v.commit] == Some(v.blob) {
      assert c[v.commit] == chain[v.commit];
    }
  }

  /** Two commits with one blob: the newer is visited, the older introduced it. And a chain
      where that blob is back after an absence: its one visit did change the file. */
  lemma NewestNotIntroducing(b: Blob)
    ensures Visits([Some(b), Some(b)]) == [Visit(0, b)] && IntroducedAt([Some(b), Some(b)], 0) == 1
    ensures Visits([Some(b), None, Some(b), Some(b)]) == [Visit(0, b)]
    ensures IntroducedAt([Some(b), None, Some(b), Some(b)], 0) == 0
  {
    var c := [Some(b), Some(b)];
    assert c[..1] == [Some(b)] && [Some(b)][..0] == [];
    assert Visits([Some(b)]) == [Visit(0, b)];
    var d: seq<Option<Blob>> := [Some(b), None, Some(b), Some(b)];
    assert d[..3][..2] == d[..2] && d[..2][..1] == d[..1] && d[..1][..0] == [];
    assert Visits(d[..1]) == [Visit(0, b)] && LastPresent(d[..1]) == Some(b);
    assert Visits(d[..2]) == [Visit(0, b)] && LastPresent(d[..2]) == Some(b);
    assert Visits(d[..3]) == [Visit(0, b)] && LastPresent(d[..3]) == Some(b);
  }

  // --------------------------------------------------------------- grouping

  /** What looking for the entity in a visit's blob gives: too large or unparseable, a
      match with its syntax hash, or no match. */
  datatype Look = Skipped | Matched(hash: int) | Vanished

  datatype Match = Match(commit: nat, hash: int)
  datatype Boundary = Introduced | MaxCommitsReached | HistoryExhausted

  /** The matches before the entity first vanishes, newest first. */
  function Matches(visits: seq<Visit>, look: Blob -> Look): seq<Match> {
    if visits == [] then []
    else
      match look(visits[0].blob)
      case Skipped => Matches(visits[1..], look)
      case Matched(h) => [Match(visits[0].commit, h)] + Matches(visits[1..], look)
      case Vanished => []
  }

  predicate Vanishes(visits: seq<Visit>, look: Blob -> Look) {
    visits != [] && (look(visits[0].blob) == Vanished || Vanishes(visits[1..], look))
  }

  /** One visit in: what it does to the matches and to vanishing. */
  lemma OneVisit(visits: seq<Visit>, look: Blob -> Look, i: nat)
    requires i < |visits|
    ensures var rest := visits[i + 1..];
            Matches(visits[i..], look) ==
            (match look(visits[i].blob)
             case Skipped => Matches(rest, look)
             case Matched(h) => [Match(visits[i].commit, h)] + Matches(rest, look)
             case Vanished => [])
    ensures Vanishes(visits[i..], look) <==> look(visits[i].blob) == Vanished || Vanishes(visits[i + 1..], look)
  {
    assert visits[i..][1..] == visits[i + 1..];
  }

  /** Match `i` is the oldest of its run of equal hashes. */
  predicate EndsRun(ms: seq<Match>, i: nat)
    requires i < |ms|
  {
    i + 1 == |ms| || ms[i + 1].hash != ms[i].hash
  }

  /** The oldest match of every maximal run, from position `i` on. */
  function RunEnds(ms: seq<Match>, i: nat): seq<Match>
    requires i <= |ms|
    decreases |ms| - i
  {
    if i == |ms| then [] else (if EndsRun(ms, i) then [ms[i]] else []) + RunEnds(ms, i + 1)
  }

  function Reverse(ms: seq<Match>): (r: seq<Match>)
    ensures |r| == |ms| && forall i :: 0 <= i < |ms| ==> r[i] == ms[|ms| - 1 - i]
  {
    if ms == [] then [] else Reverse(ms[1..]) + [ms[0]]
  }

  lemma {:induction false} RunEndsLast(ms: seq<Match>, i: nat)
    requires i < |ms|
    ensures RunEnds(ms, i) != [] && RunEnds(ms, i)[|RunEnds(ms, i)| - 1] == ms[|ms| - 1]
    decreases |ms| - i
  {
    if i + 1 < |ms| {
      RunEndsLast(ms, i + 1);
    } else {
      assert RunEnds(ms, i + 1) == [];
    }
  }

  /** What one more match does to the run ends so far: replace the last, or be added. */
  function WithMatch(ends: seq<Match>, last: Match, m: Match): seq<Match>
    requires ends != []
  {
    (if last.hash == m.hash then ends[..|ends| - 1] else ends) + [m]
  }

  lemma WithMatchBehind(head: seq<Match>, ends: seq<Match>, last: Match, m: Match)
    requires ends != []
    ensures WithMatch(head + ends, last, m) == head + WithMatch(ends, last, m)
  {
  }

  /** One more match either replaces the pending one or flushes it. */
  lemma {:induction false} RunEndsGrow(ms: seq<Match>, m: Match, i: nat)
    requires i < |ms|
    ensures RunEnds(ms, i) != []
    ensures RunEnds(ms + [m], i) == WithMatch(RunEnds(ms, i), ms[|ms| - 1], m)
    decreases |ms| - i
  {
    var all := ms + [m];
    RunEndsLast(ms, i);
    assert all[i] == ms[i];
    if i + 1 < |ms| {
      RunEndsGrow(ms, m, i + 1);
      assert all[i + 1] == ms[i + 1];
      WithMatchBehind(if EndsRun(ms, i) then [ms[i]] else [], RunEnds(ms, i + 1), ms[|ms| - 1], m);
    } else {
      assert all[i + 1] == m;
      LastRun(ms, i);
      LastRun(all, i + 1);
    }
  }

  lemma LastRun(ms: seq<Match>, i: nat)
    requires i + 1 == |ms|
    ensures RunEnds(ms, i) == [ms[i]]
  {
    assert RunEnds(ms, i + 1) == [];
  }

  /** The grouping loop's state: matches read, events flushed, the pending match. */
  ghost predicate Grouping(ms: seq<Match>, events: seq<Match>, pending: Option<Match>) {
    if ms == [] then events == [] && pending == None
    else pending == Some(ms[|ms| - 1]) && events + [pending.value] == RunEnds(ms, 0)
  }

  lemma GroupOneMore(ms: seq<Match>, events: seq<Match>, pending: Option<Match>, m: Match)
    requires Grouping(ms, events, pending)
    ensures Grouping(ms + [m],
                     if pending.Some? && pending.value.hash != m.hash then events + [pending.value] else events,
                     Some(m))
  {
    if ms == [] {
      assert ms + [m] == [m] && RunEnds([m], 1) == [];
      assert RunEnds([m], 0) == [m];
    } else {
      RunEndsLast(ms, 0);
      RunEndsGrow(ms, m, 0);
      assert RunEnds(ms, 0)[..|RunEnds(ms, 0)| - 1] == events;
    }
  }

  /** The grouping loop between two visits. */
  ghost predicate Reading(visits: seq<Visit>, look: Blob -> Look, i: nat, introduced: bool, ms: seq<Match>,
                          events: seq<Match>, pending: Option<Match>)
    requires i <= |visits|
  {
    Grouping(ms, events, pending)
    && Matches(visits, look) == ms + (if introduced then [] else Matches(visits[i..], look))
    && (Vanishes(visits, look) <==> introduced || Vanishes(visits[i..], look))
  }

  lemma ReadMatch(visits: seq<Visit>, look: Blob -> Look, i: nat, ms: seq<Match>, events: seq<Match>,
                  pending: Option<Match>, h: int)
    requires i < |visits| && look(visits[i].blob) == Matched(h)
    requires Reading(visits, look, i, false, ms, events, pending)
    ensures var m := Match(visits[i].commit, h);
            Reading(visits, look, i + 1, false, ms + [m],
                    if pending.Some? && pending.value.hash != h then events + [pending.value] else events, Some(m))
  {
    OneVisit(visits, look, i);
    var m := Match(visits[i].commit, h);
    GroupOneMore(ms, events, pending, m);
    Regroup(ms, m, Matches(visits[i + 1..], look));
  }

  lemma Regroup(ms: seq<Match>, m: Match, rest: seq<Match>)
    ensures ms + ([m] + rest) == (ms + [m]) + rest
  {
  }

  lemma ReadNothing(visits: seq<Visit>, look: Blob -> Look, i: nat, ms: seq<Match>, events: seq<Match>,
                    pending: Option<Match>)
    requires i < |visits| && !look(visits[i].blob).Matched?
    requires Reading(visits, look, i, false, ms, events, pending)
    ensures Reading(visits, look, i + 1, look(visits[i].blob) == Vanished, ms, events, pending)
  {
    OneVisit(visits, look, i);
  }

  /** Groups the visits, newest first, keeping the oldest match of the current run pending. */
  method Group(visits: seq<Visit>, look: Blob -> Look) returns (events: seq<Match>, introduced: bool)
    ensures events == RunEnds(Matches(visits, look), 0)
    ensures introduced <==> Vanishes(visits, look)
  {
    events, introduced := [], false;
    var pending: Option<Match> := None;
    ghost var ms: seq<Match> := [];
    var i := 0;
    assert visits[0..] == visits && ms + Matches(visits, look) == Matches(visits, look);
    while i < |visits| && !introduced
      invariant i <= |visits| && Reading(visits, look, i, introduced, ms, events, pending)
      decreases |visits| - i
    {
      match look(visits[i].blob) {
        case Skipped =>
          ReadNothing(visits, look, i, ms, events, pending);
        case Vanished =>
          ReadNothing(visits, look, i, ms, events, pending);
          introduced := true;
        case Matched(h) =>
          ReadMatch(visits, look, i, ms, events, pending, h);
          if pending.Some? && pending.value.hash != h {
            events := events + [pending.value];
          }
          pending := Some(Match(visits[i].commit, h));
          ms := ms + [pending.value];
      }
      i := i + 1;
    }
    assert Matches(visits, look) == ms;
    if pending.Some? {
      events := events + [pending.value];
    }
  }

  /** The events of a walk of `walked` commits, oldest first. */
  function EventsOf(chain: seq<Option<Blob>>, walked: nat, look: Blob -> Look): seq<Match>
    requires walked <= |chain|
  {
    Reverse(RunEnds(Matches(Visits(chain[..walked]), look), 0))
  }

  /** One of the `walked` newest commits has a blob in which the search gives `what`. */
  predicate Holds(chain: seq<Option<Blob>>, walked: nat, look: Blob -> Look, what: Look)
    requires walked <= |chain|
  {
    exists i :: 0 <= i < walked && chain[i].Some? && look(chain[i].value) == what
  }

  /** Every blob of the chain is looked at. */
  lemma {:induction false} EveryBlobIsVisited(chain: seq<Option<Blob>>, i: nat)
    requires i < |chain| && chain[i].Some?
    ensures exists v :: v in Visits(chain) && v.blob == chain[i].value
    decreases |chain|
  {
    var n := |chain| - 1;
    if i < n {
      EveryBlobIsVisited(chain[..n], i);
    } else if chain[n] == LastPresent(chain[..n]) {
      var j := LastPresentAt(chain[..n]);
      EveryBlobIsVisited(chain[..n], j);
    } else {
      assert Visit(n, chain[n].value) in Visits(chain);
    }
  }

  lemma {:induction false} LastPresentAt(chain: seq<Option<Blob>>) returns (i: nat)
    requires LastPresent(chain).Some?
    ensures i < |chain| && chain[i] == LastPresent(chain)
    decreases |chain|
  {
    i := |chain| - 1;
    if chain[i] == None {
      i := LastPresentAt(chain[..i]);
    }
  }

  lemma {:induction false} VanishesIff(visits: seq<Visit>, look: Blob -> Look)
    ensures Vanishes(visits, look) <==> exists v :: v in visits && look(v.blob) == Vanished
    ensures Matches(visits, look) != [] ==> exists v :: v in visits && look(v.blob).Matched?
    ensures (forall v :: v in visits ==> look(v.blob) != Vanished) && Matches(visits, look) == [] ==>
              forall v :: v in visits ==> look(v.blob) == Skipped
    decreases |visits|
  {
    if visits != [] {
      VanishesIff(visits[1..], look);
      assert visits == [visits[0]] + visits[1..];
    }
  }

  /** What the walk met, said of the commits themselves. */
  lemma BoundaryIsExact(chain: seq<Option<Blob>>, walked: nat, look: Blob -> Look)
    requires walked <= |chain|
    ensures var visits := Visits(chain[..walked]);
            && (Vanishes(visits, look) <==> Holds(chain, walked, look, Vanished))
            && (!Vanishes(visits, look) && Matches(visits, look) == [] <==>
                  forall i :: 0 <= i < walked && chain[i].Some? ==> look(chain[i].value) == Skipped)
  {
    var c := chain[..walked];
    VanishesIff(Visits(c), look);
    VisitsAreRunHeads(c);
    assert forall i :: 0 <= i < walked ==> c[i] == chain[i];
    forall i | 0 <= i < walked && chain[i].Some?
      ensures exists v :: v in Visits(c) && v.blob == chain[i].value
    {
      EveryBlobIsVisited(c, i);
    }
    forall v | v in Visits(c) ensures v.commit < walked && chain[v.commit] == Some(v.blob) {
      assert c[v.commit] == chain[v.commit];
    }
  }

  /** `log` without renames: walk, group, put the events oldest first. */
  method Log(chain: seq<Option<Blob>>, maxCommits: nat, look: Blob -> Look)
      returns (events: seq<Match>, boundary: Boundary, walked: nat)
    requires chain != []
    ensures walked == (if maxCommits <= |chain| then maxCommits else |chain|)
    ensures events == EventsOf(chain, walked, look)
    ensures boundary == (if Vanishes(Visits(chain[..walked]), look) then Introduced
                         else if |chain| > maxCommits then MaxCommitsReached
                         else if Matches(Visits(chain[..walked]), look) != [] then Introduced
                         else HistoryExhausted)
    ensures boundary == MaxCommitsReached <==>
              |chain| > maxCommits && !Holds(chain, walked, look, Vanished)
    ensures boundary == HistoryExhausted <==>
              |chain| <= maxCommits
              && forall i :: 0 <= i < |chain| && chain[i].Some? ==> look(chain[i].value) == Skipped
  {
    var visits, hitMax, introduced;
    visits, walked, hitMax := WalkFileHistory(chain, maxCommits);
    BoundaryIsExact(chain, walked, look);
    events, introduced := Group(visits, look);
    RunEndsNonEmpty(Matches(visits, look));
    events := Reversed(events);
    boundary := if introduced then Introduced else if hitMax then MaxCommitsReached
                else if events != [] then Introduced else HistoryExhausted;
  }

  lemma RunEndsNonEmpty(ms: seq<Match>)
    ensures RunEnds(ms, 0) == [] <==> ms == []
  {
    if ms != [] { RunEndsLast(ms, 0); }
  }

  method Reversed(ms: seq<Match>) returns (r: seq<Match>)
    ensures r == Reverse(ms)
  {
    r := [];
    for i := 0 to |ms|
      invariant |r| == i && forall k :: 0 <= k < i ==> r[k] == ms[i - 1 - k]
    {
      r := [ms[i]] + r;
    }
  }

  /** The events carry each run's hash once, in order: grouping is removing adjacent
      repeats, so no two neighbouring events have the same hash. */
  lemma {:induction false} EventsAreDeduplicated(ms: seq<Match>)
    ensures Hashes(RunEnds(ms, 0)) == Dedup(Hashes(ms))
    decreases |ms|
  {
    if ms != [] {
      var n := |ms| - 1;
      assert ms == ms[..n] + [ms[n]];
      EventsAreDeduplicated(ms[..n]);
      OneMoreEvent(ms[..n], ms[n]);
    }
  }

  lemma OneMoreEvent(ms: seq<Match>, m: Match)
    requires Hashes(RunEnds(ms, 0)) == Dedup(Hashes(ms))
    ensures Hashes(RunEnds(ms + [m], 0)) == Dedup(Hashes(ms + [m]))
  {
    HashesAppend(ms, m);
    DedupAppend(Hashes(ms), m.hash);
    if ms == [] {
      assert ms + [m] == [m];
      LastRun([m], 0);
    } else {
      RunEndsLast(ms, 0);
      RunEndsGrow(ms, m, 0);
      WithMatchHashes(RunEnds(ms, 0), ms[|ms| - 1], m);
    }
  }

  lemma WithMatchHashes(ends: seq<Match>, last: Match, m: Match)
    requires ends != [] && ends[|ends| - 1] == last
    ensures Hashes(WithMatch(ends, last, m)) == if last.hash == m.hash then Hashes(ends) else Hashes(ends) + [m.hash]
  {
    HashesAppend(ends, m);
  }

  function Hashes(ms: seq<Match>): (hs: seq<int>)
    ensures |hs| == |ms| && forall i :: 0 <= i < |ms| ==> hs[i] == ms[i].hash
  {
    seq(|ms|, i requires 0 <= i < |ms| => ms[i].hash)
  }

  lemma HashesAppend(ms: seq<Match>, m: Match)
    ensures Hashes(ms + [m]) == Hashes(ms) + [m.hash]
  {
  }

  predicate NewestFirst(ms: seq<Match>) {
    forall i, j :: 0 <= i < j < |ms| ==> ms[i].commit < ms[j].commit
  }

  lemma MatchesDescend(visits: seq<Visit>, look: Blob -> Look)
    requires forall i, j :: 0 <= i < j < |visits| ==> visits[i].commit < visits[j].commit
    ensures NewestFirst(Matches(visits, look))
    ensures forall m :: m in Matches(visits, look) ==> visits != [] && visits[0].commit <= m.commit
  {
    if visits != [] {
      MatchesDescend(visits[1..], look);
    }
  }

  lemma {:induction false} RunEndsDescend(ms: seq<Match>, i: nat)
    requires i <= |ms| && NewestFirst(ms)
    ensures NewestFirst(RunEnds(ms, i))
    ensures forall m :: m in RunEnds(ms, i) ==> i < |ms| && ms[i].commit <= m.commit
    decreases |ms| - i
  {
    if i < |ms| {
      RunEndsDescend(ms, i + 1);
      DescendOne(ms, i, RunEnds(ms, i + 1));
      OneRunEnd(ms, i);
    } else {
      NoRunEnd(ms);
    }
  }

  lemma NoRunEnd(ms: seq<Match>)
    ensures RunEnds(ms, |ms|) == []
  {
  }

  lemma DescendOne(ms: seq<Match>, i: nat, rest: seq<Match>)
    requires i < |ms| && NewestFirst(ms) && NewestFirst(rest)
    requires forall m :: m in rest ==> i + 1 < |ms| && ms[i + 1].commit <= m.commit
    ensures var ends := if EndsRun(ms, i) then [ms[i]] + rest else rest;
            NewestFirst(ends) && forall m :: m in ends ==> ms[i].commit <= m.commit
  {
    if EndsRun(ms, i) { PrependNewer(ms[i], rest); }
  }

  lemma OneRunEnd(ms: seq<Match>, i: nat)
    requires i < |ms|
    ensures RunEnds(ms, i) == if EndsRun(ms, i) then [ms[i]] + RunEnds(ms, i + 1) else RunEnds(ms, i + 1)
  {
  }

  lemma PrependNewer(m: Match, rest: seq<Match>)
    requires NewestFirst(rest) && forall e :: e in rest ==> m.commit < e.commit
    ensures NewestFirst([m] + rest)
  {
    forall j | 0 < j < |rest| + 1 ensures m.commit < ([m] + rest)[j].commit {
      assert rest[j - 1] in rest;
    }
  }

  /** Matches come from visits, newest first, so the reversed events are oldest first. */
  lemma EventsAreOldestFirst(chain: seq<Option<Blob>>, walked: nat, look: Blob -> Look)
    requires walked <= |chain|
    ensures var events := EventsOf(chain, walked, look);
            forall i, j :: 0 <= i < j < |events| ==> events[i].commit > events[j].commit
  {
    var visits := Visits(chain[..walked]);
    VisitsAreRunHeads(chain[..walked]);
    MatchesDescend(visits, look);
    RunEndsDescend(Matches(visits, look), 0);
  }

  // ------------------------------------------------- who introduced the body

  /** The hash of the entity in commit `i`, if the commit has it. */
  function BodyAt(chain: seq<Option<Blob>>, look: Blob -> Look, i: nat): Option<int> {
    if i < |chain| && chain[i].Some? && look(chain[i].value).Matched? then Some(look(chain[i].value).hash) else None
  }

  /** The event's commit introduced its body: the next older commit has none or another. */
  predicate IntroducesBody(chain: seq<Option<Blob>>, look: Blob -> Look, e: Match) {
    BodyAt(chain, look, e.commit + 1) != Some(e.hash)
  }

  /** What can be read off the chain: the next older commit holds another blob, or, past the
      end of the walk, another body. */
  predicate NextOlderDiffers(chain: seq<Option<Blob>>, walked: nat, look: Blob -> Look, e: Match) {
    e.commit + 1 >= |chain|
    || if e.commit + 1 < walked then chain[e.commit + 1] != chain[e.commit]
       else BodyAt(chain, look, e.commit + 1) != Some(e.hash)
  }

  lemma MatchesMembers(visits: seq<Visit>, look: Blob -> Look, m: Match) returns (j: nat)
    requires m in Matches(visits, look)
    ensures j < |visits| && visits[j].commit == m.commit && look(visits[j].blob) == Matched(m.hash)
  {
    if look(visits[0].blob).Matched? && m == Match(visits[0].commit, look(visits[0].blob).hash) {
      j := 0;
    } else {
      j := MatchesMembers(visits[1..], look, m);
      j := j + 1;
    }
  }

  lemma RunEndsMembers(ms: seq<Match>, i: nat, e: Match) returns (j: nat)
    requires i <= |ms| && e in RunEnds(ms, i)
    ensures i <= j < |ms| && ms[j] == e && EndsRun(ms, j)
    decreases |ms| - i
  {
    if EndsRun(ms, i) && e == ms[i] {
      j := i;
    } else {
      j := RunEndsMembers(ms, i + 1, e);
    }
  }

  /** The visit after a matched one is matched next. */
  lemma {:induction false} MatchedNext(visits: seq<Visit>, look: Blob -> Look, e: Match, j: nat, h: int)
      returns (i: nat)
    requires forall k, l :: 0 <= k < l < |visits| ==> visits[k].commit < visits[l].commit
    requires j + 1 < |visits| && visits[j].commit == e.commit && e in Matches(visits, look)
    requires look(visits[j + 1].blob) == Matched(h)
    ensures var ms := Matches(visits, look);
            i + 1 < |ms| && ms[i] == e && ms[i + 1] == Match(visits[j + 1].commit, h)
    decreases |visits|
  {
    var rest := Matches(visits[1..], look);
    MatchesDescend(visits[1..], look);
    if j == 0 {
      i := 0;
      assert e !in rest;
    } else {
      i := MatchedNext(visits[1..], look, e, j - 1, h);
      if look(visits[0].blob).Matched? {
        i := i + 1;
      }
    }
  }

  /** The commit after a visited one is visited next when it holds another blob. */
  lemma VisitedNext(chain: seq<Option<Blob>>, j: nat, b: Blob)
    requires j < |Visits(chain)|
    requires var c := Visits(chain)[j].commit;
             c + 1 < |chain| && chain[c + 1] == Some(b) != chain[c]
    ensures j + 1 < |Visits(chain)| && Visits(chain)[j + 1] == Visit(Visits(chain)[j].commit + 1, b)
  {
    VisitsAreRunHeads(chain);
    var vs := Visits(chain);
    var c := vs[j].commit;
    assert vs[j] in vs && chain[c].Some?;
    assert chain[..c + 1][..c] == chain[..c] && LastPresent(chain[..c + 1]) == chain[c];
    var next := Visit(c + 1, b);
    assert next in vs;
    var l :| 0 <= l < |vs| && vs[l] == next;
    NoVisitBetween(vs, j, l);
  }

  lemma NoVisitBetween(vs: seq<Visit>, j: nat, l: nat)
    requires forall k, m :: 0 <= k < m < |vs| ==> vs[k].commit < vs[m].commit
    requires j < |vs| && l < |vs| && vs[l].commit == vs[j].commit + 1
    ensures l == j + 1
  {
    if l > j + 1 {
      FarVisit(vs, j, l);
    }
  }

  lemma FarVisit(vs: seq<Visit>, j: nat, l: nat)
    requires forall k, m :: 0 <= k < m < |vs| ==> vs[k].commit < vs[m].commit
    requires j + 1 < l < |vs|
    ensures vs[j].commit + 1 < vs[l].commit
  {
    assert vs[j].commit < vs[j + 1].commit < vs[l].commit;
  }

  /** An event names the commit that introduced its body if and only if the next older commit
      holds another blob or, when it was not walked, another body. */
  lemma EventNamesIntroducerIff(chain: seq<Option<Blob>>, walked: nat, look: Blob -> Look, e: Match)
    requires walked <= |chain| && e in EventsOf(chain, walked, look)
    ensures e.commit < walked && BodyAt(chain, look, e.commit) == Some(e.hash)
    ensures IntroducesBody(chain, look, e) <==> NextOlderDiffers(chain, walked, look, e)
  {
    var c := chain[..walked];
    var vs, ms := Visits(c), Matches(Visits(c), look);
    ReverseKeeps(RunEnds(ms, 0), e);
    var i := RunEndsMembers(ms, 0, e);
    var j := MatchesMembers(vs, look, e);
    VisitsAreRunHeads(c);
    assert vs[j] in vs && c[e.commit] == chain[e.commit];
    if e.commit + 1 < walked && chain[e.commit + 1] != chain[e.commit] {
      assert c[e.commit + 1] == chain[e.commit + 1];
      OlderBodyDiffers(c, look, e, i, j);
    }
  }

  lemma {:induction false} ReverseKeeps(ms: seq<Match>, e: Match)
    ensures e in Reverse(ms) <==> e in ms
  {
    if ms != [] {
      ReverseKeeps(ms[1..], e);
      assert ms == [ms[0]] + ms[1..];
    }
  }

  lemma OlderBodyDiffers(c: seq<Option<Blob>>, look: Blob -> Look, e: Match, i: nat, j: nat)
    requires var vs := Visits(c);
             j < |vs| && vs[j].commit == e.commit && look(vs[j].blob) == Matched(e.hash)
    requires var ms := Matches(Visits(c), look);
             i < |ms| && ms[i] == e && EndsRun(ms, i)
    requires e.commit + 1 < |c| && c[e.commit + 1] != c[e.commit]
    ensures BodyAt(c, look, e.commit + 1) != Some(e.hash)
  {
    if BodyAt(c, look, e.commit + 1) == Some(e.hash) {
      VisitedNext(c, j, c[e.commit + 1].value);
      VisitsAreRunHeads(c);
      SameBodyGoesOn(Visits(c), look, e, i, j);
    }
  }

  /** When the visit after a match's has its hash, the match does not end its run. */
  lemma SameBodyGoesOn(visits: seq<Visit>, look: Blob -> Look, e: Match, i: nat, j: nat)
    requires forall k, l :: 0 <= k < l < |visits| ==> visits[k].commit < visits[l].commit
    requires j + 1 < |visits| && visits[j].commit == e.commit && look(visits[j + 1].blob) == Matched(e.hash)
    requires i < |Matches(visits, look)| && Matches(visits, look)[i] == e
    ensures !EndsRun(Matches(visits, look), i)
  {
    var k := MatchedNext(visits, look, e, j, e.hash);
    MatchesDescend(visits, look);
    OneMatchPerCommit(Matches(visits, look), i, k);
  }

  lemma OneMatchPerCommit(ms: seq<Match>, i: nat, k: nat)
    requires NewestFirst(ms) && i < |ms| && k < |ms| && ms[i].commit == ms[k].commit
    ensures i == k
  {
  }
}

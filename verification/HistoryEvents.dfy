/**
 Which commits of a file's history have a change event (src/blame_engine.rs), said of the
 walked commits themselves, and when the events name the commits that introduced a body.
 */
module HistoryEvents {
  import opened Common
  import opened FileHistory

  // ---------------------------------------------- which commits have an event

  /** The hash of the next match among `visits`. */
  function NextHash(visits: seq<Visit>, look: Blob -> Look): Option<int> {
    if visits == [] then None
    else
      match look(visits[0].blob)
      case Skipped => NextHash(visits[1..], look)
      case Matched(h) => Some(h)
      case Vanished => None
  }

  /** The events of `visits`, read off them directly. */
  function Ends(visits: seq<Visit>, look: Blob -> Look): seq<Match> {
    if visits == [] then []
    else
      match look(visits[0].blob)
      case Skipped => Ends(visits[1..], look)
      case Matched(h) =>
        (if NextHash(visits[1..], look) == Some(h) then [] else [Match(visits[0].commit, h)]) + Ends(visits[1..], look)
      case Vanished => []
  }

  lemma {:induction false} NextHashIsFirst(visits: seq<Visit>, look: Blob -> Look)
    ensures var ms := Matches(visits, look); NextHash(visits, look) == if ms == [] then None else Some(ms[0].hash)
  {
    if visits != [] { NextHashIsFirst(visits[1..], look); }
  }

  lemma {:induction false} RunEndsShift(m: Match, ms: seq<Match>, i: nat)
    requires i <= |ms|
    ensures RunEnds([m] + ms, i + 1) == RunEnds(ms, i)
    decreases |ms| - i
  {
    var all := [m] + ms;
    if i < |ms| {
      RunEndsShift(m, ms, i + 1);
      EndsRunShift(m, ms, i);
      SameRunEnd(ms, i, all, i + 1);
    } else {
      NoRunEnd(ms);
      NoRunEnd(all);
    }
  }

  lemma SameRunEnd(ms: seq<Match>, i: nat, all: seq<Match>, j: nat)
    requires i < |ms| && j < |all| && all[j] == ms[i] && EndsRun(all, j) == EndsRun(ms, i)
    requires RunEnds(all, j + 1) == RunEnds(ms, i + 1)
    ensures RunEnds(all, j) == RunEnds(ms, i)
  {
  }

  lemma EndsRunShift(m: Match, ms: seq<Match>, i: nat)
    requires i < |ms|
    ensures ([m] + ms)[i + 1] == ms[i] && EndsRun([m] + ms, i + 1) == EndsRun(ms, i)
  {
    if i + 1 < |ms| { assert ([m] + ms)[i + 2] == ms[i + 1]; }
  }

  lemma {:induction false} RunEndsAreEnds(visits: seq<Visit>, look: Blob -> Look)
    ensures RunEnds(Matches(visits, look), 0) == Ends(visits, look)
    decreases |visits|
  {
    if visits != [] {
      RunEndsAreEnds(visits[1..], look);
      NextHashIsFirst(visits[1..], look);
      if look(visits[0].blob).Matched? {
        RunEndsCons(Match(visits[0].commit, look(visits[0].blob).hash), Matches(visits[1..], look));
      }
    }
  }

  lemma RunEndsCons(m: Match, ms: seq<Match>)
    ensures RunEnds([m] + ms, 0) == (if ms != [] && ms[0].hash == m.hash then [] else [m]) + RunEnds(ms, 0)
  {
    RunEndsShift(m, ms, 0);
    assert ms != [] ==> ([m] + ms)[1] == ms[0];
  }

  /** Visit `m` is the next match behind visit `j`, with the same hash. */
  predicate RepeatedAt(visits: seq<Visit>, look: Blob -> Look, j: nat, m: nat) {
    && j < m < |visits| && look(visits[m].blob) == look(visits[j].blob)
    && forall l :: j < l < m ==> look(visits[l].blob) == Skipped
  }

  predicate NoneVanished(visits: seq<Visit>, look: Blob -> Look, j: nat)
    requires j <= |visits|
  {
    forall l :: 0 <= l < j ==> look(visits[l].blob) != Vanished
  }

  /** Visit `j` ends its run: matched before any visit without the entity, and not repeated. */
  predicate EndsAt(visits: seq<Visit>, look: Blob -> Look, j: nat)
    requires j < |visits|
  {
    && look(visits[j].blob).Matched? && NoneVanished(visits, look, j)
    && forall m :: j < m < |visits| ==> !RepeatedAt(visits, look, j, m)
  }

  lemma {:induction false} NextHashAt(visits: seq<Visit>, look: Blob -> Look, h: int)
    ensures NextHash(visits, look) == Some(h) <==>
              exists m :: 0 <= m < |visits| && look(visits[m].blob) == Matched(h)
                          && forall l :: 0 <= l < m ==> look(visits[l].blob) == Skipped
    decreases |visits|
  {
    if visits != [] {
      var rest := visits[1..];
      NextHashAt(rest, look, h);
      if look(visits[0].blob) == Skipped {
        SkipFirst(visits, look, h);
      } else if look(visits[0].blob) == Matched(h) {
        assert look(visits[0].blob) == Matched(h);
      }
    }
  }

  lemma SkipFirst(visits: seq<Visit>, look: Blob -> Look, h: int)
    requires visits != [] && look(visits[0].blob) == Skipped
    ensures (exists m :: 0 <= m < |visits| && look(visits[m].blob) == Matched(h)
                         && forall l :: 0 <= l < m ==> look(visits[l].blob) == Skipped)
            <==> exists m :: 0 <= m < |visits[1..]| && look(visits[1..][m].blob) == Matched(h)
                             && forall l :: 0 <= l < m ==> look(visits[1..][l].blob) == Skipped
  {
    var rest := visits[1..];
    if m :| 0 <= m < |visits| && look(visits[m].blob) == Matched(h)
            && forall l :: 0 <= l < m ==> look(visits[l].blob) == Skipped
    {
      assert look(rest[m - 1].blob) == Matched(h);
      assert forall l :: 0 <= l < m - 1 ==> rest[l] == visits[l + 1];
    }
    if m :| 0 <= m < |rest| && look(rest[m].blob) == Matched(h)
            && forall l :: 0 <= l < m ==> look(rest[l].blob) == Skipped
    {
      assert look(visits[m + 1].blob) == Matched(h);
      assert forall l :: 0 < l < m + 1 ==> visits[l] == rest[l - 1];
    }
  }

  predicate Increasing(visits: seq<Visit>) {
    forall i, j :: 0 <= i < j < |visits| ==> visits[i].commit < visits[j].commit
  }

  lemma {:induction false} EndsComeFromVisits(visits: seq<Visit>, look: Blob -> Look, e: Match)
    requires e in Ends(visits, look)
    ensures exists j :: 0 <= j < |visits| && visits[j].commit == e.commit && look(visits[j].blob) == Matched(e.hash)
    decreases |visits|
  {
    var v := visits[0];
    if look(v.blob).Matched? && e == Match(v.commit, look(v.blob).hash) {
      assert visits[0].commit == e.commit;
    } else {
      EndsComeFromVisits(visits[1..], look, e);
      var j :| 0 <= j < |visits[1..]| && visits[1..][j].commit == e.commit
               && look(visits[1..][j].blob) == Matched(e.hash);
      assert visits[j + 1] == visits[1..][j];
    }
  }

  /** A visit has an event if and only if it ends its run. */
  lemma {:induction false} VisitHasEventIff(visits: seq<Visit>, look: Blob -> Look, j: nat)
    requires j < |visits| && Increasing(visits)
    ensures EndsAt(visits, look, j) <==>
              look(visits[j].blob).Matched? && Match(visits[j].commit, look(visits[j].blob).hash) in Ends(visits, look)
    decreases |visits|
  {
    if look(visits[j].blob).Matched? {
      var e := Match(visits[j].commit, look(visits[j].blob).hash);
      var rest := visits[1..];
      if j == 0 {
        if e in Ends(rest, look) { LaterCommits(visits, look, e); }
        FirstEndsIff(visits, look);
      } else {
        VisitHasEventIff(rest, look, j - 1);
        EndsAtShift(visits, look, j);
        assert rest[j - 1] == visits[j] && visits[0].commit < e.commit;
      }
    }
  }

  lemma LaterCommits(visits: seq<Visit>, look: Blob -> Look, e: Match)
    requires visits != [] && Increasing(visits) && e in Ends(visits[1..], look)
    ensures visits[0].commit < e.commit
  {
    EndsComeFromVisits(visits[1..], look, e);
  }

  lemma FirstEndsIff(visits: seq<Visit>, look: Blob -> Look)
    requires visits != [] && look(visits[0].blob).Matched?
    ensures EndsAt(visits, look, 0) <==> NextHash(visits[1..], look) != Some(look(visits[0].blob).hash)
  {
    var rest, h := visits[1..], look(visits[0].blob).hash;
    NextHashAt(rest, look, h);
    if m :| 0 < m < |visits| && RepeatedAt(visits, look, 0, m) {
      assert look(rest[m - 1].blob) == Matched(h);
      assert forall l :: 0 <= l < m - 1 ==> rest[l] == visits[l + 1];
    }
    if m :| 0 <= m < |rest| && look(rest[m].blob) == Matched(h)
            && forall l :: 0 <= l < m ==> look(rest[l].blob) == Skipped
    {
      assert forall l :: 0 < l < m + 1 ==> visits[l] == rest[l - 1];
      assert RepeatedAt(visits, look, 0, m + 1);
    }
  }

  lemma EndsAtShift(visits: seq<Visit>, look: Blob -> Look, j: nat)
    requires 0 < j < |visits|
    ensures EndsAt(visits, look, j) <==> look(visits[0].blob) != Vanished && EndsAt(visits[1..], look, j - 1)
  {
    var rest := visits[1..];
    assert NoneVanished(visits, look, j) <==> look(visits[0].blob) != Vanished && NoneVanished(rest, look, j - 1) by {
      assert forall l :: 0 <= l < j - 1 ==> rest[l] == visits[l + 1];
      assert forall l :: 0 < l < j ==> visits[l] == rest[l - 1];
    }
    if EndsAt(visits, look, j) {
      var i: nat := j - 1;
      forall m | i < m < |rest| ensures !RepeatedAt(rest, look, i, m) {
        RepeatedShift(visits, look, j, m + 1);
      }
    }
    if look(visits[0].blob) != Vanished && EndsAt(rest, look, j - 1) {
      forall m | j < m < |visits| ensures !RepeatedAt(visits, look, j, m) {
        RepeatedShift(visits, look, j, m);
      }
    }
  }

  lemma RepeatedShift(visits: seq<Visit>, look: Blob -> Look, j: nat, m: nat)
    requires 0 < j < m < |visits|
    ensures RepeatedAt(visits, look, j, m) <==> RepeatedAt(visits[1..], look, j - 1, m - 1)
  {
    var rest := visits[1..];
    assert forall l :: j - 1 < l < m - 1 ==> rest[l] == visits[l + 1];
    assert forall l :: j < l < m ==> visits[l] == rest[l - 1];
  }

  // The same over the commits of the walk.

  /** The walk visits commit `i`. */
  predicate Visited(c: seq<Option<Blob>>, i: nat)
    requires i < |c|
  {
    c[i].Some? && LastPresent(c[..i]) != c[i]
  }

  function LookAt(c: seq<Option<Blob>>, look: Blob -> Look, i: nat): Look
    requires i < |c| && Visited(c, i)
  {
    look(c[i].value)
  }

  /** Behind commit `i` the next visited one with the entity is `k`, with the same hash. */
  predicate Repeated(c: seq<Option<Blob>>, look: Blob -> Look, i: nat, k: nat)
    requires i < k < |c| && Visited(c, i)
  {
    && Visited(c, k) && LookAt(c, look, k) == LookAt(c, look, i)
    && forall l :: i < l < k && Visited(c, l) ==> LookAt(c, look, l) == Skipped
  }

  /** Commit `i` has an event: it is visited and matched, no newer visited commit lacks the
      entity, and the next visited match is another. */
  predicate Emitted(c: seq<Option<Blob>>, look: Blob -> Look, i: nat)
    requires i < |c|
  {
    && Visited(c, i) && LookAt(c, look, i).Matched?
    && (forall l :: 0 <= l < i && Visited(c, l) ==> LookAt(c, look, l) != Vanished)
    && forall k :: i < k < |c| ==> !Repeated(c, look, i, k)
  }

  lemma VisitOf(c: seq<Option<Blob>>, i: nat) returns (j: nat)
    requires i < |c| && Visited(c, i)
    ensures j < |Visits(c)| && Visits(c)[j] == Visit(i, c[i].value)
  {
    VisitsAreRunHeads(c);
    assert Visit(i, c[i].value) in Visits(c);
    j :| 0 <= j < |Visits(c)| && Visits(c)[j] == Visit(i, c[i].value);
  }

  lemma VisitIs(c: seq<Option<Blob>>, j: nat)
    requires j < |Visits(c)|
    ensures var v := Visits(c)[j]; v.commit < |c| && Visited(c, v.commit) && c[v.commit] == Some(v.blob)
  {
    VisitsAreRunHeads(c);
    assert Visits(c)[j] in Visits(c);
  }

  lemma NoneVanishedAlike(c: seq<Option<Blob>>, look: Blob -> Look, j: nat)
    requires j < |Visits(c)|
    ensures var i := Visits(c)[j].commit;
            i < |c| &&
            (NoneVanished(Visits(c), look, j)
             <==> forall l :: 0 <= l < i && Visited(c, l) ==> LookAt(c, look, l) != Vanished)
  {
    var vs := Visits(c);
    var i := vs[j].commit;
    VisitIs(c, j);
    VisitsAreRunHeads(c);
    if NoneVanished(vs, look, j) {
      forall l | 0 <= l < i && Visited(c, l) ensures LookAt(c, look, l) != Vanished {
        var m := VisitOf(c, l);
        assert m < j;
      }
    }
    if forall l :: 0 <= l < i && Visited(c, l) ==> LookAt(c, look, l) != Vanished {
      forall l | 0 <= l < j ensures look(vs[l].blob) != Vanished {
        VisitIs(c, l);
        assert LookAt(c, look, vs[l].commit) != Vanished;
      }
    }
  }

  lemma RepeatedAlike(c: seq<Option<Blob>>, look: Blob -> Look, j: nat, m: nat)
    requires j < m < |Visits(c)|
    ensures var i, k := Visits(c)[j].commit, Visits(c)[m].commit;
            i < k < |c| && Visited(c, i) && (RepeatedAt(Visits(c), look, j, m) <==> Repeated(c, look, i, k))
  {
    var vs := Visits(c);
    var i, k := vs[j].commit, vs[m].commit;
    VisitIs(c, j);
    VisitIs(c, m);
    VisitsAreRunHeads(c);
    if RepeatedAt(vs, look, j, m) {
      forall l | i < l < k && Visited(c, l) ensures LookAt(c, look, l) == Skipped {
        var n := VisitOf(c, l);
        assert j < n < m;
      }
    }
    if Repeated(c, look, i, k) {
      forall l | j < l < m ensures look(vs[l].blob) == Skipped {
        VisitIs(c, l);
        assert LookAt(c, look, vs[l].commit) == Skipped;
      }
    }
  }

  lemma EndsAtAlike(c: seq<Option<Blob>>, look: Blob -> Look, j: nat)
    requires j < |Visits(c)|
    ensures var i := Visits(c)[j].commit; i < |c| && (EndsAt(Visits(c), look, j) <==> Emitted(c, look, i))
  {
    var vs := Visits(c);
    var i := vs[j].commit;
    VisitIs(c, j);
    NoneVanishedAlike(c, look, j);
    forall m | j < m < |vs|
      ensures vs[m].commit < |c| && i < vs[m].commit
      ensures RepeatedAt(vs, look, j, m) <==> Repeated(c, look, i, vs[m].commit)
    {
      RepeatedAlike(c, look, j, m);
    }
    forall k | i < k < |c| && Repeated(c, look, i, k)
      ensures exists m :: j < m < |vs| && vs[m].commit == k
    {
      var m := VisitOf(c, k);
      VisitsAreRunHeads(c);
      assert j < m;
    }
  }

  /** The events are those of the commits said to have one, with the hash found there. */
  lemma EventsAreEmitted(chain: seq<Option<Blob>>, walked: nat, look: Blob -> Look, e: Match)
    requires walked <= |chain|
    ensures var c := chain[..walked];
            e in EventsOf(chain, walked, look)
            <==> e.commit < walked && Emitted(c, look, e.commit) && LookAt(c, look, e.commit) == Matched(e.hash)
  {
    var c := chain[..walked];
    var vs := Visits(c);
    RunEndsAreEnds(vs, look);
    ReverseKeeps(Ends(vs, look), e);
    VisitsAreRunHeads(c);
    if e in Ends(vs, look) {
      EndsComeFromVisits(vs, look, e);
      var j :| 0 <= j < |vs| && vs[j].commit == e.commit && look(vs[j].blob) == Matched(e.hash);
      VisitIs(c, j);
      VisitHasEventIff(vs, look, j);
      EndsAtAlike(c, look, j);
    }
    if e.commit < walked && Emitted(c, look, e.commit) && LookAt(c, look, e.commit) == Matched(e.hash) {
      var j := VisitOf(c, e.commit);
      VisitHasEventIff(vs, look, j);
      EndsAtAlike(c, look, j);
    }
  }

  /** A commit with an event holds the blob of the next older one. */
  predicate BlobGoesOn(chain: seq<Option<Blob>>, walked: nat, look: Blob -> Look, i: nat)
    requires walked <= |chain|
  {
    i + 1 < walked && Emitted(chain[..walked], look, i) && chain[i + 1] == chain[i]
  }

  /** The last walked commit has an event, and the next older one, not walked, its body. */
  predicate BodyGoesOn(chain: seq<Option<Blob>>, walked: nat, look: Blob -> Look)
    requires walked <= |chain|
  {
    && 0 < walked < |chain| && Emitted(chain[..walked], look, walked - 1)
    && BodyAt(chain, look, walked) == BodyAt(chain, look, walked - 1)
  }

  /** All events of `log` name the commits that introduced their bodies if and only if no
      commit with an event shares its blob with the next older walked one, and the last
      walked one, if it has an event, not its body with the first that was not walked. */
  lemma LogNamesIntroducersIff(chain: seq<Option<Blob>>, walked: nat, look: Blob -> Look)
    requires walked <= |chain|
    ensures (forall e :: e in EventsOf(chain, walked, look) ==> IntroducesBody(chain, look, e))
            <==> (forall i :: 0 <= i < walked ==> !BlobGoesOn(chain, walked, look, i))
                 && !BodyGoesOn(chain, walked, look)
  {
    forall e | e in EventsOf(chain, walked, look)
      ensures IntroducesBody(chain, look, e) <==>
                !BlobGoesOn(chain, walked, look, e.commit)
                && (e.commit + 1 == walked ==> !BodyGoesOn(chain, walked, look))
      ensures e.commit < walked
    {
      EventGoesOnIff(chain, walked, look, e);
    }
    forall i | 0 <= i < walked && Emitted(chain[..walked], look, i)
      ensures exists e :: e in EventsOf(chain, walked, look) && e.commit == i
    {
      var e := Match(i, LookAt(chain[..walked], look, i).hash);
      EventsAreEmitted(chain, walked, look, e);
    }
  }

  lemma EventGoesOnIff(chain: seq<Option<Blob>>, walked: nat, look: Blob -> Look, e: Match)
    requires walked <= |chain| && e in EventsOf(chain, walked, look)
    ensures e.commit < walked
    ensures IntroducesBody(chain, look, e) <==>
              !BlobGoesOn(chain, walked, look, e.commit)
              && (e.commit + 1 == walked ==> !BodyGoesOn(chain, walked, look))
  {
    EventNamesIntroducerIff(chain, walked, look, e);
    EventsAreEmitted(chain, walked, look, e);
  }

  /** Two commits with one blob and one body: the event names the newer, the older introduced
      the body. */
  lemma EventNotIntroducing(b: Blob, look: Blob -> Look)
    requires look(b).Matched?
    ensures var chain := [Some(b), Some(b)];
            EventsOf(chain, 2, look) == [Match(0, look(b).hash)] && !IntroducesBody(chain, look, Match(0, look(b).hash))
  {
    var chain := [Some(b), Some(b)];
    NewestNotIntroducing(b);
    assert chain[..2] == chain && [Visit(0, b)][1..] == [];
    var ms := [Match(0, look(b).hash)];
    assert Matches([Visit(0, b)], look) == ms + [] == ms;
    assert RunEnds(ms, 1) == [] && RunEnds(ms, 0) == ms;
    assert ms[1..] == [] && Reverse(ms) == ms;
  }
}

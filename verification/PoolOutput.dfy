/**
 What the extraction pool returns (src/extraction_worker.rs): the sorted results depend
 on how each file ended, never on the schedule.
 */
module PoolOutput {
  import opened Common
  import opened ExtractionPool

  ghost predicate StrictByIndex(r: seq<(nat, Tuple)>) {
    forall k, l :: 0 <= k < l < |r| ==> r[k].0 < r[l].0
  }

  ghost predicate DistinctIndices(r: seq<(nat, Tuple)>) {
    forall k, l :: 0 <= k < l < |r| ==> r[k].0 != r[l].0
  }

  function Insert(x: (nat, Tuple), r: seq<(nat, Tuple)>): seq<(nat, Tuple)> {
    if r == [] || x.0 <= r[0].0 then [x] + r else [r[0]] + Insert(x, r[1..])
  }

  function SortByIndex(r: seq<(nat, Tuple)>): seq<(nat, Tuple)> {
    if r == [] then [] else Insert(r[0], SortByIndex(r[1..]))
  }

  function Tuples(r: seq<(nat, Tuple)>): (ts: seq<Tuple>)
    ensures |ts| == |r| && forall k :: 0 <= k < |r| ==> ts[k] == r[k].1
  {
    seq(|r|, k requires 0 <= k < |r| => r[k].1)
  }

  function Output(s: State): seq<Tuple> {
    Tuples(SortByIndex(s.results))
  }

  /** How each file of the finished prefix ended. */
  type Log = map<nat, Outcome>

  ghost predicate Records(s: State, log: Log) {
    && (forall p :: p in s.done ==> p.0 in log && log[p.0] == p.1)
    && (forall i :: i in log ==> (i, log[i]) in s.done)
  }

  /** The answered files among the first `n`, in input order, each with its own answer. */
  function Expected(files: seq<string>, log: Log, n: nat): seq<(nat, Tuple)>
    requires n <= |files|
  {
    if n == 0 then []
    else
      Expected(files, log, n - 1)
      + if n - 1 in log && log[n - 1].Answered? then [(n - 1, (files[n - 1], log[n - 1].data))] else []
  }

  lemma AnswersOfMembers(files: seq<string>, done: seq<(nat, Outcome)>)
    requires forall k :: 0 <= k < |done| ==> done[k].0 < |files|
    ensures forall x: (nat, Tuple) :: x in AnswersOf(files, done) <==>
              x.0 < |files| && (x.0, Answered(x.1.1)) in done && x.1.0 == files[x.0]
  {
    if done != [] {
      var n := |done| - 1;
      AnswersOfMembers(files, done[..n]);
      assert done == done[..n] + [done[n]];
    }
  }

  lemma AnswersOfDistinct(files: seq<string>, done: seq<(nat, Outcome)>)
    requires forall k :: 0 <= k < |done| ==> done[k].0 < |files|
    requires forall k, l :: 0 <= k < l < |done| ==> done[k].0 != done[l].0
    ensures DistinctIndices(AnswersOf(files, done))
  {
    if done != [] {
      var n := |done| - 1;
      AnswersOfDistinct(files, done[..n]);
      AnswersOfMembers(files, done[..n]);
      var r := AnswersOf(files, done[..n]);
      forall k | 0 <= k < |r| ensures r[k].0 != done[n].0 {
        assert r[k] in r;
      }
    }
  }

  lemma InsertIsStrict(x: (nat, Tuple), r: seq<(nat, Tuple)>)
    requires StrictByIndex(r) && forall k :: 0 <= k < |r| ==> r[k].0 != x.0
    ensures StrictByIndex(Insert(x, r))
    ensures forall y :: y in Insert(x, r) <==> y == x || y in r
  {
    if r != [] && x.0 > r[0].0 {
      InsertIsStrict(x, r[1..]);
      assert r == [r[0]] + r[1..];
      var tail := Insert(x, r[1..]);
      forall k | 0 <= k < |tail| ensures tail[k].0 > r[0].0 {
        assert tail[k] in tail;
      }
    }
  }

  lemma SortIsStrict(r: seq<(nat, Tuple)>)
    requires DistinctIndices(r)
    ensures StrictByIndex(SortByIndex(r))
    ensures forall x :: x in SortByIndex(r) <==> x in r
  {
    if r != [] {
      var q := SortByIndex(r[1..]);
      SortIsStrict(r[1..]);
      forall k | 0 <= k < |q| ensures q[k].0 != r[0].0 {
        assert q[k] in r[1..];
      }
      InsertIsStrict(r[0], q);
      assert r == [r[0]] + r[1..];
    }
  }

  ghost predicate HasIndex(r: seq<(nat, Tuple)>, i: nat) {
    exists k :: 0 <= k < |r| && r[k].0 == i
  }

  /** The entries of `r` are answers on record for indices below `n`. */
  ghost predicate OnRecord(files: seq<string>, log: Log, n: nat, r: seq<(nat, Tuple)>)
    requires n <= |files|
  {
    forall k :: 0 <= k < |r| ==>
      r[k].0 < n && r[k].0 in log && log[r[k].0] == Answered(r[k].1.1) && r[k].1.0 == files[r[k].0]
  }

  ghost predicate Complete(log: Log, n: nat, r: seq<(nat, Tuple)>) {
    forall i :: 0 <= i < n && i in log && log[i].Answered? ==> HasIndex(r, i)
  }

  /** `r` without its entry for index `n - 1`, which can only be the last. */
  function Below(r: seq<(nat, Tuple)>, n: nat): seq<(nat, Tuple)> {
    if |r| > 0 && r[|r| - 1].0 + 1 == n then r[..|r| - 1] else r
  }

  lemma BelowIsComplete(log: Log, n: nat, r: seq<(nat, Tuple)>)
    requires 0 < n && Complete(log, n, r)
    ensures Complete(log, n - 1, Below(r, n))
  {
    var r' := Below(r, n);
    forall i | 0 <= i < n - 1 && i in log && log[i].Answered? ensures HasIndex(r', i) {
      assert HasIndex(r, i);
      var k :| 0 <= k < |r| && r[k].0 == i;
      assert r'[k].0 == i;
    }
  }

  lemma BelowIsOnRecord(files: seq<string>, log: Log, n: nat, r: seq<(nat, Tuple)>)
    requires 0 < n <= |files| && StrictByIndex(r) && OnRecord(files, log, n, r)
    ensures StrictByIndex(Below(r, n)) && OnRecord(files, log, n - 1, Below(r, n))
  {
    assert forall k :: 0 <= k < |r| ==> r[k].0 <= r[|r| - 1].0;
  }

  lemma SplitLast(r: seq<(nat, Tuple)>)
    requires r != []
    ensures r[..|r| - 1] + [r[|r| - 1]] == r
  {
  }

  lemma ExpectedGrows(files: seq<string>, log: Log, n: nat, r: seq<(nat, Tuple)>)
    requires 0 < n <= |files| && Complete(log, n, r) && OnRecord(files, log, n, r)
    requires OnRecord(files, log, n - 1, Below(r, n)) && Below(r, n) == Expected(files, log, n - 1)
    ensures r == Expected(files, log, n)
  {
    if |r| > 0 && r[|r| - 1].0 + 1 == n {
      var x := r[|r| - 1];
      assert x == (n - 1, (files[n - 1], log[n - 1].data));
      SplitLast(r);
    } else {
      assert !HasIndex(r, n - 1);
    }
  }

  lemma Bounded(files: seq<string>, log: Log, n: nat, r: seq<(nat, Tuple)>, k: nat)
    requires n <= |files| && OnRecord(files, log, n, r) && k < |r|
    ensures 0 <= r[k].0 < n
  {
    var i: nat := r[k].0;
  }

  /** Strictly sorted by index, on record, and with no answer missing: that is one list. */
  lemma {:induction false} SortedIsExpected(files: seq<string>, log: Log, n: nat, r: seq<(nat, Tuple)>)
    requires n <= |files| && StrictByIndex(r) && OnRecord(files, log, n, r) && Complete(log, n, r)
    ensures r == Expected(files, log, n)
    decreases n
  {
    if n == 0 {
      if r != [] {
        Bounded(files, log, n, r, 0);
        assert false;
      }
    } else {
      BelowIsComplete(log, n, r);
      BelowIsOnRecord(files, log, n, r);
      SortedIsExpected(files, log, n - 1, Below(r, n));
      ExpectedGrows(files, log, n, r);
    }
  }

  /** When every thread has stopped, the finished files are exactly a prefix of the input
      and the sorted results are its answered files in input order, whatever the schedule. */
  lemma OutputIsExpected(job: Job, s: State, log: Log)
    requires Inv(job, s) && AllStopped(s) && Records(s, log)
    ensures forall i: nat :: i in log <==> i < Popped(job, s)
    ensures Output(s) == Tuples(Expected(job.files, log, Popped(job, s)))
  {
    var n := Popped(job, s);
    forall i: nat
      ensures i in log <==> i < n
    {
      assert !InFlight(s, i);
      if i < n {
        var k :| 0 <= k < |s.done| && s.done[k].0 == i;
        assert s.done[k] in s.done;
      }
      if i in log {
        assert (i, log[i]) in s.done;
        assert Finished(s, i);
      }
    }
    AnswersOfDistinct(job.files, s.done);
    SortIsStrict(s.results);
    SortedOnRecord(job, s, log, n);
    SortedIsExpected(job.files, log, n, SortByIndex(s.results));
  }

  lemma SortedOnRecord(job: Job, s: State, log: Log, n: nat)
    requires Bookkeeping(job, s) && Records(s, log) && n <= |job.files|
    requires forall i: nat :: i in log <==> i < n
    requires forall x :: x in SortByIndex(s.results) <==> x in s.results
    ensures OnRecord(job.files, log, n, SortByIndex(s.results))
    ensures Complete(log, n, SortByIndex(s.results))
  {
    var r := SortByIndex(s.results);
    AnswersOfMembers(job.files, s.done);
    forall k | 0 <= k < |r|
      ensures r[k].0 < n && log[r[k].0] == Answered(r[k].1.1) && r[k].1.0 == job.files[r[k].0]
    {
      assert r[k] in s.results;
      assert (r[k].0, Answered(r[k].1.1)) in s.done;
    }
    forall i | 0 <= i < n && i in log && log[i].Answered? ensures HasIndex(r, i) {
      assert (i, log[i]) in s.done;
      assert (i, (job.files[i], log[i].data)) in r;
    }
  }

  lemma FinishedRun(job: Job, n: nat, run: seq<Action>, s: State, log: Log)
    requires Runs(job, Initial(job, n), run, s) && AllStopped(s) && Records(s, log)
    ensures 0 <= Popped(job, s) <= |job.files|
    ensures forall i: nat :: i in log <==> i < Popped(job, s)
    ensures Output(s) == Tuples(Expected(job.files, log, Popped(job, s)))
  {
    InitialInv(job, n);
    RunsKeepInv(job, Initial(job, n), run, s);
    OutputIsExpected(job, s, log);
  }

  lemma SameBound(log: Log, p: int, q: int)
    requires p >= 0 && q >= 0
    requires forall i: nat :: i in log <==> i < p
    requires forall i: nat :: i in log <==> i < q
    ensures p == q
  {
    assert p in log <==> p < q;
    assert q in log <==> q < p;
  }

  /** Two finished runs, under any two schedules and thread counts, in which every file
      ended the same way return the same list. */
  lemma ScheduleNeverShows(job: Job, n1: nat, n2: nat, run1: seq<Action>, run2: seq<Action>,
                           s1: State, s2: State, log: Log)
    requires Runs(job, Initial(job, n1), run1, s1) && AllStopped(s1) && Records(s1, log)
    requires Runs(job, Initial(job, n2), run2, s2) && AllStopped(s2) && Records(s2, log)
    ensures Output(s1) == Output(s2)
  {
    FinishedRun(job, n1, run1, s1, log);
    FinishedRun(job, n2, run2, s2, log);
    SameBound(log, Popped(job, s1), Popped(job, s2));
  }

  /** In every state any interleaving reaches: the queue is a suffix of the numbered input;
      each file is queued, held by exactly one thread or finished exactly once, one of the
      three; results and skips are the finished files that were answered or lost; and every
      result is its own file's answer. */
  lemma EveryReachableState(job: Job, n: nat, run: seq<Action>, s: State)
    requires Runs(job, Initial(job, n), run, s)
    ensures 0 <= Popped(job, s) && s.queue == Enumerate(job.files)[Popped(job, s)..]
    ensures forall i: nat :: i < |job.files| ==>
              (if Popped(job, s) <= i then !InFlight(s, i) && !Finished(s, i)
               else InFlight(s, i) != Finished(s, i))
    ensures forall k, l :: 0 <= k < l < |s.done| ==> s.done[k].0 != s.done[l].0
    ensures forall t, u, i: nat :: 0 <= t < u < |s.threads| && s.threads[t].Holds(i) ==> !s.threads[u].Holds(i)
    ensures forall t, i: nat :: 0 <= t < |s.threads| && s.threads[t].Holds(i) ==> i < Popped(job, s) <= |job.files|
    ensures forall k :: 0 <= k < |s.done| ==> s.done[k].0 < |job.files|
    ensures s.results == AnswersOf(job.files, s.done) && s.skipped == SkipsOf(job.files, s.done)
    ensures forall x :: x in s.results ==>
              x.0 < |job.files| && x.1.0 == job.files[x.0] && job.answersFor(x.1.0, Some(x.1.1))
  {
    InitialInv(job, n);
    RunsKeepInv(job, Initial(job, n), run, s);
    AnswersOfMembers(job.files, s.done);
    forall t, i: nat | 0 <= t < |s.threads| && s.threads[t].Holds(i) ensures i < Popped(job, s) {
      assert InFlight(s, i);
    }
  }

  /** How each finished file ended. */
  function LogOf(done: seq<(nat, Outcome)>): Log {
    if done == [] then map[]
    else
      var (i, o) := done[|done| - 1];
      LogOf(done[..|done| - 1])[i := o]
  }

  lemma {:induction false} LogOfMembers(done: seq<(nat, Outcome)>)
    requires forall k, l :: 0 <= k < l < |done| ==> done[k].0 != done[l].0
    ensures forall p :: p in done ==> p.0 in LogOf(done) && LogOf(done)[p.0] == p.1
    ensures forall i :: i in LogOf(done) ==> (i, LogOf(done)[i]) in done
    decreases |done|
  {
    if done != [] {
      var n := |done| - 1;
      LogOfMembers(done[..n]);
      forall p | p in done[..n] ensures p.0 != done[n].0 {
        var k :| 0 <= k < n && done[..n][k] == p;
        assert done[k] == p;
      }
      assert done == done[..n] + [done[n]];
    }
  }
}

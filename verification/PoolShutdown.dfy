/**
 Cancelling the extraction pool, and where its outcomes come from (src/extraction_worker.rs),
 over every run.
 */
module PoolShutdown {
  import opened Common
  import opened ExtractionPool

  // ------------------------------------------------------------ cancellation

  function CountPopping(threads: seq<Thread>): nat {
    if threads == [] then 0
    else CountPopping(threads[..|threads| - 1]) + if threads[|threads| - 1].Popping? then 1 else 0
  }

  /** The flag is not cleared again. */
  predicate StaysCancelled(run: seq<Action>) {
    SetShutdown(false) !in run
  }

  lemma {:induction false} CountPoppingUpdate(threads: seq<Thread>, t: nat, th: Thread)
    requires t < |threads|
    ensures CountPopping(threads[t := th])
            == CountPopping(threads) + (if th.Popping? then 1 else 0) - if threads[t].Popping? then 1 else 0
    decreases |threads|
  {
    var n := |threads| - 1;
    if t < n {
      CountPoppingUpdate(threads[..n], t, th);
      assert threads[t := th][..n] == threads[..n][t := th];
    } else {
      assert threads[t := th][..n] == threads[..n];
    }
  }

  /** The threads about to pop pay for what the queue loses. */
  lemma CancelledStep(job: Job, s: State, a: Action)
    requires Enabled(job, s, a) && s.shutdown && a != SetShutdown(false)
    ensures var s' := Next(job, s, a);
            && s'.shutdown && |s'.threads| == |s.threads|
            && |s.queue| - |s'.queue| <= CountPopping(s.threads) - CountPopping(s'.threads)
            && forall t :: 0 <= t < |s.threads| ==> Cancelled(s.threads[t], s'.threads[t])
  {
    if !a.SetShutdown? { CountPoppingUpdate(s.threads, a.t, Next(job, s, a).threads[a.t]); }
  }

  /** How a thread goes on once the flag is set: nobody starts to pop, a thread that polls
      only stops for the shutdown, and one that has stopped stays so. */
  predicate Cancelled(th: Thread, th': Thread) {
    && (th'.Popping? ==> th.Popping?)
    && (th.Polling? ==> th' in {Polling, Stopped(ShutDown)})
    && (th.Stopped? ==> th' == th)
    && (th' == Stopped(Drained) ==> th in {Popping, Stopped(Drained)})
  }

  /** From any state with the flag set, along any run that does not clear it, the queue loses
      at most one file for every thread about to pop there. A thread polling there holds no
      further file, and every thread but those about to pop ends by the shutdown or because
      its worker could not be replaced. */
  lemma {:induction false} CancelledRun(job: Job, s: State, run: seq<Action>, s': State)
    requires Runs(job, s, run, s') && s.shutdown && StaysCancelled(run)
    ensures s'.shutdown && |s'.threads| == |s.threads|
    ensures |s.queue| - |s'.queue| <= CountPopping(s.threads) - CountPopping(s'.threads)
    ensures forall t :: 0 <= t < |s.threads| ==> Cancelled(s.threads[t], s'.threads[t])
    decreases |run|
  {
    if run != [] {
      CancelledStep(job, s, run[0]);
      CancelledRun(job, Next(job, s, run[0]), run[1..], s');
    }
  }

  /** A thread that polls while the flag is set, and does poll, stops for it. */
  lemma {:induction false} PollingStops(job: Job, s: State, run: seq<Action>, s': State, t: nat)
    requires Runs(job, s, run, s') && s.shutdown && StaysCancelled(run)
    requires t < |s.threads| && s.threads[t].Polling?
    ensures t < |s'.threads| && s'.threads[t] == if Poll(t) in run then Stopped(ShutDown) else Polling
    decreases |run|
  {
    if run != [] {
      var next := Next(job, s, run[0]);
      CancelledStep(job, s, run[0]);
      assert Poll(t) in run <==> run[0] == Poll(t) || Poll(t) in run[1..];
      if run[0] == Poll(t) {
        CancelledRun(job, next, run[1..], s');
      } else {
        PollingStops(job, next, run[1..], s', t);
      }
    }
  }

  /** Threads stop for a shutdown only when it was asked for. */
  lemma {:induction false} OnlyWhenAsked(job: Job, s: State, run: seq<Action>, s': State)
    requires Runs(job, s, run, s') && !s.shutdown && SetShutdown(true) !in run
    ensures !s'.shutdown && |s'.threads| == |s.threads|
    ensures forall t :: 0 <= t < |s.threads| && s'.threads[t] == Stopped(ShutDown) ==> s.threads[t] == s'.threads[t]
    decreases |run|
  {
    if run != [] {
      var a, next := run[0], Next(job, s, run[0]);
      assert a == SetShutdown(true) ==> SetShutdown(true) in run;
      assert !next.shutdown;
      OnlyWhenAsked(job, next, run[1..], s');
    }
  }

  /** So a job that nobody cancels, one of whose threads never lost its worker for good,
      takes every file off the queue. */
  lemma UncancelledJobsDrain(job: Job, n: nat, run: seq<Action>, s: State, t: nat)
    requires Runs(job, Initial(job, n), run, s) && SetShutdown(true) !in run
    requires t < |s.threads| && s.threads[t].Stopped? && s.threads[t] != Stopped(GaveUp)
    ensures s.queue == [] && Popped(job, s) == |job.files|
  {
    OnlyWhenAsked(job, Initial(job, n), run, s);
    InitialInv(job, n);
    RunsKeepInv(job, Initial(job, n), run, s);
    assert Initial(job, n).threads[t] == Polling && s.threads[t] != Stopped(ShutDown);
    assert s.threads[t] == Stopped(s.threads[t].reason);
    assert s.threads[t].reason == Drained;
    assert s.threads[t] == Stopped(Drained);
  }

  // -------------------------------------------------- where outcomes come from

  /** The actions that can have made a round trip end like this. */
  predicate Caused(got: RoundTrip, past: set<Action>) {
    match got
    case Replied(reply) => exists a :: a in past && a.Serve? && a.data == reply.data
    case Broken(why) =>
      exists a :: a in past && ((a.Break? && a.why == why) || (a.LateTimeout? && why == TimedOut))
  }

  predicate CausedOutcome(o: Outcome, past: set<Action>) {
    match o
    case Answered(data) => exists a :: a in past && a.Serve? && a.data == Some(data)
    case NoData => exists a :: a in past && a.Serve? && a.data == None
    case Lost(why) => Caused(Broken(why), past)
  }

  predicate TracedPipe(w: Worker, past: set<Action>) {
    forall k :: 0 <= k < |w.outbox| ==> Caused(Replied(w.outbox[k]), past)
  }

  predicate TracedThread(th: Thread, past: set<Action>) {
    th.Reporting? || th.Recording? ==> Caused(th.got, past)
  }

  predicate Traced(s: State, past: set<Action>) {
    && (forall t :: 0 <= t < |s.workers| ==> TracedPipe(s.workers[t], past))
    && (forall t :: 0 <= t < |s.threads| ==> TracedThread(s.threads[t], past))
    && (forall k :: 0 <= k < |s.done| ==> CausedOutcome(s.done[k].1, past))
  }

  lemma CausedLater(got: RoundTrip, past: set<Action>, more: set<Action>)
    requires Caused(got, past) && past <= more
    ensures Caused(got, more)
  {
  }

  lemma OutcomeCausedLater(o: Outcome, past: set<Action>, more: set<Action>)
    requires CausedOutcome(o, past) && past <= more
    ensures CausedOutcome(o, more)
  {
  }

  lemma TracedLater(s: State, past: set<Action>, more: set<Action>)
    requires Traced(s, past) && past <= more
    ensures Traced(s, more)
  {
    forall t, k | 0 <= t < |s.workers| && 0 <= k < |s.workers[t].outbox|
      ensures Caused(Replied(s.workers[t].outbox[k]), more)
    {
      assert TracedPipe(s.workers[t], past);
      CausedLater(Replied(s.workers[t].outbox[k]), past, more);
    }
    forall t | 0 <= t < |s.threads| ensures TracedThread(s.threads[t], more) {
      assert TracedThread(s.threads[t], past);
    }
    forall k | 0 <= k < |s.done| ensures CausedOutcome(s.done[k].1, more) {
      OutcomeCausedLater(s.done[k].1, past, more);
    }
  }

  lemma OwnTrace(job: Job, s: State, a: Action, past: set<Action>)
    requires Enabled(job, s, a) && !a.SetShutdown? && Traced(s, past) && a in past
    ensures var s' := Next(job, s, a);
            TracedPipe(s'.workers[a.t], past) && TracedThread(s'.threads[a.t], past)
  {
    assert TracedPipe(s.workers[a.t], past) && TracedThread(s.threads[a.t], past);
  }

  lemma OutcomeTrace(got: RoundTrip, past: set<Action>)
    requires Caused(got, past)
    ensures CausedOutcome(OutcomeOf(got), past)
  {
  }

  lemma StepKeepsTraced(job: Job, s: State, a: Action, past: set<Action>)
    requires Enabled(job, s, a) && Traced(s, past)
    ensures Traced(Next(job, s, a), past + {a})
  {
    var more := past + {a};
    TracedLater(s, past, more);
    if !a.SetShutdown? {
      OwnTrace(job, s, a, more);
      if a.Record? {
        assert TracedThread(s.threads[a.t], more);
        OutcomeTrace(s.threads[a.t].got, more);
      }
    }
  }

  lemma {:induction false} RunsKeepTraced(job: Job, s: State, run: seq<Action>, s': State, past: set<Action>)
    requires Runs(job, s, run, s') && Traced(s, past)
    ensures Traced(s', past + set a | a in run)
    decreases |run|
  {
    if run == [] {
      assert past + (set a | a in run) == past;
    } else {
      StepKeepsTraced(job, s, run[0], past);
      RunsKeepTraced(job, Next(job, s, run[0]), run[1..], s', past + {run[0]});
      assert run == [run[0]] + run[1..];
      assert past + (set a | a in run) == past + {run[0]} + set a | a in run[1..];
    }
  }

  /** Every finished file ended as some action of the run says: with the data a worker
      served, without data because one served none, or lost as a round trip broke. */
  lemma OutcomesHaveCauses(job: Job, n: nat, run: seq<Action>, s: State)
    requires Runs(job, Initial(job, n), run, s)
    ensures forall k :: 0 <= k < |s.done| ==> CausedOutcome(s.done[k].1, set a | a in run)
  {
    RunsKeepTraced(job, Initial(job, n), run, s, {});
    assert {} + (set a | a in run) == set a | a in run;
  }

  // ------------------------------------------------- round trips and their ends

  /** How a round trip ended: with a reply, or broken for a reason. */
  function EndOf(got: RoundTrip): Option<Why> {
    if got.Broken? then Some(got.why) else None
  }

  predicate EndsWith(o: Outcome, end: Option<Why>) {
    if o.Lost? then end == Some(o.why) else end == None
  }

  /** A reply is received in time, a watchdog fires after it was read, or the pipe breaks. */
  predicate Ends(a: Action, end: Option<Why>) {
    match a
    case Receive(_) => end == None
    case LateTimeout(_) => end == Some(TimedOut)
    case Break(_, why) => end == Some(why)
    case _ => false
  }

  function CountEnds(run: seq<Action>, end: Option<Why>): nat {
    if run == [] then 0 else (if Ends(run[0], end) then 1 else 0) + CountEnds(run[1..], end)
  }

  predicate Carries(th: Thread, end: Option<Why>) {
    (th.Reporting? || th.Recording?) && EndOf(th.got) == end
  }

  function CountCarried(threads: seq<Thread>, end: Option<Why>): nat {
    if threads == [] then 0
    else
      var n := |threads| - 1;
      CountCarried(threads[..n], end) + if Carries(threads[n], end) then 1 else 0
  }

  function CountDone(done: seq<(nat, Outcome)>, end: Option<Why>): nat {
    if done == [] then 0
    else
      var n := |done| - 1;
      CountDone(done[..n], end) + if EndsWith(done[n].1, end) then 1 else 0
  }

  lemma {:induction false} CountCarriedUpdate(threads: seq<Thread>, t: nat, th: Thread, end: Option<Why>)
    requires t < |threads|
    ensures CountCarried(threads[t := th], end)
            == CountCarried(threads, end) + (if Carries(th, end) then 1 else 0)
               - if Carries(threads[t], end) then 1 else 0
    decreases |threads|
  {
    var n := |threads| - 1;
    if t < n {
      CountCarriedUpdate(threads[..n], t, th, end);
      assert threads[t := th][..n] == threads[..n][t := th];
    } else {
      assert threads[t := th][..n] == threads[..n];
    }
  }

  lemma OneMoreDone(done: seq<(nat, Outcome)>, d: (nat, Outcome), end: Option<Why>)
    ensures CountDone(done + [d], end) == CountDone(done, end) + if EndsWith(d.1, end) then 1 else 0
  {
    assert (done + [d])[..|done|] == done;
  }

  function Ended(s: State, end: Option<Why>): nat {
    CountCarried(s.threads, end) + CountDone(s.done, end)
  }

  /** What a step does to its own thread and to the files done. */
  lemma OwnEnd(job: Job, s: State, a: Action, end: Option<Why>)
    requires Enabled(job, s, a) && !a.SetShutdown?
    ensures var th, th' := s.threads[a.t], Next(job, s, a).threads[a.t];
            if a.Record? then Carries(th, end) <==> EndsWith(OutcomeOf(th.got), end)
            else Carries(th', end) <==> Carries(th, end) || Ends(a, end)
    ensures var th, th' := s.threads[a.t], Next(job, s, a).threads[a.t];
            if a.Record? then !Carries(th', end) && !Ends(a, end) else !(Carries(th, end) && Ends(a, end))
  {
  }

  lemma DoneAfter(job: Job, s: State, a: Action)
    requires Enabled(job, s, a)
    ensures Next(job, s, a).done
            == if a.Record? then s.done + [(s.threads[a.t].idx, OutcomeOf(s.threads[a.t].got))] else s.done
  {
  }

  lemma StepEnds(job: Job, s: State, a: Action, end: Option<Why>)
    requires Enabled(job, s, a)
    ensures Ended(Next(job, s, a), end) == Ended(s, end) + if Ends(a, end) then 1 else 0
  {
    StepFrame(job, s, a);
    DoneAfter(job, s, a);
    if !a.SetShutdown? {
      OwnEnd(job, s, a, end);
      CountCarriedUpdate(s.threads, a.t, Next(job, s, a).threads[a.t], end);
      if a.Record? {
        OneMoreDone(s.done, (s.threads[a.t].idx, OutcomeOf(s.threads[a.t].got)), end);
      }
    }
  }

  lemma {:induction false} RunEnds(job: Job, s: State, run: seq<Action>, s': State, end: Option<Why>)
    requires Runs(job, s, run, s')
    ensures Ended(s', end) == Ended(s, end) + CountEnds(run, end)
    decreases |run|
  {
    if run != [] {
      StepEnds(job, s, run[0], end);
      RunEnds(job, Next(job, s, run[0]), run[1..], s', end);
    }
  }

  lemma NothingCarried(n: nat, end: Option<Why>)
    ensures CountCarried(seq(n, _ => Polling), end) == 0
  {
    if n > 0 {
      assert seq(n, _ => Polling)[..n - 1] == seq(n - 1, _ => Polling);
      NothingCarried(n - 1, end);
    }
  }

  /** Every reply received in time, and nothing else, becomes a file finished with or without
      data, and every broken round trip one lost for that reason, but for those on their way
      to being recorded. */
  lemma RoundTripsAddUp(job: Job, n: nat, run: seq<Action>, s: State, end: Option<Why>)
    requires Runs(job, Initial(job, n), run, s)
    ensures CountDone(s.done, end) + CountCarried(s.threads, end) == CountEnds(run, end)
  {
    RunEnds(job, Initial(job, n), run, s, end);
    NothingCarried(n, end);
  }

  // ----------------------------------------------------------------- counting

  function Below(n: nat): (s: set<nat>)
    ensures |s| == n && forall i: nat :: i in s <==> i < n
  {
    if n == 0 then {} else Below(n - 1) + {n - 1}
  }

  lemma {:induction false} DistinctFit(done: seq<(nat, Outcome)>, s: set<nat>)
    requires forall k :: 0 <= k < |done| ==> done[k].0 in s
    requires forall k, l :: 0 <= k < l < |done| ==> done[k].0 != done[l].0
    ensures |done| <= |s|
    decreases |done|
  {
    if done != [] { DistinctFit(done[1..], s - {done[0].0}); }
  }

  /** No more files are finished than were taken off the queue. */
  lemma FinishedWerePopped(job: Job, s: State)
    requires Inv(job, s)
    ensures |s.done| <= Popped(job, s)
  {
    forall k | 0 <= k < |s.done| ensures s.done[k].0 in Below(Popped(job, s)) {
      assert Finished(s, s.done[k].0);
    }
    DistinctFit(s.done, Below(Popped(job, s)));
  }

  predicate LostFile(files: seq<string>, done: seq<(nat, Outcome)>, f: string, why: Why) {
    exists k :: 0 <= k < |done| && done[k].1 == Lost(why) && done[k].0 < |files| && files[done[k].0] == f
  }

  /** The results are the files finished with data, ... */
  lemma {:induction false} ResultsAreAnswers(files: seq<string>, done: seq<(nat, Outcome)>, i: nat, f: string,
                                             d: ExtractData)
    requires forall k :: 0 <= k < |done| ==> done[k].0 < |files|
    ensures (i, (f, d)) in AnswersOf(files, done) <==> (i, Answered(d)) in done && i < |files| && f == files[i]
    decreases |done|
  {
    if done != [] {
      var n := |done| - 1;
      ResultsAreAnswers(files, done[..n], i, f, d);
      var more := if done[n].1.Answered? then [(done[n].0, (files[done[n].0], done[n].1.data))] else [];
      assert AnswersOf(files, done) == AnswersOf(files, done[..n]) + more;
      assert (i, (f, d)) in more <==> done[n] == (i, Answered(d)) && f == files[done[n].0];
      LastOrBefore(done, (i, Answered(d)));
    }
  }

  lemma LastOrBefore(done: seq<(nat, Outcome)>, x: (nat, Outcome))
    requires done != []
    ensures x in done <==> x in done[..|done| - 1] || x == done[|done| - 1]
  {
    assert done == done[..|done| - 1] + [done[|done| - 1]];
  }

  /** ... and the skips those lost, each with its reason; files finished without data are in
      neither. */
  lemma {:induction false} SkipsAreLost(files: seq<string>, done: seq<(nat, Outcome)>, f: string, why: Why)
    requires forall k :: 0 <= k < |done| ==> done[k].0 < |files|
    ensures (f, why) in SkipsOf(files, done) <==> LostFile(files, done, f, why)
    ensures |SkipsOf(files, done)| == CountDone(done, Some(TimedOut)) + CountDone(done, Some(Crashed))
    decreases |done|
  {
    if done != [] {
      var n := |done| - 1;
      SkipsAreLost(files, done[..n], f, why);
      OneMoreLost(files, done, f, why);
      var more := if done[n].1.Lost? then [(files[done[n].0], done[n].1.why)] else [];
      assert SkipsOf(files, done) == SkipsOf(files, done[..n]) + more;
      assert (f, why) in more <==> done[n].1 == Lost(why) && files[done[n].0] == f;
    }
  }

  lemma OneMoreLost(files: seq<string>, done: seq<(nat, Outcome)>, f: string, why: Why)
    requires done != [] && done[|done| - 1].0 < |files|
    ensures var (i, o) := done[|done| - 1];
            LostFile(files, done, f, why) <==>
              LostFile(files, done[..|done| - 1], f, why) || (o == Lost(why) && files[i] == f)
  {
    assert forall k :: 0 <= k < |done| - 1 ==> done[..|done| - 1][k] == done[k];
  }

  lemma {:induction false} AnswersAndSkips(files: seq<string>, done: seq<(nat, Outcome)>)
    requires forall k :: 0 <= k < |done| ==> done[k].0 < |files|
    ensures |AnswersOf(files, done)| + |SkipsOf(files, done)| <= |done|
    decreases |done|
  {
    if done != [] { AnswersAndSkips(files, done[..|done| - 1]); }
  }
}

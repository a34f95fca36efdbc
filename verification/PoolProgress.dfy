/**
 The extraction pool (src/extraction_worker.rs) always finishes: bounded work and no
 deadlock.
 */
module PoolProgress {
  import opened ExtractionPool

  function Cost(th: Thread, w: Worker): nat {
    |w.inbox| + match th
                case Polling => 2
                case Popping => 1
                case Sending(_, _) => 8
                case Waiting(_, _) => 6
                case Reporting(_, _, _) => 5
                case Recording(_, _, _) => 4
                case Respawning => 3
                case Stopped(_) => 0
  }

  function Costs(threads: seq<Thread>, workers: seq<Worker>): nat
    requires |threads| == |workers|
  {
    if threads == [] then 0
    else Costs(threads[..|threads| - 1], workers[..|threads| - 1])
         + Cost(threads[|threads| - 1], workers[|threads| - 1])
  }

  /** An upper bound on the steps left, apart from changes of the shutdown flag. */
  function Remaining(s: State): nat
    requires |s.threads| == |s.workers|
  {
    9 * |s.queue| + Costs(s.threads, s.workers)
  }

  lemma CostsUpdate(threads: seq<Thread>, workers: seq<Worker>, t: nat, th: Thread, w: Worker)
    requires |threads| == |workers| && t < |threads|
    ensures Costs(threads[t := th], workers[t := w])
         == Costs(threads, workers) - Cost(threads[t], workers[t]) + Cost(th, w)
  {
    var n := |threads| - 1;
    if t == n {
      assert threads[t := th][..n] == threads[..n] && workers[t := w][..n] == workers[..n];
    } else {
      assert threads[t := th][..n] == threads[..n][t := th];
      assert workers[t := w][..n] == workers[..n][t := w];
      CostsUpdate(threads[..n], workers[..n], t, th, w);
    }
  }

  lemma OwnCost(job: Job, s: State, a: Action)
    requires Enabled(job, s, a) && !a.SetShutdown?
    ensures var s' := Next(job, s, a);
            9 * |s'.queue| + Cost(s'.threads[a.t], s'.workers[a.t])
            < 9 * |s.queue| + Cost(s.threads[a.t], s.workers[a.t])
  {
  }

  lemma StepCosts(job: Job, s: State, a: Action)
    requires Enabled(job, s, a) && |s.threads| == |s.workers|
    ensures var s' := Next(job, s, a);
            |s'.threads| == |s'.workers|
            && (a.SetShutdown? ==> Remaining(s') == Remaining(s))
            && (!a.SetShutdown? ==> Remaining(s') < Remaining(s))
  {
    StepFrame(job, s, a);
    if !a.SetShutdown? {
      var s' := Next(job, s, a);
      OwnCost(job, s, a);
      CostsUpdate(s.threads, s.workers, a.t, s'.threads[a.t], s'.workers[a.t]);
    }
  }

  function ThreadSteps(actions: seq<Action>): nat {
    if actions == [] then 0
    else (if actions[0].SetShutdown? then 0 else 1) + ThreadSteps(actions[1..])
  }

  /** No schedule keeps a pool busy for ever: every step of a thread or worker uses up some
      of what remains. */
  lemma {:induction false} WorkIsBounded(job: Job, s: State, actions: seq<Action>, s': State)
    requires |s.threads| == |s.workers| && Runs(job, s, actions, s')
    ensures |s'.threads| == |s'.workers|
    ensures ThreadSteps(actions) + Remaining(s') <= Remaining(s)
    decreases |actions|
  {
    if actions != [] {
      StepCosts(job, s, actions[0]);
      WorkIsBounded(job, Next(job, s, actions[0]), actions[1..], s');
    }
  }

  lemma InitialCosts(n: nat)
    ensures Costs(seq(n, _ => Polling), seq(n, _ => FRESH)) == 2 * n
  {
    if n > 0 {
      assert seq(n, _ => Polling)[..n - 1] == seq(n - 1, _ => Polling);
      assert seq(n, _ => FRESH)[..n - 1] == seq(n - 1, _ => FRESH);
      InitialCosts(n - 1);
    }
  }

  /** A job's pool takes at most nine steps per file and two per thread. */
  lemma JobIsBounded(job: Job, n: nat, actions: seq<Action>, s: State)
    requires Runs(job, Initial(job, n), actions, s)
    ensures ThreadSteps(actions) <= 9 * |job.files| + 2 * n
  {
    WorkIsBounded(job, Initial(job, n), actions, s);
    InitialCosts(n);
  }

  /** A step some thread can take on its own, for every thread that has not stopped. */
  function OwnStep(th: Thread, t: nat): Action
    requires !th.Stopped?
  {
    match th
    case Polling => Poll(t)
    case Popping => Pop(t)
    case Sending(_, _) => Send(t)
    case Waiting(_, _) => Break(t, TimedOut)
    case Reporting(_, _, _) => Tick(t)
    case Recording(_, _, _) => Record(t)
    case Respawning => Respawn(t, true)
  }

  /** No deadlock, and a pool that loses no thread and is not shut down drains its queue:
      once all threads have stopped, either nothing is left or a reason is on record. */
  lemma NeverStuck(job: Job, s: State)
    requires Inv(job, s)
    ensures forall t :: 0 <= t < |s.threads| && !s.threads[t].Stopped? ==> Enabled(job, s, OwnStep(s.threads[t], t))
    ensures AllStopped(s) && |s.threads| > 0 && |s.queue| > 0 ==>
              forall t :: 0 <= t < |s.threads| ==> s.threads[t].reason != Drained
  {
    if AllStopped(s) {
      forall t | 0 <= t < |s.threads| && |s.queue| > 0 ensures s.threads[t].reason != Drained {
        assert s.threads[t] == Stopped(s.threads[t].reason);
      }
    }
  }
}

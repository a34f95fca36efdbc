/**
 The extraction pool's shared state, updated in place, and `extract_files` under an
 arbitrary schedule (src/extraction_worker.rs).
 */
module SharedPool {
  import opened Common
  import opened ExtractionPool
  import opened PoolOutput
  import opened PoolProgress
  import opened PoolShutdown

  /** The locked vectors, the queue and the progress counter, updated in place. */
  class Pool {
    const job: Job
    var queue: seq<(nat, string)>
    var threads: seq<Thread>
    var workers: seq<Worker>
    var results: seq<(nat, Tuple)>
    var skipped: seq<(string, Why)>
    var progress: nat
    var shutdown: bool
    ghost var done: seq<(nat, Outcome)>

    ghost function View(): State
      reads this
    {
      State(queue, threads, workers, results, skipped, progress, shutdown, done)
    }

    constructor (job: Job, n: nat)
      ensures this.job == job && View() == Initial(job, n)
    {
      this.job := job;
      queue := Enumerate(job.files);
      threads, workers := seq(n, _ => Polling), seq(n, _ => FRESH);
      results, skipped, progress, shutdown := [], [], 0, false;
      done := [];
    }

    method CheckShutdown(t: nat)
      requires Enabled(job, View(), Poll(t))
      modifies this
      ensures View() == Next(job, old(View()), Poll(t))
    {
      threads := threads[t := if shutdown then Stopped(ShutDown) else Popping];
    }

    method PopFront(t: nat)
      requires Enabled(job, View(), Pop(t))
      modifies this
      ensures View() == Next(job, old(View()), Pop(t))
    {
      if |queue| == 0 {
        threads := threads[t := Stopped(Drained)];
      } else {
        var (idx, file) := queue[0];
        queue := queue[1..];
        threads := threads[t := Sending(idx, file)];
      }
    }

    method SendRequest(t: nat)
      requires Enabled(job, View(), Send(t))
      modifies this
      ensures View() == Next(job, old(View()), Send(t))
    {
      var file := threads[t].file;
      workers := workers[t := workers[t].(inbox := workers[t].inbox + [file])];
      threads := threads[t := Waiting(threads[t].idx, file)];
    }

    method ServeRequest(t: nat, data: Option<ExtractData>)
      requires Enabled(job, View(), Serve(t, data))
      modifies this
      ensures View() == Next(job, old(View()), Serve(t, data))
    {
      var w := workers[t];
      workers := workers[t := Worker(w.inbox[1..], w.outbox + [Reply(w.inbox[0], data)])];
    }

    /** The end of a round trip. The watchdog's flag wins over a reply already read. */
    method FinishRoundTrip(t: nat, timedOut: bool)
      requires Enabled(job, View(), if timedOut then LateTimeout(t) else Receive(t))
      modifies this
      ensures View() == Next(job, old(View()), if timedOut then LateTimeout(t) else Receive(t))
    {
      var reply := workers[t].outbox[0];
      workers := workers[t := workers[t].(outbox := workers[t].outbox[1..])];
      var got := if timedOut then Broken(TimedOut) else Replied(reply);
      threads := threads[t := Reporting(threads[t].idx, threads[t].file, got)];
    }

    method BreakRoundTrip(t: nat, why: Why)
      requires Enabled(job, View(), Break(t, why))
      modifies this
      ensures View() == Next(job, old(View()), Break(t, why))
    {
      threads := threads[t := Reporting(threads[t].idx, threads[t].file, Broken(why))];
    }

    method BumpProgress(t: nat)
      requires Enabled(job, View(), Tick(t))
      modifies this
      ensures View() == Next(job, old(View()), Tick(t))
    {
      progress := progress + 1;
      threads := threads[t := Recording(threads[t].idx, threads[t].file, threads[t].got)];
    }

    method RecordOutcome(t: nat)
      requires Enabled(job, View(), Record(t))
      modifies this
      ensures View() == Next(job, old(View()), Record(t))
    {
      var th := threads[t];
      match th.got {
        case Replied(reply) =>
          if reply.data.Some? {
            results := results + [(th.idx, (reply.file, reply.data.value))];
          }
          threads := threads[t := Polling];
        case Broken(why) =>
          skipped := skipped + [(th.file, why)];
          threads := threads[t := Respawning];
      }
      done := done + [(th.idx, OutcomeOf(th.got))];
    }

    method RespawnWorker(t: nat, ok: bool)
      requires Enabled(job, View(), Respawn(t, ok))
      modifies this
      ensures View() == Next(job, old(View()), Respawn(t, ok))
    {
      if ok {
        workers := workers[t := FRESH];
        threads := threads[t := Polling];
      } else {
        threads := threads[t := Stopped(GaveUp)];
      }
    }

    method Perform(a: Action)
      requires Enabled(job, View(), a)
      modifies this
      ensures View() == Next(job, old(View()), a)
    {
      match a
      case Poll(t) => CheckShutdown(t);
      case Pop(t) => PopFront(t);
      case Send(t) => SendRequest(t);
      case Serve(t, data) => ServeRequest(t, data);
      case Receive(t) => FinishRoundTrip(t, false);
      case Break(t, why) => BreakRoundTrip(t, why);
      case LateTimeout(t) => FinishRoundTrip(t, true);
      case Tick(t) => BumpProgress(t);
      case Record(t) => RecordOutcome(t);
      case Respawn(t, ok) => RespawnWorker(t, ok);
      case SetShutdown(on) => shutdown := on;
    }

    method Running() returns (t: nat)
      ensures t == FirstRunning(threads)
    {
      t := 0;
      assert threads[0..] == threads;
      while t < |threads| && threads[t].Stopped?
        invariant t <= |threads| && FirstRunning(threads) == t + FirstRunning(threads[t..])
      {
        assert threads[t..][1..] == threads[t + 1..];
        t := t + 1;
      }
    }

    method CanDo(a: Action) returns (possible: bool)
      ensures possible <==> Enabled(job, View(), a)
    {
      possible := Enabled(job, State(queue, threads, workers, results, skipped, progress, shutdown, []), a);
    }
  }

  /** The first thread that has not stopped, or the thread count. */
  function FirstRunning(threads: seq<Thread>): (t: nat)
    ensures t <= |threads| && (t < |threads| ==> !threads[t].Stopped?)
    ensures forall u :: 0 <= u < t ==> threads[u].Stopped?
  {
    if threads == [] || !threads[0].Stopped? then 0 else 1 + FirstRunning(threads[1..])
  }

  /** One turn: the scheduled action if it is possible, otherwise a step of thread `t` on its
      own. A change of the shutdown flag comes with such a step, so that time goes on. */
  ghost function Turn(job: Job, s: State, t: nat, a: Action): State
    requires Inv(job, s) && t < |s.threads| && !s.threads[t].Stopped?
  {
    if !a.SetShutdown? && Enabled(job, s, a) then Next(job, s, a)
    else
      var s' := if a.SetShutdown? then Next(job, s, a) else s;
      OwnStepEnabled(job, s, a, t);
      Next(job, s', OwnStep(s'.threads[t], t))
  }

  lemma OwnStepEnabled(job: Job, s: State, a: Action, t: nat)
    requires Inv(job, s) && t < |s.threads| && !s.threads[t].Stopped?
    ensures var s' := if a.SetShutdown? then Next(job, s, a) else s;
            Inv(job, s') && s'.threads == s.threads && Enabled(job, s', OwnStep(s'.threads[t], t))
  {
    if a.SetShutdown? {
      StepKeepsInv(job, s, a);
      NeverStuck(job, Next(job, s, a));
    } else {
      NeverStuck(job, s);
    }
  }

  /** The actions a turn performs. */
  function TurnActions(job: Job, s: State, t: nat, a: Action): seq<Action>
    requires t < |s.threads| && !s.threads[t].Stopped?
  {
    if a.SetShutdown? then [a, OwnStep(s.threads[t], t)]
    else if Enabled(job, s, a) then [a] else [OwnStep(s.threads[t], t)]
  }

  lemma RunsOne(job: Job, s: State, a: Action)
    requires Enabled(job, s, a)
    ensures Runs(job, s, [a], Next(job, s, a))
  {
    assert [a][1..] == [];
  }

  lemma TurnIsARun(job: Job, s: State, t: nat, a: Action)
    requires Inv(job, s) && t < |s.threads| && !s.threads[t].Stopped?
    ensures Inv(job, Turn(job, s, t, a)) && Remaining(Turn(job, s, t, a)) < Remaining(s)
    ensures Runs(job, s, TurnActions(job, s, t, a), Turn(job, s, t, a))
  {
    if !a.SetShutdown? && Enabled(job, s, a) {
      StepKeepsInv(job, s, a);
      StepCosts(job, s, a);
      RunsOne(job, s, a);
    } else {
      OwnStepEnabled(job, s, a, t);
      var s' := if a.SetShutdown? then Next(job, s, a) else s;
      var own := OwnStep(s'.threads[t], t);
      if a.SetShutdown? {
        StepCosts(job, s, a);
        assert [a, own][1..] == [own];
      }
      StepKeepsInv(job, s', own);
      StepCosts(job, s', own);
      RunsOne(job, s', own);
    }
  }

  /** Where the pool ends that is at `s` when `turn` turns of the schedule are over. */
  ghost function Played(job: Job, s: State, schedule: nat -> Action, turn: nat): (end: State)
    requires Inv(job, s)
    ensures Inv(job, end) && AllStopped(end)
    decreases Remaining(s)
  {
    var t := FirstRunning(s.threads);
    if t == |s.threads| then s
    else
      TurnIsARun(job, s, t, schedule(turn));
      Played(job, Turn(job, s, t, schedule(turn)), schedule, turn + 1)
  }

  lemma {:induction false} RunsConcat(job: Job, s: State, run: seq<Action>, s': State, more: seq<Action>, end: State)
    requires Runs(job, s, run, s') && Runs(job, s', more, end)
    ensures Runs(job, s, run + more, end)
    decreases |run|
  {
    if run == [] {
      assert run + more == more;
    } else {
      assert (run + more)[1..] == run[1..] + more;
      RunsConcat(job, Next(job, s, run[0]), run[1..], s', more, end);
    }
  }

  ghost predicate Reaches(job: Job, s: State, end: State) {
    exists run :: Runs(job, s, run, end)
  }

  lemma ReachesThrough(job: Job, s: State, run: seq<Action>, s': State, end: State)
    requires Runs(job, s, run, s') && Reaches(job, s', end)
    ensures Reaches(job, s, end)
  {
    var more :| Runs(job, s', more, end);
    RunsConcat(job, s, run, s', more, end);
  }

  lemma ReachesItself(job: Job, s: State)
    ensures Reaches(job, s, s)
  {
    assert Runs(job, s, [], s);
  }

  lemma {:induction false} PlayedIsARun(job: Job, s: State, schedule: nat -> Action, turn: nat)
    requires Inv(job, s)
    ensures Reaches(job, s, Played(job, s, schedule, turn))
    decreases Remaining(s)
  {
    var t := FirstRunning(s.threads);
    if t == |s.threads| {
      ReachesItself(job, s);
    } else {
      var a := schedule(turn);
      TurnIsARun(job, s, t, a);
      PlayedIsARun(job, Turn(job, s, t, a), schedule, turn + 1);
      ReachesThrough(job, s, TurnActions(job, s, t, a), Turn(job, s, t, a), Played(job, s, schedule, turn));
    }
  }

  /** Where a whole job ends under a schedule. */
  ghost function Final(job: Job, n: nat, schedule: nat -> Action): (end: State)
    ensures Inv(job, end) && AllStopped(end) && 0 <= Popped(job, end) <= |job.files|
    ensures Reaches(job, Initial(job, n), end)
  {
    InitialInv(job, n);
    PlayedIsARun(job, Initial(job, n), schedule, 0);
    Played(job, Initial(job, n), schedule, 0)
  }

  /** Where a whole job is when `turn` turns of the schedule are over, or at its end. */
  ghost function After(job: Job, n: nat, schedule: nat -> Action, turn: nat): (s: State)
    ensures Inv(job, s) && 0 <= Popped(job, s) <= |job.files|
    ensures Played(job, s, schedule, turn) == Final(job, n, schedule)
  {
    if turn == 0 then
      InitialInv(job, n);
      Initial(job, n)
    else
      var s := After(job, n, schedule, turn - 1);
      PlayedOneTurn(job, s, schedule, turn - 1);
      AfterTurn(job, s, schedule(turn - 1))
  }

  /** One turn of a job, nothing when all threads have stopped. */
  ghost function AfterTurn(job: Job, s: State, a: Action): (s': State)
    requires Inv(job, s)
    ensures Inv(job, s')
  {
    var t := FirstRunning(s.threads);
    if t == |s.threads| then s
    else
      TurnIsARun(job, s, t, a);
      Turn(job, s, t, a)
  }

  lemma PlayedOneTurn(job: Job, s: State, schedule: nat -> Action, turn: nat)
    requires Inv(job, s)
    ensures Played(job, s, schedule, turn) == Played(job, AfterTurn(job, s, schedule(turn)), schedule, turn + 1)
  {
  }

  /** The schedule cancels at turn `k`. */
  predicate CancelsAt(schedule: nat -> Action, k: nat) {
    schedule(k) == SetShutdown(true)
  }

  ghost predicate NeverResumes(schedule: nat -> Action, k: nat) {
    forall i: nat :: k <= i ==> schedule(i) != SetShutdown(false)
  }

  /** One turn under the flag, whose run does not clear it. */
  lemma CancelledTurn(job: Job, s: State, t: nat, a: Action)
    requires Inv(job, s) && t < |s.threads| && !s.threads[t].Stopped? && a != SetShutdown(false)
    requires s.shutdown || a == SetShutdown(true)
    ensures var s' := Turn(job, s, t, a);
            s'.shutdown && |s.queue| - |s'.queue| <= CountPopping(s.threads) - CountPopping(s'.threads)
  {
    OwnStepEnabled(job, s, a, t);
    if !a.SetShutdown? && Enabled(job, s, a) {
      CancelledStep(job, s, a);
    } else {
      var s' := if a.SetShutdown? then Next(job, s, a) else s;
      CancelledStep(job, s', OwnStep(s'.threads[t], t));
    }
  }

  lemma {:induction false} CancelledPlay(job: Job, s: State, schedule: nat -> Action, turn: nat)
    requires Inv(job, s) && (s.shutdown || CancelsAt(schedule, turn)) && NeverResumes(schedule, turn)
    ensures |s.queue| - |Played(job, s, schedule, turn).queue| <= CountPopping(s.threads)
    decreases Remaining(s)
  {
    var t := FirstRunning(s.threads);
    if t < |s.threads| {
      TurnIsARun(job, s, t, schedule(turn));
      CancelledTurn(job, s, t, schedule(turn));
      CancelledPlay(job, Turn(job, s, t, schedule(turn)), schedule, turn + 1);
    }
  }

  /** `extract_files` under an arbitrary schedule of pops, answers, failures, respawns and
      cancellations: it finishes where that schedule leads, and returns the files answered on
      the way, in input order and each with its own answer, and the files lost. */
  method ExtractFiles(job: Job, n: nat, schedule: nat -> Action)
      returns (outcome: seq<Tuple>, skips: seq<(string, Why)>)
    ensures var end := Final(job, n, schedule);
            outcome == Tuples(Expected(job.files, LogOf(end.done), Popped(job, end)))
            && skips == SkipsOf(job.files, end.done)
    ensures forall k: nat :: CancelsAt(schedule, k) && NeverResumes(schedule, k) ==>
              var s := After(job, n, schedule, k);
              |outcome| + |skips| <= Popped(job, s) + CountPopping(s.threads)
    ensures CancelsAt(schedule, 0) && NeverResumes(schedule, 0) ==> outcome == [] && skips == []
  {
    var pool := new Pool(job, n);
    ghost var end := Final(job, n, schedule);
    InitialInv(job, n);
    var turn := 0;
    var t: nat := pool.Running();
    while t < |pool.threads|
      invariant pool.job == job && Inv(job, pool.View()) && t == FirstRunning(pool.threads)
      invariant Played(job, pool.View(), schedule, turn) == end
      decreases Remaining(pool.View())
    {
      TurnIsARun(job, pool.View(), t, schedule(turn));
      TakeTurn(pool, t, schedule(turn));
      t := pool.Running();
      turn := turn + 1;
    }
    assert pool.View() == end;
    outcome := Tuples(SortByIndex(pool.results));
    skips := pool.skipped;
    FinalOutput(job, end);
    forall k: nat | CancelsAt(schedule, k) && NeverResumes(schedule, k)
      ensures var s := After(job, n, schedule, k);
              |outcome| + |skips| <= Popped(job, s) + CountPopping(s.threads)
    {
      CancelledJob(job, n, schedule, k);
    }
    NobodyPopsYet(n);
  }

  lemma {:induction false} NobodyPopsYet(n: nat)
    ensures CountPopping(seq(n, _ => Polling)) == 0
  {
    if n > 0 {
      assert seq(n, _ => Polling)[..n - 1] == seq(n - 1, _ => Polling);
      NobodyPopsYet(n - 1);
    }
  }

  /** A job cancelled for good at turn `k` returns and skips no more files than were taken
      by then, and one for every thread that was about to take one. */
  lemma CancelledJob(job: Job, n: nat, schedule: nat -> Action, k: nat)
    requires CancelsAt(schedule, k) && NeverResumes(schedule, k)
    ensures var s, end := After(job, n, schedule, k), Final(job, n, schedule);
            && |Output(end)| + |end.skipped| <= |end.done|
            && |end.done| <= Popped(job, s) + CountPopping(s.threads)
  {
    var s, end := After(job, n, schedule, k), Final(job, n, schedule);
    CancelledPlay(job, s, schedule, k);
    FinishedWerePopped(job, end);
    AnswersAndSkips(job.files, end.done);
    OutputSize(end);
  }

  lemma OutputSize(end: State)
    ensures |Output(end)| == |end.results|
  {
    SortSize(end.results);
  }

  lemma {:induction false} SortSize(r: seq<(nat, Tuple)>)
    ensures |SortByIndex(r)| == |r|
  {
    if r != [] {
      SortSize(r[1..]);
      InsertSize(r[0], SortByIndex(r[1..]));
    }
  }

  lemma {:induction false} InsertSize(x: (nat, Tuple), r: seq<(nat, Tuple)>)
    ensures |Insert(x, r)| == |r| + 1
  {
    if r != [] { InsertSize(x, r[1..]); }
  }

  lemma FinalOutput(job: Job, end: State)
    requires Inv(job, end) && AllStopped(end)
    ensures 0 <= Popped(job, end) <= |job.files|
    ensures Output(end) == Tuples(Expected(job.files, LogOf(end.done), Popped(job, end)))
    ensures end.progress == |end.done| && end.skipped == SkipsOf(job.files, end.done)
  {
    LogOfMembers(end.done);
    OutputIsExpected(job, end, LogOf(end.done));
    NothingRecording(end.threads);
  }

  method TakeTurn(pool: Pool, t: nat, scheduled: Action)
    requires Inv(pool.job, pool.View()) && t < |pool.threads| && !pool.threads[t].Stopped?
    modifies pool
    ensures pool.View() == Turn(pool.job, old(pool.View()), t, scheduled)
  {
    OwnStepEnabled(pool.job, pool.View(), scheduled, t);
    if scheduled.SetShutdown? {
      pool.Perform(scheduled);
    } else {
      var possible := pool.CanDo(scheduled);
      if possible {
        pool.Perform(scheduled);
        return;
      }
    }
    pool.Perform(OwnStep(pool.threads[t], t));
  }

  lemma NothingRecording(threads: seq<Thread>)
    requires forall t :: 0 <= t < |threads| ==> threads[t].Stopped?
    ensures CountRecording(threads) == 0
  {
  }
}

/**
 The extraction pool (src/extraction_worker.rs) as a transition system. Threads pop
 files from a shared queue and run one request/response at a time with a worker
 process of their own; a worker that times out or crashes is replaced; a thread whose
 replacement cannot be spawned gives up. Every interleaving is a list of `Action`s.
 */
module ExtractionPool {
  import opened Common

  datatype ExtractData = ExtractData(result: string, contentHash: string, size: nat, mtime: int)
  datatype Reply = Reply(file: string, data: Option<ExtractData>)

  /** A worker process seen through its two pipes. */
  datatype Worker = Worker(inbox: seq<string>, outbox: seq<Reply>)
  const FRESH := Worker([], [])

  datatype Why = TimedOut | Crashed
  datatype RoundTrip = Replied(reply: Reply) | Broken(why: Why)
  datatype StopReason = Drained | ShutDown | GaveUp

  /** Where a thread is in its loop. */
  datatype Thread =
    | Polling
    | Popping
    | Sending(idx: nat, file: string)
    | Waiting(idx: nat, file: string)
    | Reporting(idx: nat, file: string, got: RoundTrip)
    | Recording(idx: nat, file: string, got: RoundTrip)
    | Respawning
    | Stopped(reason: StopReason)
  {
    predicate Holds(i: nat) {
      (Sending? || Waiting? || Reporting? || Recording?) && idx == i
    }
  }

  /** How a file ended. */
  datatype Outcome = Answered(data: ExtractData) | NoData | Lost(why: Why)
  type Tuple = (string, ExtractData)

  /** The shared state of a pool, its threads and their workers. `done` is history: the
      files finished so far and how, in completion order. */
  datatype State = State(
    queue: seq<(nat, string)>, threads: seq<Thread>, workers: seq<Worker>,
    results: seq<(nat, Tuple)>, skipped: seq<(string, Why)>, progress: nat, shutdown: bool,
    done: seq<(nat, Outcome)>)

  datatype Action =
    | Poll(t: nat)
    | Pop(t: nat)
    | Send(t: nat)
    | Serve(t: nat, data: Option<ExtractData>)   // the worker process of thread `t` answers
    | Receive(t: nat)
    | Break(t: nat, why: Why)                    // write or read error, or the watchdog fired
    | LateTimeout(t: nat)                        // the watchdog fired after the reply was read
    | Tick(t: nat)
    | Record(t: nat)
    | Respawn(t: nat, ok: bool)
    | SetShutdown(on: bool)

  /** A job: the files, and which data counts as an answer for which file. */
  datatype Job = Job(files: seq<string>, answersFor: (string, Option<ExtractData>) -> bool)

  function Enumerate(files: seq<string>): (q: seq<(nat, string)>)
    ensures |q| == |files| && forall i :: 0 <= i < |q| ==> q[i] == (i, files[i])
  {
    seq(|files|, i requires 0 <= i < |files| => (i, files[i]))
  }

  function Initial(job: Job, threads: nat): State {
    State(Enumerate(job.files), seq(threads, _ => Polling), seq(threads, _ => FRESH),
          [], [], 0, false, [])
  }

  predicate Enabled(job: Job, s: State, a: Action) {
    a.SetShutdown? || (a.t < |s.threads| && a.t < |s.workers| &&
                       var th, w := s.threads[a.t], s.workers[a.t];
                       match a
                       case Poll(_) => th.Polling?
                       case Pop(_) => th.Popping?
                       case Send(_) => th.Sending?
                       case Serve(_, data) => |w.inbox| > 0 && job.answersFor(w.inbox[0], data)
                       case Receive(_) => th.Waiting? && |w.outbox| > 0
                       case Break(_, why) => th.Waiting? || (th.Sending? && why == Crashed)
                       case LateTimeout(_) => th.Waiting? && |w.outbox| > 0
                       case Tick(_) => th.Reporting?
                       case Record(_) => th.Recording?
                       case Respawn(_, _) => th.Respawning?)
  }

  function OutcomeOf(got: RoundTrip): Outcome {
    match got
    case Replied(reply) => if reply.data.Some? then Answered(reply.data.value) else NoData
    case Broken(why) => Lost(why)
  }

  function Next(job: Job, s: State, a: Action): State
    requires Enabled(job, s, a)
  {
    if a.SetShutdown? then s.(shutdown := a.on) else
    var t := a.t;
    var th, w := s.threads[t], s.workers[t];
    match a
    case Poll(_) =>
      s.(threads := s.threads[t := if s.shutdown then Stopped(ShutDown) else Popping])
    case Pop(_) =>
      if |s.queue| == 0 then s.(threads := s.threads[t := Stopped(Drained)])
      else s.(queue := s.queue[1..], threads := s.threads[t := Sending(s.queue[0].0, s.queue[0].1)])
    case Send(_) =>
      s.(threads := s.threads[t := Waiting(th.idx, th.file)],
         workers := s.workers[t := w.(inbox := w.inbox + [th.file])])
    case Serve(_, data) =>
      s.(workers := s.workers[t := Worker(w.inbox[1..], w.outbox + [Reply(w.inbox[0], data)])])
    case Receive(_) =>
      s.(threads := s.threads[t := Reporting(th.idx, th.file, Replied(w.outbox[0]))],
         workers := s.workers[t := w.(outbox := w.outbox[1..])])
    case Break(_, why) =>
      s.(threads := s.threads[t := Reporting(th.idx, th.file, Broken(why))])
    case LateTimeout(_) =>
      s.(threads := s.threads[t := Reporting(th.idx, th.file, Broken(TimedOut))],
         workers := s.workers[t := w.(outbox := w.outbox[1..])])
    case Tick(_) =>
      s.(threads := s.threads[t := Recording(th.idx, th.file, th.got)], progress := s.progress + 1)
    case Record(_) =>
      var s' := s.(done := s.done + [(th.idx, OutcomeOf(th.got))]);
      (match th.got
       case Replied(reply) =>
         if reply.data.Some? then
           s'.(threads := s.threads[t := Polling],
               results := s.results + [(th.idx, (reply.file, reply.data.value))])
         else s'.(threads := s.threads[t := Polling])
       case Broken(why) =>
         s'.(threads := s.threads[t := Respawning], skipped := s.skipped + [(th.file, why)]))
    case Respawn(_, ok) =>
      if ok then s.(threads := s.threads[t := Polling], workers := s.workers[t := FRESH])
      else s.(threads := s.threads[t := Stopped(GaveUp)])
  }

  /** `s'` is reached from `s` by performing `actions` in order. */
  ghost predicate Runs(job: Job, s: State, actions: seq<Action>, s': State)
    decreases |actions|
  {
    if actions == [] then s == s'
    else Enabled(job, s, actions[0]) && Runs(job, Next(job, s, actions[0]), actions[1..], s')
  }

  // -------------------------------------------------------------- invariant

  function Popped(job: Job, s: State): int {
    |job.files| - |s.queue|
  }

  /** The queue is a suffix of the numbered input. */
  ghost predicate QueueIsSuffix(job: Job, s: State) {
    && 0 <= Popped(job, s)
    && s.queue == Enumerate(job.files)[Popped(job, s)..]
    && forall t :: 0 <= t < |s.threads| && s.threads[t] == Stopped(Drained) ==> |s.queue| == 0
  }

  ghost predicate Finished(s: State, i: nat) {
    exists k :: 0 <= k < |s.done| && s.done[k].0 == i
  }

  ghost predicate InFlight(s: State, i: nat) {
    exists t :: 0 <= t < |s.threads| && s.threads[t].Holds(i)
  }

  /** Every popped index is held by one thread or finished once, never both or twice. */
  ghost predicate EachOnce(job: Job, s: State) {
    && (forall i: nat :: i < Popped(job, s) <==> InFlight(s, i) || Finished(s, i))
    && (forall i: nat :: !(InFlight(s, i) && Finished(s, i)))
    && (forall k, l :: 0 <= k < l < |s.done| ==> s.done[k].0 != s.done[l].0)
    && (forall t, u, i: nat :: 0 <= t < u < |s.threads| && s.threads[t].Holds(i) ==> !s.threads[u].Holds(i))
  }

  /** Thread `th` and its worker `w` agree on what has been asked and answered. */
  ghost predicate InStep(job: Job, th: Thread, w: Worker) {
    match th
    case Polling => w == FRESH
    case Popping => w == FRESH
    case Sending(i, f) => i < |job.files| && f == job.files[i] && w == FRESH
    case Waiting(i, f) =>
      i < |job.files| && f == job.files[i]
      && (w == Worker([f], []) || (exists d :: job.answersFor(f, d) && w == Worker([], [Reply(f, d)])))
    case Reporting(i, f, got) => i < |job.files| && f == job.files[i] && Paired(job, f, got, w)
    case Recording(i, f, got) => i < |job.files| && f == job.files[i] && Paired(job, f, got, w)
    case Respawning => true
    case Stopped(_) => true
  }

  ghost predicate Paired(job: Job, f: string, got: RoundTrip, w: Worker) {
    got.Replied? ==> got.reply.file == f && job.answersFor(f, got.reply.data) && w == FRESH
  }

  ghost predicate AllInStep(job: Job, s: State) {
    && |s.workers| == |s.threads|
    && forall t :: 0 <= t < |s.threads| ==> InStep(job, s.threads[t], s.workers[t])
  }

  /** The results the finished files ask for, in completion order. */
  function AnswersOf(files: seq<string>, done: seq<(nat, Outcome)>): (r: seq<(nat, Tuple)>)
    requires forall k :: 0 <= k < |done| ==> done[k].0 < |files|
  {
    if done == [] then []
    else
      var (i, o) := done[|done| - 1];
      AnswersOf(files, done[..|done| - 1]) + if o.Answered? then [(i, (files[i], o.data))] else []
  }

  function SkipsOf(files: seq<string>, done: seq<(nat, Outcome)>): seq<(string, Why)>
    requires forall k :: 0 <= k < |done| ==> done[k].0 < |files|
  {
    if done == [] then []
    else
      var (i, o) := done[|done| - 1];
      SkipsOf(files, done[..|done| - 1]) + if o.Lost? then [(files[i], o.why)] else []
  }

  function CountRecording(threads: seq<Thread>): nat {
    if threads == [] then 0
    else CountRecording(threads[..|threads| - 1]) + if threads[|threads| - 1].Recording? then 1 else 0
  }

  ghost predicate Bookkeeping(job: Job, s: State) {
    && (forall k :: 0 <= k < |s.done| ==> s.done[k].0 < |job.files|)
    && (forall k :: 0 <= k < |s.done| && s.done[k].1.Answered? ==>
          job.answersFor(job.files[s.done[k].0], Some(s.done[k].1.data)))
    && s.results == AnswersOf(job.files, s.done)
    && s.skipped == SkipsOf(job.files, s.done)
    && s.progress == |s.done| + CountRecording(s.threads)
  }

  ghost predicate Inv(job: Job, s: State) {
    QueueIsSuffix(job, s) && EachOnce(job, s) && AllInStep(job, s) && Bookkeeping(job, s)
  }

  lemma NoneRecording(n: nat)
    ensures CountRecording(seq(n, _ => Polling)) == 0
  {
    if n > 0 {
      assert seq(n, _ => Polling)[..n - 1] == seq(n - 1, _ => Polling);
      NoneRecording(n - 1);
    }
  }

  lemma NothingStarted(job: Job, threads: nat)
    ensures EachOnce(job, Initial(job, threads))
  {
    var s := Initial(job, threads);
    assert Popped(job, s) == 0;
    forall i: nat ensures !InFlight(s, i) && !Finished(s, i) {}
  }

  lemma InitialInv(job: Job, threads: nat)
    ensures Inv(job, Initial(job, threads))
  {
    var s := Initial(job, threads);
    NothingStarted(job, threads);
    NoneRecording(threads);
    assert s.queue == Enumerate(job.files)[0..];
  }

  /** A step changes at most its own thread and worker. */
  lemma StepFrame(job: Job, s: State, a: Action)
    requires Enabled(job, s, a)
    ensures var s' := Next(job, s, a);
            && |s'.threads| == |s.threads| && |s'.workers| == |s.workers|
            && (a.SetShutdown? ==> s' == s.(shutdown := a.on))
            && (!a.SetShutdown? ==> s'.threads == s.threads[a.t := s'.threads[a.t]]
                                    && s'.workers == s.workers[a.t := s'.workers[a.t]])
  {
  }

  lemma CountRecordingUpdate(threads: seq<Thread>, t: nat, th: Thread)
    requires t < |threads|
    ensures CountRecording(threads[t := th])
         == CountRecording(threads) - (if threads[t].Recording? then 1 else 0)
                                    + (if th.Recording? then 1 else 0)
  {
    var n := |threads| - 1;
    if t == n {
      assert threads[t := th][..n] == threads[..n];
    } else {
      assert threads[t := th][..n] == threads[..n][t := th];
      CountRecordingUpdate(threads[..n], t, th);
    }
  }

  /** Only a pop touches the queue, and only a pop of an empty queue drains a thread. */
  lemma OwnQueue(job: Job, s: State, a: Action)
    requires Enabled(job, s, a) && !a.SetShutdown?
    ensures var s' := Next(job, s, a);
            && s'.queue == (if a.Pop? && |s.queue| > 0 then s.queue[1..] else s.queue)
            && (s'.threads[a.t] == Stopped(Drained) ==> |s.queue| == 0 || s.threads[a.t] == Stopped(Drained))
  {
  }

  lemma PopOfSuffix(job: Job, s: State)
    requires QueueIsSuffix(job, s) && |s.queue| > 0
    ensures s.queue[1..] == Enumerate(job.files)[Popped(job, s) + 1..]
  {
    assert s.queue[1..] == Enumerate(job.files)[Popped(job, s)..][1..];
  }

  /** The queue is kept or popped, and thread `t` alone may have changed. */
  lemma SuffixKept(job: Job, s: State, s': State, t: nat, pops: bool)
    requires QueueIsSuffix(job, s) && t < |s.threads| && (pops ==> |s.queue| > 0)
    requires s'.queue == if pops then s.queue[1..] else s.queue
    requires |s'.threads| == |s.threads| && forall u :: 0 <= u < |s.threads| && u != t ==> s'.threads[u] == s.threads[u]
    requires s'.threads[t] == Stopped(Drained) ==> |s.queue| == 0
    ensures QueueIsSuffix(job, s')
  {
    if pops {
      PopOfSuffix(job, s);
    }
  }

  lemma QueueStep(job: Job, s: State, a: Action)
    requires Inv(job, s) && Enabled(job, s, a)
    ensures QueueIsSuffix(job, Next(job, s, a))
  {
    if !a.SetShutdown? {
      StepFrame(job, s, a);
      OwnQueue(job, s, a);
      SuffixKept(job, s, Next(job, s, a), a.t, a.Pop? && |s.queue| > 0);
    }
  }

  lemma InStepStep(job: Job, s: State, a: Action)
    requires Inv(job, s) && Enabled(job, s, a)
    ensures AllInStep(job, Next(job, s, a))
  {
    StepFrame(job, s, a);
    if !a.SetShutdown? {
      assert InStep(job, s.threads[a.t], s.workers[a.t]);
      OwnInStep(job, s, a);
    }
  }

  lemma OwnInStep(job: Job, s: State, a: Action)
    requires Enabled(job, s, a) && !a.SetShutdown? && QueueIsSuffix(job, s)
    requires InStep(job, s.threads[a.t], s.workers[a.t])
    ensures var s' := Next(job, s, a);
            InStep(job, s'.threads[a.t], s'.workers[a.t])
  {
    if a.Pop? && |s.queue| > 0 {
      assert s.queue[0] == Enumerate(job.files)[Popped(job, s)];
    }
  }

  /** A step that leaves every thread's held index and `done` alone keeps `EachOnce`. */
  lemma SameHoldings(job: Job, s: State, s': State)
    requires EachOnce(job, s) && |s'.threads| == |s.threads|
    requires s'.done == s.done && s'.queue == s.queue
    requires forall t, i: nat :: 0 <= t < |s.threads| ==> (s'.threads[t].Holds(i) <==> s.threads[t].Holds(i))
    ensures EachOnce(job, s')
  {
    forall i: nat
      ensures InFlight(s', i) == InFlight(s, i) && Finished(s', i) == Finished(s, i)
    {
      if InFlight(s, i) {
        var t :| 0 <= t < |s.threads| && s.threads[t].Holds(i);
        assert s'.threads[t].Holds(i);
      }
    }
  }

  lemma PopHolds(job: Job, s: State, t: nat)
    requires Inv(job, s) && Enabled(job, s, Pop(t)) && |s.queue| > 0
    ensures EachOnce(job, Next(job, s, Pop(t)))
  {
    var s' := Next(job, s, Pop(t));
    var p := Popped(job, s);
    assert s.queue[0] == Enumerate(job.files)[p];
    assert s'.threads[t].Holds(p);
    forall i: nat
      ensures InFlight(s', i) <==> InFlight(s, i) || i == p
    {
      if InFlight(s, i) {
        var u :| 0 <= u < |s.threads| && s.threads[u].Holds(i);
        assert s'.threads[u].Holds(i);
      }
    }
    assert !InFlight(s, p) && !Finished(s, p);
    forall i: nat ensures Finished(s', i) == Finished(s, i) {}
    forall u, i: nat | 0 <= u < |s.threads| && s.threads[u].Holds(i) ensures i != p {
      assert InFlight(s, i);
    }
  }

  /** What recording changes: the thread lets go, and `done` grows by its file. */
  lemma RecordShape(job: Job, s: State, t: nat)
    requires Enabled(job, s, Record(t))
    ensures var s' := Next(job, s, Record(t));
            && s'.queue == s.queue && s'.workers == s.workers && s'.progress == s.progress
            && s'.done == s.done + [(s.threads[t].idx, OutcomeOf(s.threads[t].got))]
            && s'.threads == s.threads[t := if s.threads[t].got.Replied? then Polling else Respawning]
            && (match s.threads[t].got
                case Replied(reply) =>
                  s'.skipped == s.skipped
                  && s'.results == s.results + (if reply.data.Some? then
                       [(s.threads[t].idx, (reply.file, reply.data.value))] else [])
                case Broken(why) =>
                  s'.results == s.results && s'.skipped == s.skipped + [(s.threads[t].file, why)])
  {
  }

  lemma RecordFinishes(job: Job, s: State, s': State, t: nat, o: Outcome)
    requires EachOnce(job, s) && t < |s.threads| && s.threads[t].Recording?
    requires |s'.threads| == |s.threads| && s'.queue == s.queue
    requires s'.done == s.done + [(s.threads[t].idx, o)]
    requires forall i: nat :: !s'.threads[t].Holds(i)
    requires forall u :: 0 <= u < |s.threads| && u != t ==> s'.threads[u] == s.threads[u]
    ensures EachOnce(job, s')
  {
    var i0 := s.threads[t].idx;
    assert s.threads[t].Holds(i0);
    assert InFlight(s, i0) && !Finished(s, i0);
    assert s'.done[|s.done|].0 == i0;
    forall i: nat
      ensures InFlight(s', i) <==> InFlight(s, i) && i != i0
    {
      if InFlight(s, i) && i != i0 {
        var u :| 0 <= u < |s.threads| && s.threads[u].Holds(i);
        assert s'.threads[u].Holds(i);
      }
    }
    forall i: nat
      ensures Finished(s', i) <==> Finished(s, i) || i == i0
    {
      if Finished(s, i) {
        var k :| 0 <= k < |s.done| && s.done[k].0 == i;
        assert s'.done[k].0 == i;
      }
    }
  }

  lemma OnceStep(job: Job, s: State, a: Action)
    requires Inv(job, s) && Enabled(job, s, a)
    ensures EachOnce(job, Next(job, s, a))
  {
    if a.Pop? && |s.queue| > 0 {
      PopHolds(job, s, a.t);
    } else if a.Record? {
      RecordShape(job, s, a.t);
      RecordFinishes(job, s, Next(job, s, a), a.t, OutcomeOf(s.threads[a.t].got));
    } else {
      SameHoldings(job, s, Next(job, s, a));
    }
  }

  lemma BooksGrow(files: seq<string>, done: seq<(nat, Outcome)>, i: nat, o: Outcome)
    requires (forall k :: 0 <= k < |done| ==> done[k].0 < |files|) && i < |files|
    ensures AnswersOf(files, done + [(i, o)])
         == AnswersOf(files, done) + if o.Answered? then [(i, (files[i], o.data))] else []
    ensures SkipsOf(files, done + [(i, o)]) == SkipsOf(files, done) + if o.Lost? then [(files[i], o.why)] else []
  {
    assert (done + [(i, o)])[..|done|] == done;
  }

  lemma RecordBooks(job: Job, s: State, s': State, t: nat)
    requires Bookkeeping(job, s) && t < |s.threads| && s.threads[t].Recording? && t < |s.workers|
    requires InStep(job, s.threads[t], s.workers[t])
    requires s'.done == s.done + [(s.threads[t].idx, OutcomeOf(s.threads[t].got))]
    requires s'.progress == s.progress && |s'.threads| == |s.threads|
    requires s'.threads == s.threads[t := s'.threads[t]] && !s'.threads[t].Recording?
    requires match s.threads[t].got
             case Replied(reply) =>
               s'.skipped == s.skipped
               && s'.results == s.results + (if reply.data.Some? then
                    [(s.threads[t].idx, (reply.file, reply.data.value))] else [])
             case Broken(why) =>
               s'.results == s.results && s'.skipped == s.skipped + [(s.threads[t].file, why)]
    ensures Bookkeeping(job, s')
  {
    CountRecordingUpdate(s.threads, t, s'.threads[t]);
    BooksGrow(job.files, s.done, s.threads[t].idx, OutcomeOf(s.threads[t].got));
  }

  lemma BookkeepingStep(job: Job, s: State, a: Action)
    requires Inv(job, s) && Enabled(job, s, a)
    ensures Bookkeeping(job, Next(job, s, a))
  {
    if a.Record? {
      assert InStep(job, s.threads[a.t], s.workers[a.t]);
      RecordShape(job, s, a.t);
      RecordBooks(job, s, Next(job, s, a), a.t);
    } else if !a.SetShutdown? {
      var s' := Next(job, s, a);
      assert s'.threads == s.threads[a.t := s'.threads[a.t]];
      CountRecordingUpdate(s.threads, a.t, s'.threads[a.t]);
    }
  }

  lemma StepKeepsInv(job: Job, s: State, a: Action)
    requires Inv(job, s) && Enabled(job, s, a)
    ensures Inv(job, Next(job, s, a))
  {
    QueueStep(job, s, a);
    OnceStep(job, s, a);
    InStepStep(job, s, a);
    BookkeepingStep(job, s, a);
  }

  /** The invariant holds in every state any interleaving can reach. */
  lemma {:induction false} RunsKeepInv(job: Job, s: State, actions: seq<Action>, s': State)
    requires Inv(job, s) && Runs(job, s, actions, s')
    ensures Inv(job, s')
    decreases |actions|
  {
    if actions != [] {
      StepKeepsInv(job, s, actions[0]);
      RunsKeepInv(job, Next(job, s, actions[0]), actions[1..], s');
    }
  }

  ghost predicate AllStopped(s: State) {
    forall t :: 0 <= t < |s.threads| ==> s.threads[t].Stopped?
  }
}

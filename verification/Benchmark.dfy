/**
 The machine-level benchmark cache (src/global_benchmark.rs): validating the saved file,
 and the check, lock, re-check, measure, write, unlock protocol that many processes run
 over it at once.
 */
module Benchmark {
  import opened Common

  // ------------------------------------------------------------- the saved file

  datatype Resources = Resources(cpus: Option<nat>, memoryTotal: Option<nat>)

  /** `benchmark` is `None` when the parallel benchmark did not run. */
  datatype Measurement = Measurement(resources: Resources, benchmark: Option<nat>)

  datatype Saved = Saved(algorithm: nat, measuredAt: int, measurement: Measurement)

  /** The bytes on disk: absent, unreadable in one of three ways, or a table with an
      optional schema version and, when every field is there, a result. */
  datatype File = Absent | Unreadable | NotUtf8 | NotToml | Table(schema: Option<int>, saved: Option<Saved>)

  datatype Reason =
    | CannotBeRead | BadText | Malformed | WrongSchema(version: int) | NoSchema | MissingFields
    | OtherAlgorithm | CpusUnknown | DidNotRun | CpusChanged | MemoryChanged | MemoryWasUnknown

  datatype Status = Missing | Valid(saved: Saved) | Invalid(reason: Reason, parsed: Option<Saved>)

  const SCHEMA: int := 1
  const ALGORITHM: nat := 2

  function NewSaved(m: Measurement, now: int): Saved {
    Saved(ALGORITHM, now, m)
  }

  function Incomplete(saved: Saved): Option<Reason> {
    if saved.measurement.resources.cpus == None then Some(CpusUnknown)
    else if saved.measurement.benchmark == None then Some(DidNotRun)
    else None
  }

  function AbsDiff(a: nat, b: nat): nat {
    if a < b then b - a else a - b
  }

  predicate MemoryMoved(was: nat, now: nat) {
    AbsDiff(was, now) * 100 > was * 10
  }

  function Mismatch(saved: Saved, current: Resources): Option<Reason> {
    var was := saved.measurement.resources;
    if saved.algorithm != ALGORITHM then Some(OtherAlgorithm)
    else if Incomplete(saved).Some? then Incomplete(saved)
    else if was.cpus.Some? && current.cpus.Some? && was.cpus != current.cpus then Some(CpusChanged)
    else
      match (was.memoryTotal, current.memoryTotal)
      case (Some(w), Some(n)) => if MemoryMoved(w, n) then Some(MemoryChanged) else None
      case (None, Some(_)) => Some(MemoryWasUnknown)
      case _ => None
  }

  function CheckIn(file: File, current: Resources): Status {
    match file
    case Absent => Missing
    case Unreadable => Invalid(CannotBeRead, None)
    case NotUtf8 => Invalid(BadText, None)
    case NotToml => Invalid(Malformed, None)
    case Table(schema, saved) =>
      if schema == None then Invalid(NoSchema, None)
      else if schema.value != SCHEMA then Invalid(WrongSchema(schema.value), None)
      else if saved == None then Invalid(MissingFields, None)
      else
        match Mismatch(saved.value, current)
        case None => Valid(saved.value)
        case Some(reason) => Invalid(reason, saved)
  }

  predicate IsValid(file: File, current: Resources) {
    CheckIn(file, current).Valid?
  }

  function FileOf(saved: Saved): File {
    Table(Some(SCHEMA), Some(saved))
  }

  /** The benchmark probes the machine again, so its result need not describe the machine
      the caller probed. A complete result is valid for later checks if and only if its CPU
      count agrees, or is unknown to them, and its total memory is known and within the
      tolerance, or theirs is unknown. */
  predicate Fits(result: Saved, current: Resources) {
    var was := result.measurement.resources;
    (current.cpus == None || was.cpus == current.cpus)
    && (current.memoryTotal == None
        || (was.memoryTotal.Some? && !MemoryMoved(was.memoryTotal.value, current.memoryTotal.value)))
  }

  lemma ValidIffFits(m: Measurement, now: int, current: Resources)
    requires Incomplete(NewSaved(m, now)) == None
    ensures CheckIn(FileOf(NewSaved(m, now)), current) == Valid(NewSaved(m, now)) <==> Fits(NewSaved(m, now), current)
    ensures IsValid(FileOf(NewSaved(m, now)), current) <==> Fits(NewSaved(m, now), current)
  {
  }

  /** A measurement of this very machine is usable by every later check exactly when it can
      be written at all. */
  lemma WritableIffValidHere(m: Measurement, now: int, current: Resources)
    requires m.resources == current
    ensures Incomplete(NewSaved(m, now)) == None <==>
              CheckIn(FileOf(NewSaved(m, now)), current) == Valid(NewSaved(m, now))
    ensures Incomplete(NewSaved(m, now)) == None <==> IsValid(FileOf(NewSaved(m, now)), current)
  {
  }

  /** Memory may move by a tenth of the saved value either way; since the saved value is the
      yardstick, a file can be valid in one direction and not in the other. */
  lemma ToleranceIsATenthOfTheSavedValue(was: nat, now: nat)
    ensures !MemoryMoved(was, now) <==> 9 * was <= 10 * now <= 11 * was
    ensures !MemoryMoved(100, 90) && MemoryMoved(90, 100)
  {
  }

  /** A probe that fails never invalidates a file that a working probe accepts. */
  lemma FailedProbesKeepValidity(file: File, current: Resources, blind: Resources)
    requires blind.cpus == None || blind.cpus == current.cpus
    requires blind.memoryTotal == None || blind.memoryTotal == current.memoryTotal
    requires IsValid(file, current)
    ensures CheckIn(file, blind) == CheckIn(file, current)
  {
  }

  /** A file is valid exactly when it is a table of this schema with a complete result of
      this algorithm that fits. */
  lemma ValidExactly(file: File, current: Resources)
    ensures IsValid(file, current) <==>
              && file.Table? && file.schema == Some(1) && file.saved.Some?
              && var saved := file.saved.value;
                 && saved.algorithm == 2 && saved.measurement.resources.cpus.Some?
                 && saved.measurement.benchmark.Some? && Fits(saved, current)
    ensures IsValid(file, current) ==> CheckIn(file, current) == Valid(file.saved.value)
  {
  }

  // ------------------------------------------------------------------- one call

  datatype Trigger = Automatic | OnRequest | Force
  datatype Caller = Caller(enabled: bool, autoRun: bool, trigger: Trigger)

  datatype Outcome = Cached(result: Saved) | Measured(result: Saved, saved: bool) | Disabled | Skipped(status: Status)

  /** What one call does when the file is `first` at its first check and `later` once it
      has waited for the lock, which it obtains when `locks`. */
  function Ensured(first: File, later: File, c: Caller, current: Resources, locks: bool,
                   measure: Status -> Measurement, now: int, writes: bool): (File, Outcome)
  {
    var status := CheckIn(first, current);
    if !c.enabled then (first, Disabled)
    else if c.trigger != Force && status.Valid? then (first, Cached(status.saved))
    else if c.trigger == Automatic && !c.autoRun then (first, Skipped(status))
    else
      var again := if locks && c.trigger != Force then CheckIn(later, current) else status;
      if c.trigger != Force && again.Valid? then (later, Cached(again.saved))
      else
        var result := NewSaved(measure(again), now);
        var saved := Incomplete(result) == None && writes;
        (if saved then FileOf(result) else later, Measured(result, saved))
  }

  /** Undisturbed, one check decides. */
  function Undisturbed(file: File, c: Caller, current: Resources, m: Measurement, now: int, writes: bool)
      : (File, Outcome)
  {
    var status := CheckIn(file, current);
    if !c.enabled then (file, Disabled)
    else if c.trigger != Force && status.Valid? then (file, Cached(status.saved))
    else if c.trigger == Automatic && !c.autoRun then (file, Skipped(status))
    else if Incomplete(NewSaved(m, now)) == None && writes then
      (FileOf(NewSaved(m, now)), Measured(NewSaved(m, now), true))
    else (file, Measured(NewSaved(m, now), false))
  }

  class Cache {
    var file: File

    /** `write`: refused when incomplete, otherwise all or nothing. */
    method Write(result: Saved, writes: bool) returns (ok: bool)
      modifies this
      ensures ok <==> Incomplete(result) == None && writes
      ensures file == if ok then FileOf(result) else old(file)
    {
      if Incomplete(result).Some? {
        return false;
      }
      if writes {
        file := FileOf(result);
        return true;
      }
      return false;
    }

    /** `ensure_in`; `later` is what other processes make of the file during the wait. */
    method EnsureIn(c: Caller, current: Resources, locks: bool, later: File, measure: Status -> Measurement, now: int,
                    writes: bool) returns (outcome: Outcome)
      modifies this
      ensures (file, outcome) == Ensured(old(file), later, c, current, locks, measure, now, writes)
      ensures outcome.Disabled? <==> !c.enabled
      ensures outcome.Skipped? <==> c.enabled && c.trigger == Automatic && !c.autoRun && !IsValid(old(file), current)
      ensures outcome.Measured? <==>
                c.enabled && (c.trigger == Force
                              || (&& !IsValid(old(file), current) && (c.trigger == Automatic ==> c.autoRun)
                                  && !(locks && IsValid(later, current))))
      ensures outcome.Cached? ==> CheckIn(file, current) == Valid(outcome.result)
      ensures if outcome.Disabled? || outcome.Skipped? || (outcome.Cached? && IsValid(old(file), current))
              then file == old(file)
              else file == if outcome.Measured? && outcome.saved then FileOf(outcome.result) else later
      ensures outcome.Measured? ==>
                var seen := if locks && c.trigger != Force then later else old(file);
                outcome.result == NewSaved(measure(CheckIn(seen, current)), now)
                && (outcome.saved <==> writes && Incomplete(outcome.result) == None)
    {
      if !c.enabled {
        return Disabled;
      }
      var status := CheckIn(file, current);
      if c.trigger != Force {
        if status.Valid? {
          return Cached(status.saved);
        }
        if c.trigger == Automatic && !c.autoRun {
          return Skipped(status);
        }
      }
      file := later;
      if locks && c.trigger != Force {
        status := CheckIn(file, current);
        if status.Valid? {
          return Cached(status.saved);
        }
      }
      var result := NewSaved(measure(status), now);
      var saved := Write(result, writes);
      return Measured(result, saved);
    }
  }

  // ----------------------------------------------------------- many callers

  /** Where one caller is; `locked` says whether it holds the lock. */
  datatype Pc =
    | Start
    | Waiting
    | Rechecking
    | Measuring(locked: bool)
    | Writing(result: Saved, locked: bool)
    | Releasing(result: Saved, saved: bool, locked: bool)
    | Done(outcome: Outcome)
    | Crashed

  /** `measured` counts benchmarks started, of which `unguarded` by callers that force or
      whose lock failed; `written` counts files replaced, of which `unfit` by a result that
      does not describe the machine probed; `failed` counts results not saved, and `lost`
      callers that died between starting a benchmark and writing. */
  datatype State = State(
    file: File, lock: Option<nat>, pcs: seq<Pc>,
    measured: nat, unguarded: nat, written: nat, unfit: nat, failed: nat, lost: nat)

  datatype Setup = Setup(callers: seq<Caller>, current: Resources)

  datatype Action =
    | Begin(p: nat)
    | GetLock(p: nat)
    | LockFails(p: nat)
    | Recheck(p: nat)
    | Measure(p: nat, m: Measurement, now: int)
    | Write(p: nat, writes: bool)
    | Release(p: nat)
    | Crash(p: nat)

  function Initial(k: Setup, file: File): State {
    State(file, None, seq(|k.callers|, _ => Start), 0, 0, 0, 0, 0, 0)
  }

  predicate HoldsLock(pc: Pc) {
    pc.Rechecking? || ((pc.Measuring? || pc.Writing? || pc.Releasing?) && pc.locked)
  }

  predicate CanDo(k: Setup, s: State, a: Action) {
    a.p < |s.pcs| && |s.pcs| == |k.callers|
    && match a
       case Begin(p) => s.pcs[p].Start?
       case GetLock(p) => s.pcs[p].Waiting? && s.lock == None
       case LockFails(p) => s.pcs[p].Waiting?
       case Recheck(p) => s.pcs[p].Rechecking?
       case Measure(p, _, _) => s.pcs[p].Measuring?
       case Write(p, _) => s.pcs[p].Writing?
       case Release(p) => s.pcs[p].Releasing?
       case Crash(p) => !s.pcs[p].Done? && !s.pcs[p].Crashed?
  }

  function Goto(s: State, p: nat, pc: Pc): State
    requires p < |s.pcs|
  {
    s.(pcs := s.pcs[p := pc])
  }

  /** The lock is the operating system's: it goes when its holder returns or dies. */
  function Unlock(s: State, p: nat): State {
    s.(lock := if s.lock == Some(p) then None else s.lock)
  }

  function AfterBegin(k: Setup, s: State, c: Caller): Pc {
    var status := CheckIn(s.file, k.current);
    if !c.enabled then Done(Disabled)
    else if c.trigger != Force && status.Valid? then Done(Cached(status.saved))
    else if c.trigger == Automatic && !c.autoRun then Done(Skipped(status))
    else Waiting
  }

  function Do(k: Setup, s: State, a: Action): State
    requires CanDo(k, s, a)
  {
    match a
    case Begin(p) => Goto(s, p, AfterBegin(k, s, k.callers[p]))
    case GetLock(p) =>
      if k.callers[p].trigger == Force
      then Goto(s.(lock := Some(p), measured := s.measured + 1, unguarded := s.unguarded + 1), p, Measuring(true))
      else Goto(s.(lock := Some(p)), p, Rechecking)
    case LockFails(p) =>
      Goto(s.(measured := s.measured + 1, unguarded := s.unguarded + 1), p, Measuring(false))
    case Recheck(p) =>
      var status := CheckIn(s.file, k.current);
      if status.Valid? then Unlock(Goto(s, p, Done(Cached(status.saved))), p)
      else Goto(s.(measured := s.measured + 1), p, Measuring(true))
    case Measure(p, m, now) => Goto(s, p, Writing(NewSaved(m, now), s.pcs[p].locked))
    case Write(p, writes) =>
      var result := s.pcs[p].result;
      if Incomplete(result) == None && writes
      then Goto(s.(file := FileOf(result), written := s.written + 1,
                   unfit := s.unfit + if Fits(result, k.current) then 0 else 1),
                p, Releasing(result, true, s.pcs[p].locked))
      else Goto(s.(failed := s.failed + 1), p, Releasing(result, false, s.pcs[p].locked))
    case Release(p) => Unlock(Goto(s, p, Done(Measured(s.pcs[p].result, s.pcs[p].saved))), p)
    case Crash(p) =>
      Unlock(Goto(s.(lost := s.lost + if s.pcs[p].Measuring? || s.pcs[p].Writing? then 1 else 0), p, Crashed), p)
  }

  /** An action that is not possible leaves the state alone, so every sequence is a run. */
  function Step(k: Setup, s: State, a: Action): State {
    if CanDo(k, s, a) then Do(k, s, a) else s
  }

  function Run(k: Setup, s: State, actions: seq<Action>): State
    decreases |actions|
  {
    if actions == [] then s
    else Step(k, Run(k, s, actions[..|actions| - 1]), actions[|actions| - 1])
  }

  // ------------------------------------------------- a call alone is the simple call

  lemma RunOneMore(k: Setup, s: State, actions: seq<Action>, a: Action)
    ensures Run(k, s, actions + [a]) == Step(k, Run(k, s, actions), a)
  {
    assert (actions + [a])[..|actions|] == actions;
  }

  function Solo(locks: bool, m: Measurement, now: int, writes: bool): seq<Action> {
    [Begin(0)] + [if locks then GetLock(0) else LockFails(0)] + [Recheck(0)] + [Measure(0, m, now)]
    + [Action.Write(0, writes)] + [Release(0)]
  }

  /** One caller on its own: the protocol, with or without the lock, and `ensure_in` with
      nothing happening meanwhile both give what the single check says. */
  lemma SoloRunIsUndisturbed(c: Caller, current: Resources, file: File, locks: bool, measure: Status -> Measurement,
                             now: int, writes: bool)
    ensures var m := measure(CheckIn(file, current));
            var s := Run(Setup([c], current), Initial(Setup([c], current), file), Solo(locks, m, now, writes));
            var e := Undisturbed(file, c, current, m, now, writes);
            s.pcs == [Done(e.1)] && s.file == e.0 && Ensured(file, file, c, current, locks, measure, now, writes) == e
  {
    var k, m := Setup([c], current), measure(CheckIn(file, current));
    var s0 := Initial(k, file);
    var a1 := if locks then GetLock(0) else LockFails(0);
    RunOneMore(k, s0, [], Begin(0));
    assert [] + [Begin(0)] == [Begin(0)];
    RunOneMore(k, s0, [Begin(0)], a1);
    RunOneMore(k, s0, [Begin(0)] + [a1], Recheck(0));
    RunOneMore(k, s0, [Begin(0)] + [a1] + [Recheck(0)], Measure(0, m, now));
    RunOneMore(k, s0, [Begin(0)] + [a1] + [Recheck(0)] + [Measure(0, m, now)], Action.Write(0, writes));
    RunOneMore(k, s0, [Begin(0)] + [a1] + [Recheck(0)] + [Measure(0, m, now)] + [Action.Write(0, writes)], Release(0));
    SoloStates(k, s0, a1, m, now, writes);
  }

  lemma SoloStates(k: Setup, s0: State, a1: Action, m: Measurement, now: int, writes: bool)
    requires |k.callers| == 1 && s0 == Initial(k, s0.file) && (a1 == GetLock(0) || a1 == LockFails(0))
    ensures var s3 := Step(k, Step(k, Step(k, s0, Begin(0)), a1), Recheck(0));
            var s6 := Step(k, Step(k, Step(k, s3, Measure(0, m, now)), Action.Write(0, writes)), Release(0));
            var e := Undisturbed(s0.file, k.callers[0], k.current, m, now, writes);
            s6.pcs == [Done(e.1)] && s6.file == e.0
  {
    var c := k.callers[0];
    var s1 := Step(k, s0, Begin(0));
    var s3 := Step(k, Step(k, s1, a1), Recheck(0));
    assert s1.pcs == [AfterBegin(k, s0, c)];
    if s1.pcs[0].Done? {
      assert s3 == s1;
    } else {
      assert s3.pcs[0].Measuring? && s3.file == s0.file && |s3.pcs| == 1;
    }
  }

  // ------------------------------------------- every call in a crowd is one `ensure_in`

  /** What a caller has seen: the file at its first check, whether it got the lock, the file
      when it last looked, and what its benchmark and its write came to. `quiet` says that
      since then nobody else changed the file. */
  datatype View = View(first: File, later: File, locks: bool, m: Measurement, now: int, writes: bool, quiet: bool)

  function Nothing(file: File): View {
    View(file, file, false, Measurement(Resources(None, None), None), 0, false, true)
  }

  function Watch(k: Setup, s: State, a: Action, p: nat, v: View): View {
    if a.p != p then v.(quiet := v.quiet && Step(k, s, a).file == s.file)
    else if !CanDo(k, s, a) then v
    else
      match a
      case Begin(_) => v.(first := s.file, later := s.file, quiet := true)
      case GetLock(_) => v.(later := s.file, locks := true, quiet := true)
      case LockFails(_) => v.(later := s.file, locks := false, quiet := true)
      case Recheck(_) => v.(later := s.file, quiet := true)
      case Measure(_, m, now) => v.(m := m, now := now)
      case Write(_, writes) => v.(writes := writes)
      case _ => v
  }

  function ViewOf(k: Setup, file: File, actions: seq<Action>, p: nat): View
    decreases |actions|
  {
    if actions == [] then Nothing(file)
    else
      var n := |actions| - 1;
      Watch(k, Run(k, Initial(k, file), actions[..n]), actions[n], p, ViewOf(k, file, actions[..n], p))
  }

  /** The first check neither ends the call nor finds a usable result. */
  predicate GoesOn(c: Caller, current: Resources, first: File) {
    c.enabled && (c.trigger != Force ==> !IsValid(first, current)) && (c.trigger == Automatic ==> c.autoRun)
  }

  /** No usable result when last looked at; never looked again when forced or unlocked. */
  predicate LooksBad(c: Caller, current: Resources, v: View) {
    GoesOn(c, current, v.first) && (v.locks && c.trigger != Force ==> !IsValid(v.later, current))
  }

  function Ended(c: Caller, current: Resources, v: View): (File, Outcome) {
    Ensured(v.first, v.later, c, current, v.locks, _ => v.m, v.now, v.writes)
  }

  /** Where the caller is, told from what it has seen. */
  predicate Follows(c: Caller, current: Resources, file: File, pc: Pc, v: View) {
    match pc
    case Start => true
    case Waiting => GoesOn(c, current, v.first)
    case Rechecking => GoesOn(c, current, v.first) && v.locks && c.trigger != Force
    case Measuring(locked) => LooksBad(c, current, v) && (v.quiet ==> file == v.later)
    case Writing(result, _) =>
      LooksBad(c, current, v) && result == NewSaved(v.m, v.now) && (v.quiet ==> file == v.later)
    case Releasing(result, saved, _) =>
      var e := Ended(c, current, v);
      e.1 == Measured(result, saved) && (v.quiet ==> file == e.0)
    case Done(outcome) =>
      var e := Ended(c, current, v);
      e.1 == outcome && (v.quiet ==> file == e.0)
    case Crashed => true
  }

  lemma OthersLeaveIt(k: Setup, s: State, a: Action, p: nat)
    requires p < |s.pcs| && a.p != p
    ensures |Step(k, s, a).pcs| == |s.pcs| && Step(k, s, a).pcs[p] == s.pcs[p]
  {
  }

  lemma OwnStepFollows(k: Setup, s: State, a: Action, v: View)
    requires CanDo(k, s, a) && Follows(k.callers[a.p], k.current, s.file, s.pcs[a.p], v)
    ensures var t := Do(k, s, a);
            |t.pcs| == |s.pcs|
            && Follows(k.callers[a.p], k.current, t.file, t.pcs[a.p], Watch(k, s, a, a.p, v))
  {
  }

  lemma StepFollows(k: Setup, s: State, a: Action, p: nat, v: View)
    requires |s.pcs| == |k.callers| && p < |s.pcs| && Follows(k.callers[p], k.current, s.file, s.pcs[p], v)
    ensures var t := Step(k, s, a);
            |t.pcs| == |s.pcs|
            && Follows(k.callers[p], k.current, t.file, t.pcs[p], Watch(k, s, a, p, v))
  {
    if a.p != p {
      OthersLeaveIt(k, s, a, p);
    } else if CanDo(k, s, a) {
      OwnStepFollows(k, s, a, v);
    }
  }

  lemma {:induction false} CallersFollow(k: Setup, file: File, actions: seq<Action>, p: nat)
    requires p < |k.callers|
    ensures var s, v := Run(k, Initial(k, file), actions), ViewOf(k, file, actions, p);
            |s.pcs| == |k.callers| && Follows(k.callers[p], k.current, s.file, s.pcs[p], v)
    decreases |actions|
  {
    if actions != [] {
      var n := |actions| - 1;
      CallersFollow(k, file, actions[..n], p);
      StepFollows(k, Run(k, Initial(k, file), actions[..n]), actions[n], p, ViewOf(k, file, actions[..n], p));
    }
  }

  /** In every interleaving a caller that is done has the outcome of `ensure_in` for the two
      files it looked at; and if nobody else changed the file since, it is the one
      `ensure_in` leaves. */
  lemma EveryCallIsEnsureIn(k: Setup, file: File, actions: seq<Action>, p: nat)
    requires p < |k.callers|
    ensures var s, v := Run(k, Initial(k, file), actions), ViewOf(k, file, actions, p);
            |s.pcs| == |k.callers|
            && (s.pcs[p].Done? ==>
                  var e := Ensured(v.first, v.later, k.callers[p], k.current, v.locks, _ => v.m, v.now, v.writes);
                  s.pcs[p].outcome == e.1 && (v.quiet ==> s.file == e.0))
  {
    CallersFollow(k, file, actions, p);
  }

  // ------------------------------------------------ how often, whoever calls and fails

  predicate Exclusive(s: State) {
    (s.lock.Some? ==> s.lock.value < |s.pcs|)
    && forall p :: 0 <= p < |s.pcs| ==> (HoldsLock(s.pcs[p]) <==> s.lock == Some(p))
  }

  function Busy(pc: Pc): int {
    if pc.Measuring? || pc.Writing? then 1 else 0
  }

  /** The holder of the lock runs a benchmark that its own re-check called for. */
  predicate Guarded(k: Setup, s: State)
    requires |s.pcs| == |k.callers| && (s.lock.Some? ==> s.lock.value < |s.pcs|)
  {
    s.lock.Some? && Busy(s.pcs[s.lock.value]) == 1 && k.callers[s.lock.value].trigger != Force
  }

  function Settled(k: Setup, file: File): nat {
    if IsValid(file, k.current) then 1 else 0
  }

  predicate Plausible(k: Setup, s: State) {
    |s.pcs| == |k.callers| && Exclusive(s)
    && (forall p :: 0 <= p < |s.pcs| && s.pcs[p].Rechecking? ==> k.callers[p].trigger != Force)
    && (forall p :: 0 <= p < |s.pcs| && s.pcs[p].Writing? ==> s.pcs[p].result.algorithm == ALGORITHM)
  }

  /** Every guarded benchmark is paid for: by a failed, lost or unfit result, or by the file
      that is now valid, or it is still running. */
  predicate PaidFor(k: Setup, first: File, s: State) {
    Plausible(k, s)
    && s.measured - s.unguarded + Settled(k, first)
       <= s.failed + s.lost + s.unfit + if IsValid(s.file, k.current) || Guarded(k, s) then 1 else 0
  }

  lemma StepKeepsPlausible(k: Setup, s: State, a: Action)
    requires Plausible(k, s)
    ensures Plausible(k, Step(k, s, a))
  {
    if CanDo(k, s, a) {
      assert HoldsLock(s.pcs[a.p]) <==> s.lock == Some(a.p);
      OwnMove(k, s, a);
      var t := Do(k, s, a);
      forall q | 0 <= q < |t.pcs|
        ensures HoldsLock(t.pcs[q]) <==> t.lock == Some(q)
        ensures t.pcs[q].Rechecking? ==> k.callers[q].trigger != Force
        ensures t.pcs[q].Writing? ==> t.pcs[q].result.algorithm == ALGORITHM
      {
        if q != a.p {
          assert t.pcs[q] == s.pcs[q] && (HoldsLock(s.pcs[q]) <==> s.lock == Some(q));
        }
      }
    }
  }

  /** What a step does to the caller that takes it and to the lock. */
  lemma OwnMove(k: Setup, s: State, a: Action)
    requires CanDo(k, s, a) && (HoldsLock(s.pcs[a.p]) <==> s.lock == Some(a.p))
    requires s.pcs[a.p].Writing? ==> s.pcs[a.p].result.algorithm == ALGORITHM
    ensures var t, p := Do(k, s, a), a.p;
            && |t.pcs| == |s.pcs| && (forall q :: 0 <= q < |s.pcs| && q != p ==> t.pcs[q] == s.pcs[q])
            && (if HoldsLock(t.pcs[p]) then t.lock == Some(p) && (s.lock == None || s.lock == Some(p))
                else t.lock == if s.lock == Some(p) then None else s.lock)
            && (t.pcs[p].Rechecking? ==> k.callers[p].trigger != Force)
            && (t.pcs[p].Writing? ==> t.pcs[p].result.algorithm == ALGORITHM)
  {
  }

  lemma StepKeepsPaidFor(k: Setup, first: File, s: State, a: Action)
    requires PaidFor(k, first, s)
    ensures PaidFor(k, first, Step(k, s, a))
  {
    StepKeepsPlausible(k, s, a);
    if CanDo(k, s, a) {
      assert HoldsLock(s.pcs[a.p]) <==> s.lock == Some(a.p);
      if a.Write? && Incomplete(s.pcs[a.p].result) == None && a.writes {
        var result := s.pcs[a.p].result;
        assert result == NewSaved(result.measurement, result.measuredAt);
        ValidIffFits(result.measurement, result.measuredAt, k.current);
      }
    }
  }

  /** In every interleaving, whoever forces, whatever lock, write or caller fails and
      whatever is measured: benchmarks start at most once more than there are forced or
      unlocked starts and failed, lost or unfit results; and not even once more over a file
      that was valid at first. */
  lemma {:induction false} StartsAreBounded(k: Setup, file: File, actions: seq<Action>)
    ensures var s := Run(k, Initial(k, file), actions);
            PaidFor(k, file, s)
            && s.measured <= s.unguarded + s.failed + s.lost + s.unfit + 1 - Settled(k, file)
    decreases |actions|
  {
    if actions != [] {
      var n := |actions| - 1;
      StartsAreBounded(k, file, actions[..n]);
      StepKeepsPaidFor(k, file, Run(k, Initial(k, file), actions[..n]), actions[n]);
    }
  }

  // ---------------------------------------------------- once, when nobody forces

  /** What a caller's position says about the file and the faults so far. */
  predicate Honest(k: Setup, file: File, faults: nat, pc: Pc) {
    match pc
    case Measuring(locked) => locked && !IsValid(file, k.current)
    case Writing(result, locked) => locked && !IsValid(file, k.current) && result.algorithm == ALGORITHM
    case Releasing(result, saved, locked) =>
      locked && (faults > 0 || (saved && CheckIn(file, k.current) == Valid(result)))
    case Done(outcome) => Kept(k, file, faults, outcome)
    case _ => true
  }

  predicate Kept(k: Setup, file: File, faults: nat, outcome: Outcome) {
    match outcome
    case Cached(result) => CheckIn(file, k.current) == Valid(result)
    case Measured(result, saved) => faults > 0 || (saved && CheckIn(file, k.current) == Valid(result))
    case _ => true
  }

  function Pending(s: State): nat
    requires s.lock.Some? ==> s.lock.value < |s.pcs|
  {
    if s.lock.Some? && (s.pcs[s.lock.value].Measuring? || s.pcs[s.lock.value].Writing?) then 1 else 0
  }

  function Faults(s: State): nat {
    s.failed + s.unfit
  }

  predicate Once(k: Setup, first: File, s: State) {
    |s.pcs| == |k.callers| && Exclusive(s)
    && (forall p :: 0 <= p < |s.pcs| ==> Honest(k, s.file, Faults(s), s.pcs[p]))
    && (s.written == s.unfit || s.written == s.unfit + 1)
    && (s.written == 0 ==> s.file == first)
    && (s.written > 0 ==> !IsValid(first, k.current) && (IsValid(s.file, k.current) <==> s.written == s.unfit + 1))
    && s.measured == s.written + s.failed + s.lost + Pending(s)
  }

  predicate Unforced(k: Setup) {
    forall c :: c in k.callers ==> c.trigger != Force
  }

  /** Every step but a failed lock keeps the protocol's invariant. */
  lemma StepKeepsOnce(k: Setup, first: File, s: State, a: Action)
    requires Once(k, first, s) && Unforced(k) && !a.LockFails?
    ensures Once(k, first, Step(k, s, a))
  {
    if CanDo(k, s, a) {
      assert Honest(k, s.file, Faults(s), s.pcs[a.p]);
      if a.Write? && Incomplete(s.pcs[a.p].result) == None && a.writes {
        WriteKeepsOnce(k, first, s, a.p);
      } else {
        assert k.callers[a.p] in k.callers;
        MoveKeepsOnce(k, first, s, Do(k, s, a), a.p);
      }
    }
  }

  /** A step of one caller that leaves the file alone. */
  lemma MoveKeepsOnce(k: Setup, first: File, s: State, t: State, p: nat)
    requires Once(k, first, s) && p < |s.pcs| && t.file == s.file && t.written == s.written && t.failed >= s.failed
    requires t.unfit == s.unfit
    requires |t.pcs| == |s.pcs| && forall q :: 0 <= q < |s.pcs| && q != p ==> t.pcs[q] == s.pcs[q]
    requires Honest(k, t.file, Faults(t), t.pcs[p])
    requires if HoldsLock(t.pcs[p]) then t.lock == Some(p) && (s.lock == None || s.lock == Some(p))
             else t.lock == (if s.lock == Some(p) then None else s.lock)
    requires t.measured - s.measured == t.failed - s.failed + t.lost - s.lost + Busy(t.pcs[p]) - Busy(s.pcs[p])
    ensures Once(k, first, t)
  {
    forall q | 0 <= q < |t.pcs|
      ensures Honest(k, t.file, Faults(t), t.pcs[q]) && (HoldsLock(t.pcs[q]) <==> t.lock == Some(q))
    {
      if q != p {
        assert t.pcs[q] == s.pcs[q] && Honest(k, s.file, Faults(s), s.pcs[q]);
      }
    }
    assert Honest(k, s.file, Faults(s), s.pcs[p]);
    assert HoldsLock(s.pcs[p]) <==> s.lock == Some(p);
  }

  lemma WriteKeepsOnce(k: Setup, first: File, s: State, p: nat)
    requires Once(k, first, s) && p < |s.pcs| && s.pcs[p].Writing? && Incomplete(s.pcs[p].result) == None
    ensures Once(k, first, Do(k, s, Action.Write(p, true)))
  {
    var result := s.pcs[p].result;
    var t := Do(k, s, Action.Write(p, true));
    assert Honest(k, s.file, Faults(s), s.pcs[p]);
    assert result == NewSaved(result.measurement, result.measuredAt);
    ValidIffFits(result.measurement, result.measuredAt, k.current);
    forall q | 0 <= q < |t.pcs|
      ensures Honest(k, t.file, Faults(t), t.pcs[q]) && (HoldsLock(t.pcs[q]) <==> t.lock == Some(q))
    {
      if q != p {
        assert Honest(k, s.file, Faults(s), s.pcs[q]) && (HoldsLock(s.pcs[q]) <==> s.lock == Some(q));
      }
    }
  }

  predicate Orderly(k: Setup, actions: seq<Action>) {
    Unforced(k) && forall i :: 0 <= i < |actions| ==> !actions[i].LockFails?
  }

  lemma {:induction false} EveryOrderlyRunIsOnce(k: Setup, file: File, actions: seq<Action>)
    requires Orderly(k, actions)
    ensures Once(k, file, Run(k, Initial(k, file), actions))
    decreases |actions|
  {
    if actions != [] {
      var n := |actions| - 1;
      EveryOrderlyRunIsOnce(k, file, actions[..n]);
      StepKeepsOnce(k, file, Run(k, Initial(k, file), actions[..n]), actions[n]);
    }
  }

  /** The result a caller has returned, if it returned one. */
  function Returned(pc: Pc): Option<Saved> {
    if pc.Done? && (pc.outcome.Cached? || pc.outcome.Measured?) then Some(pc.outcome.result) else None
  }

  /** When nobody forces and locks are obtained, in every interleaving and whatever is
      measured: a benchmark starts at most once more than results are unfit, fail to be
      saved or die with their caller, and never over a valid file; and unless a result was
      unfit or not saved, all callers that return a result return the same one, which the
      file holds. */
  lemma MeasuresAtMostOnce(k: Setup, file: File, actions: seq<Action>, p: nat, q: nat)
    requires Orderly(k, actions)
    ensures var s := Run(k, Initial(k, file), actions);
            s.measured <= 1 + s.failed + s.lost + s.unfit && s.written <= 1 + s.unfit
            && (IsValid(file, k.current) ==> s.measured == 0 && s.file == file)
    ensures var s := Run(k, Initial(k, file), actions);
            Faults(s) == 0 && p < |s.pcs| && q < |s.pcs| && Returned(s.pcs[p]).Some? ==>
              CheckIn(s.file, k.current) == Valid(Returned(s.pcs[p]).value)
              && (Returned(s.pcs[q]).Some? ==> Returned(s.pcs[q]) == Returned(s.pcs[p]))
              && (s.lost == 0 && !IsValid(file, k.current) ==> s.measured == 1)
  {
    EveryOrderlyRunIsOnce(k, file, actions);
    var s := Run(k, Initial(k, file), actions);
    if s.lock.Some? {
      assert Honest(k, s.file, Faults(s), s.pcs[s.lock.value]);
    }
    ValidMeansNoFailures(k, file, actions);
    if p < |s.pcs| { assert Honest(k, s.file, Faults(s), s.pcs[p]); }
    if q < |s.pcs| { assert Honest(k, s.file, Faults(s), s.pcs[q]); }
  }

  /** Over a valid file nothing is ever measured. */
  predicate Quiet(k: Setup, first: File, s: State) {
    s.file == first && s.measured == 0
    && forall p :: 0 <= p < |s.pcs| ==> !s.pcs[p].Measuring? && !s.pcs[p].Writing? && !s.pcs[p].Releasing?
  }

  lemma StepKeepsQuiet(k: Setup, first: File, s: State, a: Action)
    requires IsValid(first, k.current) && Unforced(k) && Quiet(k, first, s) && !a.LockFails?
    ensures Quiet(k, first, Step(k, s, a))
  {
    if CanDo(k, s, a) {
      assert k.callers[a.p] in k.callers;
    }
  }

  lemma {:induction false} ValidMeansNoFailures(k: Setup, file: File, actions: seq<Action>)
    requires Orderly(k, actions)
    ensures IsValid(file, k.current) ==> Quiet(k, file, Run(k, Initial(k, file), actions))
    decreases |actions|
  {
    if actions != [] && IsValid(file, k.current) {
      var n := |actions| - 1;
      ValidMeansNoFailures(k, file, actions[..n]);
      StepKeepsQuiet(k, file, Run(k, Initial(k, file), actions[..n]), actions[n]);
    }
  }

  // --------------------------------------------- validity, whoever calls and fails

  /** A step that replaces the file makes it valid if and only if the result written fits;
      no step removes it. */
  lemma WritesDecideValidity(k: Setup, s: State, a: Action)
    requires Plausible(k, s)
    ensures var t := Step(k, s, a);
            && (t.written == s.written ==> t.file == s.file && t.unfit == s.unfit)
            && (t.written > s.written ==>
                  t.file.Table? && (IsValid(t.file, k.current) <==> t.unfit == s.unfit)
                  && (t.unfit == s.unfit <==> Fits(s.pcs[a.p].result, k.current)))
  {
    if CanDo(k, s, a) && a.Write? {
      var result := s.pcs[a.p].result;
      assert result == NewSaved(result.measurement, result.measuredAt);
      if Incomplete(result) == None {
        ValidIffFits(result.measurement, result.measuredAt, k.current);
      }
    }
  }

  lemma {:induction false} UnfitOnlyGrows(k: Setup, file: File, actions: seq<Action>, i: nat)
    requires i <= |actions|
    ensures Run(k, Initial(k, file), actions[..i]).unfit <= Run(k, Initial(k, file), actions).unfit
    decreases |actions|
  {
    if i == |actions| {
      assert actions[..i] == actions;
    } else {
      var n := |actions| - 1;
      assert actions[..n][..i] == actions[..i];
      UnfitOnlyGrows(k, file, actions[..n], i);
    }
  }

  ghost predicate ValidThroughout(k: Setup, file: File, actions: seq<Action>) {
    forall i :: 0 <= i <= |actions| ==> IsValid(Run(k, Initial(k, file), actions[..i]).file, k.current)
  }

  lemma ValidityStep(k: Setup, s: State, a: Action)
    requires Plausible(k, s)
    ensures IsValid(s.file, k.current) ==> (IsValid(Step(k, s, a).file, k.current) <==> Step(k, s, a).unfit == s.unfit)
    ensures s.unfit <= Step(k, s, a).unfit
  {
    WritesDecideValidity(k, s, a);
  }

  /** With forced callers, failing locks, refused or failed writes and crashes too, a valid
      file stays valid throughout if and only if no result is written that does not fit. */
  lemma {:induction false} AValidFileStaysValidIff(k: Setup, file: File, actions: seq<Action>)
    requires IsValid(file, k.current)
    ensures ValidThroughout(k, file, actions) <==> Run(k, Initial(k, file), actions).unfit == 0
    decreases |actions|
  {
    if actions == [] {
      assert forall i :: 0 <= i <= |actions| ==> actions[..i] == [];
    } else {
      var n := |actions| - 1;
      AValidFileStaysValidIff(k, file, actions[..n]);
      ThroughoutOneMore(k, file, actions);
      StartsAreBounded(k, file, actions[..n]);
      var s := Run(k, Initial(k, file), actions[..n]);
      ValidityStep(k, s, actions[n]);
      if ValidThroughout(k, file, actions[..n]) {
        assert actions[..n][..n] == actions[..n];
        assert IsValid(Run(k, Initial(k, file), actions[..n][..n]).file, k.current);
      }
    }
  }

  lemma ThroughoutOneMore(k: Setup, file: File, actions: seq<Action>)
    requires actions != []
    ensures ValidThroughout(k, file, actions) <==>
            ValidThroughout(k, file, actions[..|actions| - 1])
            && IsValid(Run(k, Initial(k, file), actions).file, k.current)
  {
    var n := |actions| - 1;
    assert forall i :: 0 <= i <= n ==> actions[..n][..i] == actions[..i];
    assert actions[..n + 1] == actions;
    if ValidThroughout(k, file, actions) {
      assert IsValid(Run(k, Initial(k, file), actions[..n + 1]).file, k.current);
      forall i | 0 <= i <= n ensures IsValid(Run(k, Initial(k, file), actions[..n][..i]).file, k.current) {
        assert IsValid(Run(k, Initial(k, file), actions[..i]).file, k.current);
      }
    }
    if ValidThroughout(k, file, actions[..n]) && IsValid(Run(k, Initial(k, file), actions).file, k.current) {
      forall i | 0 <= i <= n + 1 ensures IsValid(Run(k, Initial(k, file), actions[..i]).file, k.current) {
        if i <= n {
          assert IsValid(Run(k, Initial(k, file), actions[..n][..i]).file, k.current);
        }
      }
    }
  }

  /** And whatever was there before, the file is untouched, replaced by an unfit result, or
      valid. */
  lemma {:induction false} FilesEndWell(k: Setup, file: File, actions: seq<Action>, i: nat)
    requires i <= |actions|
    ensures var before, after := Run(k, Initial(k, file), actions[..i]), Run(k, Initial(k, file), actions);
            (after.unfit == before.unfit ==> after.file == before.file || IsValid(after.file, k.current))
            && (after.file == before.file || after.file.Table?)
    decreases |actions|
  {
    if i == |actions| {
      assert actions[..i] == actions;
    } else {
      var n := |actions| - 1;
      assert actions[..n][..i] == actions[..i];
      FilesEndWell(k, file, actions[..n], i);
      UnfitOnlyGrows(k, file, actions[..n], i);
      StartsAreBounded(k, file, actions[..n]);
      WritesDecideValidity(k, Run(k, Initial(k, file), actions[..n]), actions[n]);
    }
  }

  lemma FourSteps(k: Setup, s: State, a: Action, b: Action, c: Action, d: Action)
    ensures Run(k, s, [a, b, c, d]) == Step(k, Step(k, Step(k, Step(k, s, a), b), c), d)
  {
    RunOneMore(k, s, [], a);
    RunOneMore(k, s, [a], b);
    RunOneMore(k, s, [a, b], c);
    RunOneMore(k, s, [a, b, c], d);
    assert [] + [a] == [a] && [a] + [b] == [a, b] && [a, b] + [c] == [a, b, c] && [a, b, c] + [d] == [a, b, c, d];
  }

  /** A forced benchmark whose own probe does not learn the total memory: its complete result
      replaces a valid file and is not valid itself. */
  lemma UnknownMemoryBreaksAFile(current: Resources, saved: Saved)
    requires current.cpus.Some? && current.memoryTotal.Some? && IsValid(FileOf(saved), current)
    ensures var k := Setup([Caller(true, true, Force)], current);
            var m := Measurement(Resources(current.cpus, None), Some(0));
            var run := [Begin(0), GetLock(0), Measure(0, m, 0), Action.Write(0, true)];
            !IsValid(Run(k, Initial(k, FileOf(saved)), run).file, current)
  {
    var k := Setup([Caller(true, true, Force)], current);
    var m := Measurement(Resources(current.cpus, None), Some(0));
    FourSteps(k, Initial(k, FileOf(saved)), Begin(0), GetLock(0), Measure(0, m, 0), Action.Write(0, true));
    ValidIffFits(m, 0, current);
  }

  /** Without the lock the promise does not hold: two callers whose locks fail both
      measure. */
  lemma FailedLocksMeasureTwice(current: Resources)
    ensures var c := Caller(true, true, OnRequest);
            var k := Setup([c, c], current);
            Run(k, Initial(k, Absent), [Begin(0), Begin(1), LockFails(0), LockFails(1)]).measured == 2
  {
    var c := Caller(true, true, OnRequest);
    var k := Setup([c, c], current);
    FourSteps(k, Initial(k, Absent), Begin(0), Begin(1), LockFails(0), LockFails(1));
  }
}

/**
 The cancellation gate (src/cancel.rs): a flag and a notifier holding at most one permit.
 `request` is two steps, a store and a notification, that any number of requesters
 interleave with one waiter's check-then-park loop and with `reset`.
 */
module CancelGate {

  /** The waiter in `cancelled`: about to check the flag, past a clear check, parked on the
      notifier, or returned. */
  datatype Waiter = Checking | Waiting | Parked | Returned

  /** `owing` counts requesters between their store and their notification. */
  datatype State = State(flag: bool, permit: bool, owing: nat, waiter: Waiter)

  datatype Action = Store | Notify | Check | Await | Reset

  const START := State(false, false, 0, Checking)

  predicate Enabled(s: State, a: Action) {
    match a
    case Notify => s.owing > 0
    case Check => s.waiter == Checking
    case Await => s.waiter == Waiting
    case _ => true
  }

  function Next(s: State, a: Action): State
    requires Enabled(s, a)
  {
    match a
    case Store => s.(flag := true, owing := s.owing + 1)
    case Notify =>
      if s.waiter == Parked then s.(owing := s.owing - 1, waiter := Checking)
      else s.(owing := s.owing - 1, permit := true)
    case Check => s.(waiter := if s.flag then Returned else Waiting)
    case Await => if s.permit then s.(permit := false, waiter := Checking) else s.(waiter := Parked)
    case Reset => s.(flag := false)
  }

  /** The gate as the process sees it: a static flag and a notifier, changed in place. */
  class Gate {
    var flag: bool
    var permit: bool
    ghost var owing: nat
    var waiter: Waiter

    ghost function View(): State
      reads this
    {
      State(flag, permit, owing, waiter)
    }

    constructor ()
      ensures View() == START
    {
      flag, permit, owing, waiter := false, false, 0, Checking;
    }

    method StoreFlag()
      modifies this
      ensures View() == Next(old(View()), Store)
    {
      flag := true;
      owing := owing + 1;
    }

    method NotifyOne()
      requires Enabled(View(), Notify)
      modifies this
      ensures View() == Next(old(View()), Notify)
    {
      owing := owing - 1;
      if waiter == Parked {
        waiter := Checking;
      } else {
        permit := true;
      }
    }

    /** `request`, with nothing in between its two steps. */
    method Request()
      modifies this
      ensures Possible(old(View()), [Store, Notify]) && View() == Run(old(View()), [Store, Notify])
    {
      assert [Store, Notify][1..] == [Notify] && [Notify][1..] == [];
      StoreFlag();
      NotifyOne();
    }

    method IsRequested() returns (set_: bool)
      ensures set_ == flag
    {
      set_ := flag;
    }

    method CheckFlag()
      requires Enabled(View(), Check)
      modifies this
      ensures View() == Next(old(View()), Check)
    {
      var requested := IsRequested();
      waiter := if requested then Returned else Waiting;
    }

    method AwaitNotified()
      requires Enabled(View(), Await)
      modifies this
      ensures View() == Next(old(View()), Await)
    {
      if permit {
        permit, waiter := false, Checking;
      } else {
        waiter := Parked;
      }
    }

    method ResetFlag()
      modifies this
      ensures View() == Next(old(View()), Reset)
    {
      flag := false;
    }

    /** Each step of the gate is one transition. */
    method Perform(a: Action)
      requires Enabled(View(), a)
      modifies this
      ensures View() == Next(old(View()), a)
    {
      match a
      case Store => StoreFlag();
      case Notify => NotifyOne();
      case Check => CheckFlag();
      case Await => AwaitNotified();
      case Reset => ResetFlag();
    }

    /** The gate driven through an interleaving ends where the transitions do. */
    method Drive(actions: seq<Action>)
      requires Possible(View(), actions)
      modifies this
      ensures View() == Run(old(View()), actions)
    {
      assert actions[0..] == actions;
      for i := 0 to |actions|
        invariant Possible(View(), actions[i..]) && Run(View(), actions[i..]) == Run(old(View()), actions)
      {
        assert actions[i..][0] == actions[i] && actions[i..][1..] == actions[i + 1..];
        Perform(actions[i]);
      }
    }
  }

  // ---------------------------------------------------------- interleavings

  predicate Possible(s: State, actions: seq<Action>)
    decreases |actions|
  {
    actions == [] || (Enabled(s, actions[0]) && Possible(Next(s, actions[0]), actions[1..]))
  }

  function Run(s: State, actions: seq<Action>): State
    requires Possible(s, actions)
    decreases |actions|
  {
    if actions == [] then s else Run(Next(s, actions[0]), actions[1..])
  }

  predicate NoWakeUpLost(s: State) {
    && (s.flag && s.waiter in {Waiting, Parked} ==> s.permit || s.owing > 0)
    && (s.waiter == Parked ==> !s.permit)
  }

  lemma {:induction false} RunsKeepWakeUps(s: State, actions: seq<Action>)
    requires NoWakeUpLost(s) && Possible(s, actions)
    ensures NoWakeUpLost(Run(s, actions))
    decreases |actions|
  {
    if actions != [] {
      RunsKeepWakeUps(Next(s, actions[0]), actions[1..]);
    }
  }

  /** In every interleaving: a waiter past its check with the flag set has a permit stored
      or a requester still owing one; parked, it is the latter. */
  lemma NoLostWakeUps(actions: seq<Action>)
    requires Possible(START, actions)
    ensures var s := Run(START, actions);
            && (s.flag && s.waiter == Waiting ==> s.permit || s.owing > 0)
            && (s.flag && s.waiter == Parked ==> s.owing > 0)
  {
    RunsKeepWakeUps(START, actions);
  }

  /** What is left to do once a flag is set: the owed notifications, then the waiter. */
  function Finish(s: State): seq<Action>
    decreases s.owing
  {
    if s.owing > 0 then [Notify] + Finish(Next(s, Notify))
    else
      match s.waiter
      case Checking => [Check]
      case Waiting => [Await, Check]
      case _ => []
  }

  lemma {:induction false} FinishReturns(s: State)
    requires NoWakeUpLost(s) && s.flag
    ensures Possible(s, Finish(s)) && Run(s, Finish(s)).waiter == Returned
    decreases s.owing
  {
    if s.owing > 0 {
      FinishReturns(Next(s, Notify));
      assert Finish(s)[1..] == Finish(Next(s, Notify));
    } else if s.waiter == Waiting {
      assert [Await, Check][1..] == [Check] && [Check][1..] == [];
      assert Next(s, Await).waiter == Checking;
    } else if s.waiter == Checking {
      assert [Check][1..] == [];
    }
  }

  /** Whatever happened before, once the flag is set and nobody resets it, the owed
      notifications and the waiter's own steps make `cancelled` return. */
  lemma SetFlagIsAlwaysSeen(actions: seq<Action>)
    requires Possible(START, actions) && Run(START, actions).flag
    ensures var s := Run(START, actions);
            Possible(s, Finish(s)) && Run(s, Finish(s)).waiter == Returned
            && Store !in Finish(s) && Reset !in Finish(s)
  {
    RunsKeepWakeUps(START, actions);
    FinishReturns(Run(START, actions));
    FinishOnlyDelivers(Run(START, actions));
  }

  lemma FinishOnlyDelivers(s: State)
    ensures Store !in Finish(s) && Reset !in Finish(s)
    decreases s.owing
  {
    if s.owing > 0 {
      FinishOnlyDelivers(Next(s, Notify));
    }
  }

  /** The last store or reset before position `n` was a store. */
  predicate RequestStands(actions: seq<Action>, n: nat)
    requires n <= |actions|
  {
    n > 0 && (actions[n - 1] == Store || (actions[n - 1] != Reset && RequestStands(actions, n - 1)))
  }

  lemma PossiblePrefix(s: State, actions: seq<Action>, n: nat)
    requires n <= |actions| && Possible(s, actions)
    ensures Possible(s, actions[..n])
    ensures n < |actions| ==> Enabled(Run(s, actions[..n]), actions[n])
                              && Possible(s, actions[..n + 1])
                              && Run(s, actions[..n + 1]) == Next(Run(s, actions[..n]), actions[n])
    decreases n
  {
    if n > 0 {
      PossiblePrefix(Next(s, actions[0]), actions[1..], n - 1);
      assert actions[..n][1..] == actions[1..][..n - 1];
      if n < |actions| {
        assert actions[..n + 1][1..] == actions[1..][..n];
      }
    } else if n < |actions| {
      assert actions[..1][1..] == [];
    }
  }

  lemma {:induction false} FlagFollowsRequests(actions: seq<Action>, n: nat)
    requires n <= |actions| && Possible(START, actions) && Possible(START, actions[..n])
    ensures Run(START, actions[..n]).flag <==> RequestStands(actions, n)
    decreases n
  {
    if n > 0 {
      PossiblePrefix(START, actions, n - 1);
      FlagFollowsRequests(actions, n - 1);
    }
  }

  /** `cancelled` returns only at a check made while a request stands, so a permit that
      outlived a reset can wake it but never end it. */
  lemma {:induction false} NoFalseReturn(actions: seq<Action>)
    requires Possible(START, actions) && Run(START, actions).waiter == Returned
    ensures exists n :: 0 <= n < |actions| && actions[n] == Check && RequestStands(actions, n)
    decreases |actions|
  {
    var m := |actions| - 1;
    if actions != [] {
      PossiblePrefix(START, actions, m);
      assert actions[..m + 1] == actions;
      var before := Run(START, actions[..m]);
      if before.waiter == Returned {
        NoFalseReturn(actions[..m]);
        var n :| 0 <= n < m && actions[..m][n] == Check && RequestStands(actions[..m], n);
        RequestStandsInPrefix(actions, m, n);
        assert actions[n] == Check;
      } else {
        FlagFollowsRequests(actions, m);
        assert actions[m] == Check;
      }
    }
  }

  lemma RequestStandsInPrefix(actions: seq<Action>, m: nat, n: nat)
    requires n <= m <= |actions|
    ensures RequestStands(actions[..m], n) == RequestStands(actions, n)
  {
  }
}

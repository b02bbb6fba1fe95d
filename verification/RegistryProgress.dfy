/** Progress of the registry: every operation is four atomic steps away from its end at most, and
    only a test_and_set that finds the flag set makes no progress. */
module RegistryProgress {
  import opened Registry
  import opened RegistryLaws

  /** The steps that a thread's operation still has to take. */
  function Remaining(pc: Pc): nat {
    match pc
    case Idle => 0
    case Spinning(_) => 4
    case Updating(_, _) => 3
    case Unlocking(_, _) => 2
    case Writing(_, _) => 1
  }

  function Total(threads: seq<Pc>): nat {
    if threads == [] then 0 else Remaining(threads[0]) + Total(threads[1..])
  }

  lemma {:induction false} TotalUpdate(threads: seq<Pc>, t: nat, pc: Pc)
    requires t < |threads|
    ensures Total(threads[t := pc]) == Total(threads) - Remaining(threads[t]) + Remaining(pc)
  {
    if t == 0 {
      assert threads[t := pc][1..] == threads[1..];
    } else {
      assert threads[t := pc][1..] == threads[1..][t - 1 := pc];
      TotalUpdate(threads[1..], t - 1, pc);
    }
  }

  lemma {:induction false} TotalZero(threads: seq<Pc>)
    ensures Total(threads) == 0 <==> forall i | 0 <= i < |threads| :: threads[i].Idle?
  {
    if threads != [] {
      TotalZero(threads[1..]);
      assert forall i | 0 < i < |threads| :: threads[i] == threads[1..][i - 1];
      assert forall i | 0 <= i < |threads| - 1 :: threads[1..][i] == threads[i + 1];
    }
  }

  predicate Accepted(s: State, e: Event) { e.Call? && e.thread < |s.threads| && s.threads[e.thread].Idle? }

  /** A step that is not just another turn of a spin loop, and not a step of an idle thread. */
  predicate Effective(s: State, e: Event) {
    && e.Step? && e.thread < |s.threads|
    && !s.threads[e.thread].Idle?
    && !(s.threads[e.thread].Spinning? && s.locked)
  }

  function AcceptedCalls(server: string, s: State, es: seq<Event>): nat
    decreases |es|
  {
    if es == [] then 0
    else (if Accepted(s, es[0]) then 1 else 0) + AcceptedCalls(server, Apply(server, s, es[0]), es[1..])
  }

  function EffectiveSteps(server: string, s: State, es: seq<Event>): nat
    decreases |es|
  {
    if es == [] then 0
    else (if Effective(s, es[0]) then 1 else 0) + EffectiveSteps(server, Apply(server, s, es[0]), es[1..])
  }

  lemma StepCounts(server: string, s: State, e: Event)
    ensures Total(Apply(server, s, e).threads) + (if Effective(s, e) then 1 else 0)
            == Total(s.threads) + (if Accepted(s, e) then 4 else 0)
    ensures !Effective(s, e) && !Accepted(s, e) ==> Apply(server, s, e) == s
  {
    var t := e.thread;
    if t < |s.threads| {
      TotalUpdate(s.threads, t, Apply(server, s, e).threads[t]);
      var s' := Apply(server, s, e);
      assert s'.threads == s.threads[t := s'.threads[t]];
    }
  }

  /** In any run the steps that are not spinning are exactly four for each operation that was
      called, less those that are still to come: no operation takes more. */
  lemma {:induction false} StepsAreBounded(server: string, s: State, es: seq<Event>)
    ensures EffectiveSteps(server, s, es) + Total(Run(server, s, es).threads)
            == Total(s.threads) + 4 * AcceptedCalls(server, s, es)
    decreases |es|
  {
    if es != [] {
      StepCounts(server, s, es[0]);
      StepsAreBounded(server, Apply(server, s, es[0]), es[1..]);
    }
  }

  /** While an operation is unfinished, some thread can take a step that is not spinning. */
  lemma SomeStepIsEffective(s: State, dbOk: bool) returns (t: nat)
    requires Exclusive(s) && Total(s.threads) > 0
    ensures Effective(s, Step(t, dbOk))
  {
    TotalZero(s.threads);
    if s.locked {
      t :| t < |s.threads| && s.threads[t].InCritical();
    } else {
      t :| t < |s.threads| && !s.threads[t].Idle?;
    }
  }

  /** No deadlock: from every state that a run can reach, and whatever the database answers each
      time, a schedule of exactly as many steps as remain finishes all operations. The answers are
      given by how many steps are left. */
  lemma {:induction false} CanAlwaysFinish(server: string, rows: Table, s: State, dbOk: nat -> bool)
    returns (es: seq<Event>)
    requires Inv(server, rows, s)
    ensures |es| == Total(s.threads) == EffectiveSteps(server, s, es)
    ensures forall i | 0 <= i < |es| :: es[i].Step? && es[i].dbOk == dbOk(|es| - i)
    ensures var end := Run(server, s, es);
            && (forall i | 0 <= i < |end.threads| :: end.threads[i].Idle?)
            && !end.locked && end.clients == Replay(end.acquired)
            && (forall id :: Quiet(end, id))
    decreases Total(s.threads)
  {
    if Total(s.threads) == 0 {
      es := [];
      Finished(server, rows, s);
    } else {
      var answer := dbOk(Total(s.threads));
      var t := SomeStepIsEffective(s, answer);
      var e := Step(t, answer);
      StepCounts(server, s, e);
      InvKept(server, rows, s, e);
      var rest := CanAlwaysFinish(server, rows, Apply(server, s, e), dbOk);
      es := [e] + rest;
      assert es[1..] == rest;
    }
  }

  lemma Finished(server: string, rows: Table, s: State)
    requires Inv(server, rows, s) && Total(s.threads) == 0
    ensures forall i | 0 <= i < |s.threads| :: s.threads[i].Idle?
    ensures !s.locked && s.clients == Replay(s.acquired) && forall id :: Quiet(s, id)
  {
    TotalZero(s.threads);
    assert !SomeUpdating(s);
  }
}

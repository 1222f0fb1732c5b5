// thread.c: the thread pool running on thread_barrier_no_limit itself, step by step,
// in place of the barrier's abstract specification.
module PoolOnBarrier {
  import G = GroupBarrier
  import P = ThreadPool

  // The pool's own variables, and those of its barrier.
  datatype State = State(pool: P.State, barrier: G.State)

  ghost predicate Shape(c: P.Client, s: State) {
    P.Shape(c, s.pool) && G.WellFormed(c.n, s.barrier)
  }

  ghost function Start(c: P.Client): State
    requires c.n >= 1
  {
    State(P.Start(c), G.Start(c.n))
  }

  // About to call the barrier.
  ghost predicate Calling(p: P.PC) {
    p.StartCall? || p.ShutCall? || p.Running?
  }

  // The barrier's number of rounds, under which t may always call it once more.
  ghost function Rounds(c: P.Client, s: State, t: nat): nat
    requires Shape(c, s) && t < c.n
  {
    s.barrier.entered[t] + 1
  }

  // From its call to its return a thread follows the barrier's code, otherwise the pool's.
  ghost predicate CanStep(c: P.Client, s: State, t: nat)
    requires Shape(c, s)
  {
    && t < c.n
    && if Calling(s.pool.pc[t]) || P.Inside(s.pool.pc[t]) then
         G.CanStep(c.n, Rounds(c, s, t), s.barrier, t)
       else
         P.CanStep(c, s.pool, t)
  }

  ghost function Step(c: P.Client, s: State, t: nat): State
    requires Shape(c, s) && CanStep(c, s, t)
  {
    if Calling(s.pool.pc[t]) || P.Inside(s.pool.pc[t]) then
      State(if s.barrier.pc[t] == G.Outside || G.Returning(c.n, s.barrier, t) then P.Step(c, s.pool, t) else s.pool,
            G.Step(c.n, Rounds(c, s, t), s.barrier, t))
    else
      State(P.Step(c, s.pool, t), s.barrier)
  }

  ghost predicate Steps(c: P.Client, s: State, s': State) {
    Shape(c, s) && exists t: nat :: CanStep(c, s, t) && s' == Step(c, s, t)
  }

  // A spurious wakeup that the barrier's code tolerates.
  ghost predicate Wakes(c: P.Client, s: State, s': State) {
    && Shape(c, s)
    && exists t: nat :: G.CanWakeSpuriously(c.n, s.barrier, t)
                     && s' == State(s.pool, G.Goto(s.barrier, t, G.Woken))
  }

  ghost predicate Run(c: P.Client, ss: seq<State>) {
    && c.n >= 2 && |ss| >= 1 && ss[0] == Start(c)
    && forall i :: 0 <= i < |ss| - 1 ==> Steps(c, ss[i], ss[i + 1]) || Wakes(c, ss[i], ss[i + 1])
  }

  // ---------------------------------------------------------------- both halves keep their invariants

  ghost predicate Inv(c: P.Client, s: State) {
    c.n >= 2 && P.Inv(c, s.pool) && G.Inv(c.n, s.barrier) && s.pool.calls == G.Calls(s.barrier)
  }

  lemma StartInv(c: P.Client)
    requires c.n >= 2
    ensures Inv(c, Start(c))
  {
    P.StartInv(c);
    G.StartInv(c.n);
  }

  // The two halves agree on who is inside the barrier.
  lemma InsideTogether(c: P.Client, s: State, t: nat)
    requires Inv(c, s) && t < c.n
    ensures Shape(c, s) && (s.barrier.pc[t] == G.Outside <==> !P.Inside(s.pool.pc[t]))
    ensures s.barrier.entered[t] == s.barrier.left[t] + (if s.barrier.pc[t] == G.Outside then 0 else 1)
  {
    assert P.OnTrack(c, s.pool, t);
  }

  // Where the barrier's code lets a thread begin or complete a call, the abstract
  // barrier the pool was proved with does too.
  lemma BarrierGrants(c: P.Client, s: State, t: nat)
    requires Inv(c, s) && Shape(c, s) && CanStep(c, s, t)
    requires Calling(s.pool.pc[t]) || P.Inside(s.pool.pc[t])
    ensures s.barrier.pc[t] == G.Outside || G.Returning(c.n, s.barrier, t) ==> P.CanStep(c, s.pool, t)
    ensures G.Calls(Step(c, s, t).barrier) == Step(c, s, t).pool.calls
  {
    InsideTogether(c, s, t);
    G.LeavesTogether(c.n, Rounds(c, s, t), s.barrier, t);
    G.StepCalls(c.n, Rounds(c, s, t), s.barrier, t);
    hide G.Inv, P.Inv, G.CanStep, G.Step;
  }

  lemma LocalStep(c: P.Client, s: P.State, t: nat)
    requires P.Shape(c, s) && P.CanStep(c, s, t) && !Calling(s.pc[t]) && !P.Inside(s.pc[t])
    ensures P.Step(c, s, t).calls == s.calls
  {
  }

  // Every step is one of the pool over the abstract barrier, or invisible to it.
  lemma RefinesPool(c: P.Client, s: State, s': State)
    requires Inv(c, s) && (Steps(c, s, s') || Wakes(c, s, s'))
    ensures s'.pool == s.pool || P.Next(c, s.pool, s'.pool)
    ensures Inv(c, s')
  {
    assert P.Shape(c, s.pool) && G.WellFormed(c.n, s.barrier);
    hide P.Inv, G.Inv, P.CanStep, P.Step, G.CanStep, G.Step;
    if Steps(c, s, s') {
      var t: nat :| CanStep(c, s, t) && s' == Step(c, s, t);
      if Calling(s.pool.pc[t]) || P.Inside(s.pool.pc[t]) {
        BarrierGrants(c, s, t);
        assert G.Next(c.n, Rounds(c, s, t), s.barrier, s'.barrier);
        G.NextKeepsInv(c.n, Rounds(c, s, t), s.barrier, s'.barrier);
      } else {
        LocalStep(c, s.pool, t);
      }
    } else {
      var t: nat :| G.CanWakeSpuriously(c.n, s.barrier, t) && s' == State(s.pool, G.Goto(s.barrier, t, G.Woken));
      assert G.Next(c.n, 0, s.barrier, s'.barrier);
      G.NextKeepsInv(c.n, 0, s.barrier, s'.barrier);
    }
    if s'.pool != s.pool {
      P.NextKeepsInv(c, s.pool, s'.pool);
    }
  }

  lemma {:induction false} RunInv(c: P.Client, ss: seq<State>, i: nat)
    requires Run(c, ss) && i < |ss|
    ensures Inv(c, ss[i])
  {
    if i == 0 {
      StartInv(c);
    } else {
      RunInv(c, ss, i - 1);
      RefinesPool(c, ss[i - 1], ss[i]);
    }
  }

  // On the real barrier too, each thread runs the dispatched functions once each and
  // in order, reads the shared variables of its own phase, and exits on shutdown only.
  lemma JobsRunInOrder(c: P.Client, ss: seq<State>, i: nat, t: nat)
    requires Run(c, ss) && i < |ss| && t < c.n
    ensures var s := ss[i].pool;
      && P.Shape(c, s) && s.ran[t] <= c.jobs
      && (s.pc[t].Exited? ==> s.ran[t] == c.jobs && s.doShutdown)
      && (s.pc[t].Done? ==> forall u: nat :: u < c.n ==> s.ran[u] == c.jobs)
      && (s.pc[t].FetchArg? ==> |s.ran[t]| < |c.jobs| && P.Job(s.pc[t].f, s.arg) == c.jobs[|s.ran[t]|])
  {
    RunInv(c, ss, i);
    P.InOrder(c, ss[i].pool, t);
    if ss[i].pool.pc[t].FetchArg? { P.FetchKeepsPrefix(c, ss[i].pool, t); }
  }

  // ---------------------------------------------------------------- progress

  // A thread with calls left to make that is outside the barrier can go on.
  lemma OutsiderMoves(c: P.Client, s: State, t: nat)
    requires Inv(c, s) && Shape(c, s) && t < c.n && s.barrier.pc[t] == G.Outside && !P.Resting(s.pool.pc[t])
    ensures CanStep(c, s, t)
  {
    InsideTogether(c, s, t);
  }

  // The number of calls a thread makes in all.
  ghost function AllCalls(c: P.Client): nat {
    P.CallsFor(c, |c.jobs|) + 1
  }

  lemma CallsWithin(c: P.Client, s: State)
    requires Inv(c, s)
    ensures G.WellFormed(c.n, s.barrier) && G.Within(c.n, AllCalls(c), s.barrier)
  {
    forall t: nat | t < c.n
      ensures s.barrier.entered[t] <= AllCalls(c)
    {
      P.EnteredBound(c, s.pool, t);
    }
  }

  lemma Mover(c: P.Client, s: State) returns (u: nat)
    requires Inv(c, s) && Shape(c, s) && !P.AllDone(c, s.pool)
    ensures u < c.n && CanStep(c, s, u)
  {
    hide P.Inv, G.Inv, P.AllDone;
    var t := P.Mover(c, s.pool);
    InsideTogether(c, s, t);
    if !P.Inside(s.pool.pc[t]) {
      u := t;
    } else {
      CallsWithin(c, s);
      u := G.FindMover(c.n, AllCalls(c), s.barrier, t);
      InsideTogether(c, s, u);
      if s.barrier.pc[u] == G.Outside {
        if P.Resting(s.pool.pc[u]) { P.RestingPlace(c, s.pool, u); }
        OutsiderMoves(c, s, u);
      }
    }
  }

  // Pool and barrier together never deadlock: some thread can take a step exactly
  // until the primary has joined all secondaries.
  lemma StopsOnlyWhenDone(c: P.Client, ss: seq<State>, i: nat)
    requires Run(c, ss) && i < |ss|
    ensures Shape(c, ss[i])
    ensures (exists t: nat :: CanStep(c, ss[i], t)) <==> !P.AllDone(c, ss[i].pool)
  {
    RunInv(c, ss, i);
    if !P.AllDone(c, ss[i].pool) {
      var t := Mover(c, ss[i]);
    }
  }

  // ---------------------------------------------------------------- every run ends

  ghost function Progress(c: P.Client, s: State): int
    requires Shape(c, s)
  {
    P.TotalProgress(c, s.pool, c.n) + G.TotalProgress(c.n, s.barrier, c.n)
  }

  lemma StepProgress(c: P.Client, s: State, t: nat)
    requires Inv(c, s) && Shape(c, s) && CanStep(c, s, t)
    ensures Shape(c, Step(c, s, t)) && Progress(c, Step(c, s, t)) >= Progress(c, s) + 1
  {
    hide P.Inv, G.Inv, P.CanStep, P.Step, G.CanStep, G.Step, P.TotalProgress, G.TotalProgress;
    if Calling(s.pool.pc[t]) || P.Inside(s.pool.pc[t]) {
      G.StepTotal(c.n, Rounds(c, s, t), s.barrier, t);
      BarrierGrants(c, s, t);
      if s.barrier.pc[t] == G.Outside || G.Returning(c.n, s.barrier, t) {
        P.StepTotal(c, s.pool, t);
      }
    } else {
      P.StepTotal(c, s.pool, t);
    }
  }

  lemma WakeProgress(c: P.Client, s: State, s': State)
    requires Inv(c, s) && Wakes(c, s, s')
    ensures Shape(c, s') && Progress(c, s') >= Progress(c, s) - 2
  {
    hide P.Inv, G.Inv, P.TotalProgress, G.TotalProgress;
    var t: nat :| G.CanWakeSpuriously(c.n, s.barrier, t) && s' == State(s.pool, G.Goto(s.barrier, t, G.Woken));
    G.WakeupTotal(c.n, s.barrier, t);
  }

  lemma ProgressBound(c: P.Client, s: State)
    requires Inv(c, s)
    ensures Shape(c, s)
    ensures 0 <= Progress(c, s) <= Bound(c)
  {
    CallsWithin(c, s);
    G.TotalBounds(c.n, AllCalls(c), s.barrier, c.n);
    P.TotalBound(c, s.pool, c.n);
    hide G.Inv, P.TotalProgress, G.TotalProgress, G.CallLength, P.CallsFor;
  }

  // The spurious wakeups among the first k steps of a run.
  ghost function Wakeups(c: P.Client, ss: seq<State>, k: nat): nat
    requires k < |ss|
  {
    if k == 0 then 0 else Wakeups(c, ss, k - 1) + (if Steps(c, ss[k - 1], ss[k]) then 0 else 1)
  }

  ghost function Bound(c: P.Client): nat {
    c.n * (AllCalls(c) * G.CallLength(c.n)) + c.n * (5 * P.CallsFor(c, |c.jobs|) + 9)
  }

  // No run is longer than this, up to three steps for every spurious wakeup: with
  // StopsOnlyWhenDone, every run can be carried on to the end, and only so far.
  lemma RunEnds(c: P.Client, ss: seq<State>, i: nat)
    requires Run(c, ss) && i < |ss|
    ensures i <= Bound(c) + 3 * Wakeups(c, ss, i)
  {
    RunProgress(c, ss, i);
    RunInv(c, ss, i);
    ProgressBound(c, ss[i]);
  }

  lemma {:induction false} RunProgress(c: P.Client, ss: seq<State>, i: nat)
    requires Run(c, ss) && i < |ss|
    ensures Shape(c, ss[i]) && i <= Progress(c, ss[i]) + 3 * Wakeups(c, ss, i)
  {
    RunInv(c, ss, i);
    ProgressBound(c, ss[i]);
    if i > 0 {
      RunProgress(c, ss, i - 1);
      RunInv(c, ss, i - 1);
      hide Inv, CanStep, Step, Progress, Shape, Wakes;
      if Steps(c, ss[i - 1], ss[i]) {
        var t: nat :| CanStep(c, ss[i - 1], t) && ss[i] == Step(c, ss[i - 1], t);
        StepProgress(c, ss[i - 1], t);
      } else {
        WakeProgress(c, ss[i - 1], ss[i]);
      }
    }
  }
}

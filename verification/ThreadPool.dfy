// thread.c, threadWait, thread_start, thread_shutdown: the start/stop protocol by
// which a primary thread (thread 0) hands functions to a pool of secondaries, with
// the pool's barrier at its abstract specification.
module ThreadPool {
  import B = AbstractBarrier

  // A function and its argument, as handed to thread_start.
  datatype Job = Job(func: int, arg: int)

  // n threads; the primary starts the jobs in turn and then shuts the pool down.
  // A job may itself call the barrier, inner(job) times on every thread.
  datatype Client = Client(n: nat, jobs: seq<Job>, inner: Job -> nat)

  // What a thread is about to do.
  datatype PC =
    | Idle             // primary: write the function pointer, or the shutdown flag
    | WriteArg         // primary: write the argument pointer
    | StartCall        // call the barrier, to wait for the start
    | InStart          // return from it
    | Test             // read the shutdown flag
    | FetchFunc        // read the function pointer
    | FetchArg(f: int) // read the argument pointer, and call f
    | Running(k: nat)  // call the barrier: k more times from the job, then for its end
    | InJob(k: nat)    // return from a call made by the job
    | InEnd            // return from the call that waits for the end
    | Exited           // a secondary is out of its loop
    | ShutCall         // primary: call the barrier, to let the secondaries exit
    | InShut           // return from it
    | Join             // primary: wait until every secondary has exited
    | Done

  datatype State = State(calls: B.Calls, pc: seq<PC>, ran: seq<seq<Job>>, func: int, arg: int, doShutdown: bool)

  ghost predicate Shape(c: Client, s: State) {
    c.n >= 1 && B.Shape(c.n, s.calls) && |s.pc| == c.n && |s.ran| == c.n
  }

  ghost function Start(c: Client): State
    requires c.n >= 1
  {
    State(B.Start(c.n), seq(c.n, t => if t == 0 then Idle else StartCall), seq(c.n, _ => []), 0, 0, false)
  }

  ghost predicate CanStep(c: Client, s: State, t: nat)
    requires Shape(c, s)
  {
    && t < c.n
    && match s.pc[t]
       case Exited | Done => false
       case StartCall | ShutCall | Running(_) => B.CanEnter(c.n, s.calls, t)
       case InStart | InShut | InJob(_) | InEnd => B.CanLeave(c.n, s.calls, t)
       case Join => forall u: nat :: 1 <= u < c.n ==> s.pc[u] == Exited
       case _ => true
  }

  ghost function Goto(s: State, t: nat, p: PC): State
    requires t < |s.pc|
  {
    s.(pc := s.pc[t := p])
  }

  ghost function Entering(s: State, t: nat, p: PC): State
    requires t < |s.pc| && t < |s.calls.entered|
  {
    Goto(s, t, p).(calls := B.Enter(s.calls, t))
  }

  ghost function Leaving(s: State, t: nat, p: PC): State
    requires t < |s.pc| && t < |s.calls.left|
  {
    Goto(s, t, p).(calls := B.Leave(s.calls, t))
  }

  // What the step of thread t does.
  ghost function Step(c: Client, s: State, t: nat): State
    requires Shape(c, s) && t < c.n
  {
    match s.pc[t]
    case Idle =>
      if |s.ran[t]| < |c.jobs| then Goto(s, t, WriteArg).(func := c.jobs[|s.ran[t]|].func)
      else Goto(s, t, ShutCall).(doShutdown := true)
    case WriteArg =>
      Goto(s, t, StartCall).(arg := if |s.ran[t]| < |c.jobs| then c.jobs[|s.ran[t]|].arg else s.arg)
    case StartCall => Entering(s, t, InStart)
    case InStart => Leaving(s, t, Test)
    case Test => Goto(s, t, if s.doShutdown then Exited else FetchFunc)
    case FetchFunc => Goto(s, t, FetchArg(s.func))
    case FetchArg(f) =>
      var job := Job(f, s.arg);
      Goto(s, t, Running(c.inner(job))).(ran := s.ran[t := s.ran[t] + [job]])
    case Running(k) => Entering(s, t, if k == 0 then InEnd else InJob(k - 1))
    case InJob(k) => Leaving(s, t, Running(k))
    case InEnd => Leaving(s, t, if t == 0 then Idle else StartCall)
    case ShutCall => Entering(s, t, InShut)
    case InShut => Leaving(s, t, Join)
    case Join => Goto(s, t, Done)
    case _ => s
  }

  ghost predicate Next(c: Client, s: State, s': State) {
    Shape(c, s) && exists t: nat :: CanStep(c, s, t) && s' == Step(c, s, t)
  }

  ghost predicate Run(c: Client, ss: seq<State>) {
    c.n >= 1 && |ss| >= 1 && ss[0] == Start(c) && forall i :: 0 <= i < |ss| - 1 ==> Next(c, ss[i], ss[i + 1])
  }

  // ---------------------------------------------------------------- the invariant

  // The barrier calls a thread makes for the first j jobs.
  ghost function CallsFor(c: Client, j: nat): nat
    requires j <= |c.jobs|
  {
    if j == 0 then 0 else CallsFor(c, j - 1) + 2 + c.inner(c.jobs[j - 1])
  }

  lemma {:induction false} CallsForGap(c: Client, i: nat, j: nat)
    requires i < j <= |c.jobs|
    ensures CallsFor(c, i) + 2 + c.inner(c.jobs[i]) <= CallsFor(c, j)
  {
    if i < j - 1 {
      CallsForGap(c, i, j - 1);
    }
  }

  // The calls thread t has begun, told from its place and from what it has run.
  ghost predicate InStep(c: Client, s: State, t: nat)
    requires Shape(c, s) && t < c.n && |s.ran[t]| <= |c.jobs|
  {
    var m := |s.ran[t]|;
    var e := s.calls.entered[t];
    match s.pc[t]
    case Idle => t == 0 && e == CallsFor(c, m)
    case WriteArg => t == 0 && m < |c.jobs| && e == CallsFor(c, m)
    case StartCall => (t == 0 ==> m < |c.jobs|) && e == CallsFor(c, m)
    case InStart | Test => (t == 0 ==> m < |c.jobs|) && e == CallsFor(c, m) + 1
    case FetchFunc => m < |c.jobs| && e == CallsFor(c, m) + 1
    case FetchArg(f) => m < |c.jobs| && f == c.jobs[m].func && e == CallsFor(c, m) + 1
    case Running(k) => m >= 1 && k <= c.inner(c.jobs[m - 1]) && e + k + 1 == CallsFor(c, m)
    case InJob(k) => m >= 1 && k < c.inner(c.jobs[m - 1]) && e + k + 1 == CallsFor(c, m)
    case InEnd => m >= 1 && e == CallsFor(c, m)
    case Exited => t >= 1 && m == |c.jobs| && e == CallsFor(c, m) + 1
    case ShutCall => t == 0 && m == |c.jobs| && e == CallsFor(c, m)
    case InShut | Join | Done => t == 0 && m == |c.jobs| && e == CallsFor(c, m) + 1
  }

  // What the invariant says of one thread.
  ghost predicate OnTrack(c: Client, s: State, t: nat)
    requires Shape(c, s) && t < c.n
  {
    && s.ran[t] <= c.jobs && InStep(c, s, t)
    && s.calls.entered[t] == s.calls.left[t] + (if Inside(s.pc[t]) then 1 else 0)
  }

  ghost predicate Inside(p: PC) {
    p.InStart? || p.InJob? || p.InEnd? || p.InShut?
  }

  ghost predicate ShuttingDown(p: PC) {
    p.ShutCall? || p.InShut? || p.Join? || p.Done?
  }

  // What the shared variables hold, told from the primary's place.
  ghost predicate Published(c: Client, s: State)
    requires Shape(c, s) && |s.ran[0]| <= |c.jobs|
  {
    var m := |s.ran[0]|;
    && (s.doShutdown <==> ShuttingDown(s.pc[0]))
    && match s.pc[0]
       case WriteArg => m < |c.jobs| && s.func == c.jobs[m].func
       case StartCall | InStart | Test | FetchFunc | FetchArg(_) => m < |c.jobs| && Job(s.func, s.arg) == c.jobs[m]
       case Running(_) | InJob(_) | InEnd => m >= 1 && Job(s.func, s.arg) == c.jobs[m - 1]
       case _ => true
  }

  ghost predicate Inv(c: Client, s: State) {
    && Shape(c, s)
    && B.Together(c.n, s.calls)
    && (forall t: nat :: t < c.n ==> OnTrack(c, s, t))
    && OnTrack(c, s, 0)
    && Published(c, s)
  }

  // A thread that has returned from its start call, and not yet called the barrier
  // again, reads the shared variables of its own phase: the primary is in that
  // phase too, and not about to write them.
  lemma ReadsItsPhase(c: Client, s: State, t: nat)
    requires Inv(c, s) && t < c.n && (s.pc[t].Test? || s.pc[t].FetchFunc? || s.pc[t].FetchArg?)
    ensures var m := |s.ran[t]|;
      && (s.doShutdown <==> m == |c.jobs|)
      && (m < |c.jobs| ==> Job(s.func, s.arg) == c.jobs[m])
    ensures !s.pc[0].Idle? && !s.pc[0].WriteArg?
  {
    var m, m0 := |s.ran[t]|, |s.ran[0]|;
    assert OnTrack(c, s, t) && OnTrack(c, s, 0);
    if m < m0 { CallsForGap(c, m, m0); }
    if m0 < m { CallsForGap(c, m0, m); }
    if m + 1 < m0 { CallsForGap(c, m, m0 - 1); }
  }

  // The jobs taken grow by the one the primary has published, and nothing else.
  lemma FetchKeepsPrefix(c: Client, s: State, t: nat)
    requires Inv(c, s) && t < c.n && s.pc[t].FetchArg?
    ensures |s.ran[t]| < |c.jobs|
    ensures s.ran[t] + [Job(s.pc[t].f, s.arg)] == c.jobs[..|s.ran[t]| + 1]
  {
    assert OnTrack(c, s, t);
    ReadsItsPhase(c, s, t);
  }

  lemma StartInv(c: Client)
    requires c.n >= 1
    ensures Inv(c, Start(c))
  {
  }

  lemma StepKeepsInStep(c: Client, s: State, t: nat, u: nat)
    requires Inv(c, s) && CanStep(c, s, t) && u < c.n
    ensures Shape(c, Step(c, s, t)) && OnTrack(c, Step(c, s, t), u)
  {
    assert Shape(c, s) && OnTrack(c, s, t) && OnTrack(c, s, u);
    if s.pc[t].Test? || s.pc[t].FetchFunc? || s.pc[t].FetchArg? { ReadsItsPhase(c, s, t); }
    if s.pc[t].FetchArg? { FetchKeepsPrefix(c, s, t); }
    hide Inv, CanStep, Step, OnTrack;
    if u != t {
      OthersOnTrack(c, s, t, u);
    } else if s.pc[t].Test? || s.pc[t].FetchFunc? || s.pc[t].FetchArg? {
      ReadStep(c, s, t);
    } else {
      PlainStep(c, s, t);
    }
  }

  // A step touches nothing of another thread, and only the primary writes.
  lemma StepIsLocal(c: Client, s: State, t: nat)
    requires Shape(c, s) && CanStep(c, s, t)
    ensures var s' := Step(c, s, t);
      && Shape(c, s')
      && (t != 0 && s.pc[t] != Idle && s.pc[t] != WriteArg ==>
            s'.func == s.func && s'.arg == s.arg && s'.doShutdown == s.doShutdown)
      && forall u: nat :: u < c.n && u != t ==>
           && s'.pc[u] == s.pc[u] && s'.ran[u] == s.ran[u]
           && s'.calls.entered[u] == s.calls.entered[u] && s'.calls.left[u] == s.calls.left[u]
  {
    hide B.CanEnter, B.CanLeave;
  }

  lemma OthersOnTrack(c: Client, s: State, t: nat, u: nat)
    requires Shape(c, s) && CanStep(c, s, t) && u < c.n && u != t && OnTrack(c, s, u)
    ensures Shape(c, Step(c, s, t)) && OnTrack(c, Step(c, s, t), u)
  {
    StepIsLocal(c, s, t);
    hide CallsFor, CanStep, Step;
  }

  lemma ReadStep(c: Client, s: State, t: nat)
    requires Shape(c, s) && CanStep(c, s, t) && OnTrack(c, s, t)
    requires s.pc[t].Test? || s.pc[t].FetchFunc? || s.pc[t].FetchArg?
    requires s.doShutdown <==> |s.ran[t]| == |c.jobs|
    requires |s.ran[t]| < |c.jobs| ==> Job(s.func, s.arg) == c.jobs[|s.ran[t]|]
    requires s.pc[t].FetchArg? ==>
             |s.ran[t]| < |c.jobs| && s.ran[t] + [Job(s.pc[t].f, s.arg)] == c.jobs[..|s.ran[t]| + 1]
    ensures Shape(c, Step(c, s, t)) && OnTrack(c, Step(c, s, t), t)
  {
  }

  lemma PlainStep(c: Client, s: State, t: nat)
    requires Shape(c, s) && CanStep(c, s, t) && OnTrack(c, s, t)
    requires !s.pc[t].Test? && !s.pc[t].FetchFunc? && !s.pc[t].FetchArg?
    ensures Shape(c, Step(c, s, t)) && OnTrack(c, Step(c, s, t), t)
  {
    hide CallsFor, B.CanEnter, B.CanLeave;
  }

  lemma StepKeepsPublished(c: Client, s: State, t: nat)
    requires Inv(c, s) && CanStep(c, s, t)
    ensures var s' := Step(c, s, t); Shape(c, s') && |s'.ran[0]| <= |c.jobs| && Published(c, s')
  {
    assert Shape(c, s) && OnTrack(c, s, t) && OnTrack(c, s, 0) && Published(c, s);
    if s.pc[t].Test? || s.pc[t].FetchArg? { ReadsItsPhase(c, s, t); }
    if s.pc[t].FetchArg? { FetchKeepsPrefix(c, s, t); }
    hide Inv, CanStep, Step, CallsFor;
    if t == 0 {
      PrimaryPublishes(c, s);
    } else {
      StepIsLocal(c, s, t);
    }
  }

  lemma PrimaryPublishes(c: Client, s: State)
    requires Shape(c, s) && CanStep(c, s, 0) && OnTrack(c, s, 0) && Published(c, s)
    requires s.pc[0].Test? ==> (s.doShutdown <==> |s.ran[0]| == |c.jobs|)
    requires s.pc[0].FetchArg? ==> |s.ran[0]| < |c.jobs| && Job(s.func, s.arg) == c.jobs[|s.ran[0]|]
    ensures var s' := Step(c, s, 0); Shape(c, s') && |s'.ran[0]| <= |c.jobs| && Published(c, s')
  {
    hide B.CanEnter, B.CanLeave, CallsFor;
  }

  // Seen from the barrier, every step is one of its own or none.
  lemma StepUsesBarrier(c: Client, s: State, t: nat)
    requires Inv(c, s) && CanStep(c, s, t)
    ensures var s' := Step(c, s, t); s'.calls == s.calls || B.ThreadStep(c.n, s.calls, s'.calls, t)
  {
  }

  lemma NextKeepsInv(c: Client, s: State, s': State)
    requires Inv(c, s) && Next(c, s, s')
    ensures Inv(c, s')
  {
    var t: nat :| CanStep(c, s, t) && s' == Step(c, s, t);
    hide Inv, CanStep, Step;
    forall u: nat | u < c.n
      ensures Shape(c, s') && OnTrack(c, s', u)
    {
      StepKeepsInStep(c, s, t, u);
    }
    StepKeepsPublished(c, s, t);
    StepKeepsTogether(c, s, t);
    InvFrom(c, s');
  }

  lemma StepKeepsTogether(c: Client, s: State, t: nat)
    requires Inv(c, s) && CanStep(c, s, t)
    ensures B.Together(c.n, Step(c, s, t).calls)
  {
    StepUsesBarrier(c, s, t);
    var s' := Step(c, s, t);
    hide Step, CanStep;
    if s'.calls != s.calls {
      assert B.Next(c.n, s.calls, s'.calls);
      B.NextKeepsTogether(c.n, s.calls, s'.calls);
    }
  }

  lemma InvFrom(c: Client, s: State)
    requires Shape(c, s) && B.Together(c.n, s.calls) && OnTrack(c, s, 0) && Published(c, s)
    requires forall t: nat :: t < c.n ==> OnTrack(c, s, t)
    ensures Inv(c, s)
  {
  }

  lemma {:induction false} RunInv(c: Client, ss: seq<State>, i: nat)
    requires Run(c, ss) && i < |ss|
    ensures Inv(c, ss[i])
  {
    if i == 0 {
      StartInv(c);
    } else {
      RunInv(c, ss, i - 1);
      NextKeepsInv(c, ss[i - 1], ss[i]);
    }
  }

  // ---------------------------------------------------------------- what the pool does

  // Each thread has run the first so many jobs, once each and in order, and a
  // secondary has exited only after running them all and with the flag set.
  lemma InOrder(c: Client, s: State, t: nat)
    requires Inv(c, s) && t < c.n
    ensures s.ran[t] <= c.jobs
    ensures s.pc[t] == Exited ==> s.ran[t] == c.jobs && s.doShutdown
    ensures s.pc[t] == Done ==> forall u: nat :: u < c.n ==> s.ran[u] == c.jobs
  {
    assert OnTrack(c, s, t) && OnTrack(c, s, 0);
    if s.pc[t] == Exited {
      var m0 := |s.ran[0]|;
      if m0 < |c.jobs| { CallsForGap(c, m0, |c.jobs|); }
    }
    if s.pc[t] == Done {
      forall u: nat | u < c.n
        ensures s.ran[u] == c.jobs
      {
        assert OnTrack(c, s, u);
        if |s.ran[u]| < |c.jobs| { CallsForGap(c, |s.ran[u]|, |c.jobs|); }
      }
    }
  }

  // So in every state of every run.
  lemma JobsRunInOrder(c: Client, ss: seq<State>, i: nat, t: nat)
    requires Run(c, ss) && i < |ss| && t < c.n
    ensures Shape(c, ss[i]) && ss[i].ran[t] <= c.jobs
    ensures ss[i].pc[t] == Exited ==> ss[i].ran[t] == c.jobs && ss[i].doShutdown
    ensures ss[i].pc[t] == Done ==> forall u: nat :: u < c.n ==> ss[i].ran[u] == c.jobs
  {
    RunInv(c, ss, i);
    InOrder(c, ss[i], t);
  }

  // No thread reads a shared variable while the primary is about to write it, in
  // any reachable state, and what it reads belongs to its own phase.
  lemma ReadsNeverRace(c: Client, ss: seq<State>, i: nat, t: nat)
    requires Run(c, ss) && i < |ss| && t < c.n
    ensures Shape(c, ss[i])
    ensures ss[i].pc[t].Test? || ss[i].pc[t].FetchFunc? || ss[i].pc[t].FetchArg? ==>
              && !ss[i].pc[0].Idle? && !ss[i].pc[0].WriteArg?
              && (ss[i].doShutdown <==> |ss[i].ran[t]| == |c.jobs|)
              && (!ss[i].doShutdown ==>
                    |ss[i].ran[t]| < |c.jobs| && Job(ss[i].func, ss[i].arg) == c.jobs[|ss[i].ran[t]|])
  {
    RunInv(c, ss, i);
    assert OnTrack(c, ss[i], t);
    if ss[i].pc[t].Test? || ss[i].pc[t].FetchFunc? || ss[i].pc[t].FetchArg? {
      ReadsItsPhase(c, ss[i], t);
    }
  }

  // ---------------------------------------------------------------- it always finishes

  // A thread that has begun no more calls than any other.
  lemma {:induction false} FindLast(c: Client, s: State, k: nat) returns (t: nat)
    requires Shape(c, s) && 1 <= k <= c.n
    ensures t < k && forall u: nat :: u < k ==> s.calls.entered[t] <= s.calls.entered[u]
  {
    if k == 1 {
      t := 0;
    } else {
      t := FindLast(c, s, k - 1);
      if s.calls.entered[k - 1] < s.calls.entered[t] { t := k - 1; }
    }
  }

  ghost predicate AllDone(c: Client, s: State)
    requires Shape(c, s)
  {
    s.pc[0] == Done && forall t: nat :: 1 <= t < c.n ==> s.pc[t] == Exited
  }

  ghost predicate Resting(p: PC) {
    p.Exited? || p.Join? || p.Done?
  }

  lemma BusyThreadMoves(c: Client, s: State, t: nat)
    requires Inv(c, s) && t < c.n && !Resting(s.pc[t])
    requires forall u: nat :: u < c.n ==> s.calls.entered[t] <= s.calls.entered[u]
    ensures CanStep(c, s, t)
  {
    assert OnTrack(c, s, t);
  }

  lemma Mover(c: Client, s: State) returns (t: nat)
    requires Inv(c, s) && !AllDone(c, s)
    ensures t < c.n && CanStep(c, s, t)
  {
    t := FindLast(c, s, c.n);
    if Resting(s.pc[t]) {
      RestingPlace(c, s, t);
      if v: nat :| v < c.n && !Resting(s.pc[v]) {
        AllEntered(c, s, v, s.calls.entered[t]);
        BusyThreadMoves(c, s, v);
        t := v;
      } else {
        assert Shape(c, s);
        forall u: nat | u < c.n
          ensures if u == 0 then s.pc[u] != Exited else s.pc[u] == Exited
        {
          RestingPlace(c, s, u);
        }
        t := 0;
      }
    } else {
      BusyThreadMoves(c, s, t);
    }
  }

  lemma RestingPlace(c: Client, s: State, t: nat)
    requires Inv(c, s) && t < c.n && Resting(s.pc[t])
    ensures s.calls.entered[t] == CallsFor(c, |c.jobs|) + 1
    ensures if t == 0 then s.pc[t] != Exited else s.pc[t] == Exited
  {
    assert OnTrack(c, s, t);
  }

  // No thread ever begins more calls than the run has.
  lemma EnteredBound(c: Client, s: State, t: nat)
    requires Inv(c, s) && t < c.n
    ensures s.calls.entered[t] <= CallsFor(c, |c.jobs|) + 1
  {
    assert OnTrack(c, s, t);
    if |s.ran[t]| < |c.jobs| { CallsForGap(c, |s.ran[t]|, |c.jobs|); }
  }

  lemma AllEntered(c: Client, s: State, t: nat, top: nat)
    requires Inv(c, s) && t < c.n && top == CallsFor(c, |c.jobs|) + 1
    requires forall u: nat :: u < c.n ==> top <= s.calls.entered[u]
    ensures forall u: nat :: u < c.n ==> s.calls.entered[t] <= s.calls.entered[u]
  {
    EnteredBound(c, s, t);
  }

  // Some thread can move until the primary has joined all secondaries: the pool
  // does not deadlock, and it stops only when everything has run.
  lemma StopsOnlyWhenDone(c: Client, ss: seq<State>, i: nat)
    requires Run(c, ss) && i < |ss|
    ensures Shape(c, ss[i])
    ensures (exists t: nat :: CanStep(c, ss[i], t)) <==> !AllDone(c, ss[i])
  {
    RunInv(c, ss, i);
    if !AllDone(c, ss[i]) {
      var t := Mover(c, ss[i]);
    }
  }

  // How far a thread has come since it last called the barrier.
  ghost function Stage(p: PC): nat {
    match p
    case InStart | InJob(_) | InEnd | InShut => 0
    case Idle | Test | Join => 1
    case WriteArg | FetchFunc | ShutCall | Done => 2
    case StartCall | FetchArg(_) | Exited => 3
    case Running(_) => 4
  }

  ghost function Progress(c: Client, s: State, t: nat): nat
    requires Shape(c, s) && t < c.n
  {
    5 * s.calls.entered[t] + Stage(s.pc[t])
  }

  ghost function TotalProgress(c: Client, s: State, k: nat): nat
    requires Shape(c, s) && k <= c.n
  {
    if k == 0 then 0 else TotalProgress(c, s, k - 1) + Progress(c, s, k - 1)
  }

  lemma {:induction false} TotalGrows(c: Client, s: State, s': State, t: nat, k: nat)
    requires Shape(c, s) && Shape(c, s') && k <= c.n && t < c.n
    requires forall u: nat :: u < c.n ==> Progress(c, s', u) >= Progress(c, s, u) + (if u == t then 1 else 0)
    ensures TotalProgress(c, s', k) >= TotalProgress(c, s, k) + (if t < k then 1 else 0)
  {
    hide Progress;
    if k > 0 { TotalGrows(c, s, s', t, k - 1); }
  }

  lemma {:induction false} TotalBound(c: Client, s: State, k: nat)
    requires Inv(c, s) && k <= c.n
    ensures TotalProgress(c, s, k) <= k * (5 * CallsFor(c, |c.jobs|) + 9)
  {
    if k > 0 {
      TotalBound(c, s, k - 1);
      EnteredBound(c, s, k - 1);
      var b := 5 * CallsFor(c, |c.jobs|) + 9;
      assert k * b == (k - 1) * b + b;
    }
  }

  lemma StepProgress(c: Client, s: State, t: nat)
    requires Inv(c, s) && CanStep(c, s, t)
    ensures var s' := Step(c, s, t);
      Shape(c, s') && forall u: nat :: u < c.n ==> Progress(c, s', u) >= Progress(c, s, u) + (if u == t then 1 else 0)
  {
  }

  lemma StepTotal(c: Client, s: State, t: nat)
    requires Inv(c, s) && CanStep(c, s, t)
    ensures Shape(c, Step(c, s, t)) && TotalProgress(c, Step(c, s, t), c.n) >= TotalProgress(c, s, c.n) + 1
  {
    StepProgress(c, s, t);
    hide Inv, CanStep, Step, Progress;
    TotalGrows(c, s, Step(c, s, t), t, c.n);
  }

  // No run is longer than this; with StopsOnlyWhenDone, every run can be carried on
  // to the end, and only so far.
  lemma RunEnds(c: Client, ss: seq<State>, i: nat)
    requires Run(c, ss) && i < |ss|
    ensures i <= c.n * (5 * CallsFor(c, |c.jobs|) + 9)
  {
    RunProgress(c, ss, i);
    RunInv(c, ss, i);
    TotalBound(c, ss[i], c.n);
  }

  lemma {:induction false} RunProgress(c: Client, ss: seq<State>, i: nat)
    requires Run(c, ss) && i < |ss|
    ensures Shape(c, ss[i]) && i <= TotalProgress(c, ss[i], c.n)
  {
    RunInv(c, ss, i);
    assert Shape(c, ss[i]);
    if i > 0 {
      RunProgress(c, ss, i - 1);
      RunInv(c, ss, i - 1);
      assert Next(c, ss[i - 1], ss[i]);
      hide Inv, CanStep, Step, Progress;
      var t: nat :| CanStep(c, ss[i - 1], t) && ss[i] == Step(c, ss[i - 1], t);
      StepTotal(c, ss[i - 1], t);
    }
  }
}

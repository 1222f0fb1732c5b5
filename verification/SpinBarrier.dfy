// barrier.h, my_thread_barrier: a reusable spin barrier that elects a leader, as a
// transition system over its atomic operations, under sequential consistency.
module SpinBarrier {
  import B = AbstractBarrier

  // What a thread is about to do.
  datatype PC =
    | Outside    // call the barrier
    | AwaitReset // read barr == -1
    | Arrive     // decrement c1
    | AwaitAll   // read c1 == 0
    | Elect      // increment barr and test it for zero
    | Lead       // leader: decrement c2
    | AwaitOut   // leader: read c2 == 0
    | ResetC1    // leader: write the initial values, in this order
    | ResetC2
    | ResetBarr
    | ReturnOne
    | Follow     // others: decrement c2
    | ReturnZero

  // The three shared counters, and for each thread its place and the calls it has
  // begun. History: what each completed call returned, the number of completed
  // resets, and who was elected in each round.
  datatype State = State(c1: int, c2: int, barr: int, pc: seq<PC>, entered: seq<nat>,
                         results: seq<seq<bool>>, round: nat, leader: seq<nat>)

  ghost predicate Shape(n: nat, s: State) {
    n >= 1 && |s.pc| == n && |s.entered| == n && |s.results| == n
  }

  // my_barrier_init
  ghost function Start(n: nat): State {
    State(n, n, -1, seq(n, _ => Outside), seq(n, _ => 0), seq(n, _ => []), 0, [])
  }

  // A spinning thread steps when the value it reads lets it go on. Each thread
  // calls the barrier r times.
  ghost predicate CanStep(n: nat, r: nat, s: State, t: nat)
    requires Shape(n, s)
  {
    && t < n
    && match s.pc[t]
       case Outside => s.entered[t] < r
       case AwaitReset => s.barr == -1
       case AwaitAll => s.c1 == 0
       case AwaitOut => s.c2 == 0
       case _ => true
  }

  ghost function Goto(s: State, t: nat, p: PC): State
    requires t < |s.pc|
  {
    s.(pc := s.pc[t := p])
  }

  ghost function Return(s: State, t: nat, result: bool): State
    requires t < |s.pc| && t < |s.results|
  {
    Goto(s, t, Outside).(results := s.results[t := s.results[t] + [result]])
  }

  ghost function Step(n: nat, r: nat, s: State, t: nat): State
    requires Shape(n, s) && CanStep(n, r, s, t)
  {
    match s.pc[t]
    case Outside => Goto(s, t, AwaitReset).(entered := s.entered[t := s.entered[t] + 1])
    case AwaitReset => Goto(s, t, Arrive)
    case Arrive => Goto(s, t, AwaitAll).(c1 := s.c1 - 1)
    case AwaitAll => Goto(s, t, Elect)
    case Elect =>
      var b := s.barr + 1;
      if b == 0 then Goto(s, t, Lead).(barr := b, leader := s.leader + [t]) else Goto(s, t, Follow).(barr := b)
    case Lead => Goto(s, t, AwaitOut).(c2 := s.c2 - 1)
    case AwaitOut => Goto(s, t, ResetC1)
    case ResetC1 => Goto(s, t, ResetC2).(c1 := n)
    case ResetC2 => Goto(s, t, ResetBarr).(c2 := n)
    case ResetBarr => Goto(s, t, ReturnOne).(barr := -1, round := s.round + 1)
    case ReturnOne => Return(s, t, true)
    case Follow => Goto(s, t, ReturnZero).(c2 := s.c2 - 1)
    case ReturnZero => Return(s, t, false)
  }

  ghost predicate Next(n: nat, r: nat, s: State, s': State) {
    Shape(n, s) && exists t: nat :: CanStep(n, r, s, t) && s' == Step(n, r, s, t)
  }

  ghost predicate Run(n: nat, r: nat, ss: seq<State>) {
    n >= 1 && |ss| >= 1 && ss[0] == Start(n) && forall i :: 0 <= i < |ss| - 1 ==> Next(n, r, ss[i], ss[i + 1])
  }

  // ---------------------------------------------------------------- the invariant

  // How far t is in the current round: 1 from its decrement of c1, 2 from its
  // increment of barr, 3 from its decrement of c2.
  ghost function Stage(s: State, t: nat): nat
    requires t < |s.pc| == |s.entered|
  {
    match s.pc[t]
    case Outside | ReturnZero => if s.entered[t] > s.round then 3 else 0
    case AwaitReset => if s.entered[t] > s.round + 1 then 3 else 0
    case Arrive | ReturnOne => 0
    case AwaitAll | Elect => 1
    case Lead | Follow => 2
    case AwaitOut | ResetC1 | ResetC2 | ResetBarr => 3
  }

  // How many of the threads below k have reached stage a.
  ghost function Count(n: nat, s: State, a: nat, k: nat): nat
    requires Shape(n, s) && k <= n
  {
    if k == 0 then 0 else Count(n, s, a, k - 1) + (if Stage(s, k - 1) >= a then 1 else 0)
  }

  ghost predicate Leading(p: PC) {
    p.Lead? || p.AwaitOut? || p.ResetC1? || p.ResetC2? || p.ResetBarr?
  }

  // The thread's own bookkeeping.
  ghost predicate Placed(n: nat, s: State, t: nat)
    requires Shape(n, s) && t < n
  {
    var e := s.entered[t];
    && e == |s.results[t]| + (if s.pc[t] == Outside then 0 else 1)
    && match s.pc[t]
       case Outside | ReturnZero => s.round <= e <= s.round + 1
       case AwaitReset => s.round + 1 <= e <= s.round + 2
       case ReturnOne => e == s.round
       case _ => e == s.round + 1
  }

  // Whether call j of thread t was, or is going to be, the one that returns 1.
  ghost predicate Leads(n: nat, s: State, t: nat, j: nat)
    requires Shape(n, s) && t < n
  {
    if j < |s.results[t]| then s.results[t][j]
    else s.entered[t] == j + 1 && (Leading(s.pc[t]) || s.pc[t] == ReturnOne)
  }

  ghost predicate Elections(n: nat, s: State)
    requires Shape(n, s)
  {
    && |s.leader| == s.round + (if s.barr >= 0 then 1 else 0)
    && (forall j: nat :: j < |s.leader| ==> s.leader[j] < n)
    && (s.barr >= 0 ==> Leading(s.pc[s.leader[s.round]]))
    && forall t: nat, j: nat :: t < n ==> (Leads(n, s, t, j) <==> j < |s.leader| && s.leader[j] == t)
  }

  // Where the leader of the current round is, once there is one.
  ghost function LeaderPC(n: nat, s: State): PC
    requires Shape(n, s)
  {
    if s.barr >= 0 && |s.leader| == s.round + 1 && s.leader[s.round] < n then s.pc[s.leader[s.round]] else Outside
  }

  // The counters tell how many threads have reached each stage, save while they
  // are being reset.
  ghost predicate Counters(n: nat, s: State)
    requires Shape(n, s)
  {
    var p := LeaderPC(n, s);
    && s.c1 == (if p.ResetC2? || p.ResetBarr? then n else n - Count(n, s, 1, n))
    && s.c2 == (if p.ResetBarr? then n else n - Count(n, s, 3, n))
    && s.barr == Count(n, s, 2, n) - 1
  }

  ghost predicate Phases(n: nat, s: State)
    requires Shape(n, s)
  {
    && (forall t: nat, u: nat :: t < n && u < n && (s.pc[t] == Elect || Stage(s, t) >= 2) ==> Stage(s, u) >= 1)
    && (forall t: nat, u: nat :: t < n && u < n && (s.pc[t].ResetC1? || s.pc[t].ResetC2? || s.pc[t].ResetBarr?) ==>
        Stage(s, u) == 3)
  }

  ghost predicate Inv(n: nat, s: State) {
    && Shape(n, s)
    && (forall t: nat :: t < n ==> Placed(n, s, t))
    && Phases(n, s)
    && Elections(n, s)
    && Counters(n, s)
  }

  // ---------------------------------------------------------------- counting

  lemma {:induction false} CountAll(n: nat, s: State, a: nat, k: nat)
    requires Shape(n, s) && k <= n
    ensures Count(n, s, a, k) <= k
    ensures Count(n, s, a, k) == k <==> forall u: nat :: u < k ==> Stage(s, u) >= a
  {
    if k > 0 { CountAll(n, s, a, k - 1); }
  }

  lemma {:induction false} CountNone(n: nat, s: State, a: nat, k: nat)
    requires Shape(n, s) && k <= n
    ensures Count(n, s, a, k) == 0 <==> forall u: nat :: u < k ==> Stage(s, u) < a
  {
    if k > 0 { CountNone(n, s, a, k - 1); }
  }

  lemma {:induction false} CountMove(n: nat, s: State, s': State, a: nat, k: nat, t: nat)
    requires Shape(n, s) && Shape(n, s') && k <= n && t < n
    requires forall u: nat :: u < n && u != t ==> Stage(s', u) == Stage(s, u)
    ensures Count(n, s', a, k) - Count(n, s, a, k) ==
              if t < k then (if Stage(s', t) >= a then 1 else 0) - (if Stage(s, t) >= a then 1 else 0) else 0
  {
    hide Stage;
    if k > 0 { CountMove(n, s, s', a, k - 1, t); }
  }

  // ---------------------------------------------------------------- what a thread knows where it is

  // The one in the leader's part of the code is the one elected this round.
  lemma LeaderIsElected(n: nat, s: State, t: nat)
    requires Inv(n, s) && t < n && Leading(s.pc[t])
    ensures s.barr >= 0 && |s.leader| == s.round + 1 && s.leader[s.round] == t
  {
    assert Placed(n, s, t) && Leads(n, s, t, s.round);
    CountNone(n, s, 2, n);
    hide Count;
  }

  lemma ArrivesInRound(n: nat, s: State, t: nat)
    requires Inv(n, s) && t < n && s.pc[t] == AwaitReset && s.barr == -1
    ensures s.entered[t] == s.round + 1
  {
    assert Placed(n, s, t);
    CountNone(n, s, 2, n);
    assert Stage(s, t) < 2;
    hide Count;
  }

  lemma AllArrived(n: nat, s: State, t: nat)
    requires Inv(n, s) && t < n && s.pc[t] == AwaitAll && s.c1 == 0
    ensures forall u: nat :: u < n ==> Stage(s, u) >= 1
  {
    CountAll(n, s, 1, n);
    hide Count, Stage, Placed, Elections, Phases;
  }

  lemma AllOut(n: nat, s: State, t: nat)
    requires Inv(n, s) && t < n && s.pc[t] == AwaitOut && s.c2 == 0
    ensures forall u: nat :: u < n ==> Stage(s, u) == 3
  {
    LeaderIsElected(n, s, t);
    CountAll(n, s, 3, n);
    hide Count, Placed, Elections, Phases;
    assert forall u: nat :: u < n ==> 3 <= Stage(s, u) <= 3;
  }

  // ---------------------------------------------------------------- every step keeps the invariant

  // What a step of t leaves of the others; the reset of barr starts a new round.
  lemma StepIsLocal(n: nat, r: nat, s: State, t: nat)
    requires Shape(n, s) && CanStep(n, r, s, t)
    ensures var s' := Step(n, r, s, t);
      && Shape(n, s')
      && (forall u: nat :: u < n && u != t ==>
            s'.pc[u] == s.pc[u] && s'.entered[u] == s.entered[u] && s'.results[u] == s.results[u])
      && (s.pc[t] != ResetBarr ==>
            s'.round == s.round && forall u: nat :: u < n && u != t ==> Stage(s', u) == Stage(s, u))
  {
  }

  lemma StepPlaces(n: nat, r: nat, s: State, t: nat, u: nat)
    requires Inv(n, s) && CanStep(n, r, s, t) && u < n
    ensures Shape(n, Step(n, r, s, t)) && Placed(n, Step(n, r, s, t), u)
  {
    StepIsLocal(n, r, s, t);
    assert Placed(n, s, t) && Placed(n, s, u);
    if s.pc[t] == AwaitReset { ArrivesInRound(n, s, t); }
    if s.pc[t] == ResetBarr {
      LeaderIsElected(n, s, t);
      assert Stage(s, u) == 3;
      if u != t && Leading(s.pc[u]) { LeaderIsElected(n, s, u); }
    }
    hide Inv;
    if u != t && s.pc[t] != ResetBarr { hide Step, CanStep; }
  }

  lemma StepPhases(n: nat, r: nat, s: State, t: nat)
    requires Inv(n, s) && CanStep(n, r, s, t) && s.pc[t] != ResetBarr
    ensures var s' := Step(n, r, s, t); Shape(n, s') && Phases(n, s')
  {
    var s' := Step(n, r, s, t);
    StepIsLocal(n, r, s, t);
    OwnStage(n, r, s, t);
    assert Shape(n, s) && Phases(n, s);
    if s.pc[t] == AwaitAll { AllArrived(n, s, t); }
    if s.pc[t] == AwaitOut { AllOut(n, s, t); }
    MovingStage(n, r, s, t);
    hide Inv, Stage, Step, CanStep;
    forall v: nat, u: nat | v < n && u < n && (s'.pc[v] == Elect || Stage(s', v) >= 2)
      ensures Stage(s', u) >= 1
    {
      assert s.pc[v] == Elect || Stage(s, v) >= 2 ==> Stage(s, u) >= 1;
    }
    forall v: nat, u: nat | v < n && u < n && (s'.pc[v].ResetC1? || s'.pc[v].ResetC2? || s'.pc[v].ResetBarr?)
      ensures Stage(s', u) == 3
    {
      assert s.pc[v].ResetC1? || s.pc[v].ResetC2? || s.pc[v].ResetBarr? ==> Stage(s, u) == 3;
    }
  }

  lemma MovingStage(n: nat, r: nat, s: State, t: nat)
    requires Inv(n, s) && CanStep(n, r, s, t) && s.pc[t] != ResetBarr
    ensures s.pc[t].Arrive? ==> Stage(s, t) == 0
    ensures s.pc[t].Elect? ==> Stage(s, t) == 1
    ensures s.pc[t].Lead? || s.pc[t].Follow? ==> Stage(s, t) == 2
  {
  }

  // The stage and place of the thread that moves.
  lemma OwnStage(n: nat, r: nat, s: State, t: nat)
    requires Inv(n, s) && CanStep(n, r, s, t) && s.pc[t] != ResetBarr
    ensures var s' := Step(n, r, s, t);
      && Shape(n, s')
      && Stage(s', t) ==
            Stage(s, t) + (if s.pc[t].Arrive? || s.pc[t].Elect? || s.pc[t].Lead? || s.pc[t].Follow? then 1 else 0)
      && (s'.pc[t] == Elect <==> s.pc[t] == AwaitAll)
      && (s'.pc[t] == ResetC1 <==> s.pc[t] == AwaitOut)
      && (s'.pc[t] == ResetC2 <==> s.pc[t] == ResetC1)
      && (s'.pc[t] == ResetBarr <==> s.pc[t] == ResetC2)
      && s'.c1 == (if s.pc[t] == Arrive then s.c1 - 1 else if s.pc[t] == ResetC1 then n else s.c1)
      && s'.c2 == (if s.pc[t] == Lead || s.pc[t] == Follow then s.c2 - 1 else if s.pc[t] == ResetC2 then n else s.c2)
      && s'.barr == (if s.pc[t] == Elect then s.barr + 1 else s.barr)
      && s'.leader == (if s.pc[t] == Elect && s.barr == -1 then s.leader + [t] else s.leader)
  {
    assert Placed(n, s, t) && Shape(n, s);
    if s.pc[t] == AwaitReset { ArrivesInRound(n, s, t); }
    hide Inv;
  }

  // Only by being elected does a call come to lead.
  lemma StepLeads(n: nat, r: nat, s: State, t: nat, u: nat, j: nat)
    requires Shape(n, s) && CanStep(n, r, s, t) && u < n && Placed(n, s, t)
    ensures Shape(n, Step(n, r, s, t))
    ensures Leads(n, Step(n, r, s, t), u, j) <==>
              (Leads(n, s, u, j) || (u == t && s.pc[t] == Elect && s.barr == -1 && j == s.round))
  {
    StepIsLocal(n, r, s, t);
    if u != t { hide Step, CanStep; }
  }

  lemma StepElections(n: nat, r: nat, s: State, t: nat)
    requires Inv(n, s) && CanStep(n, r, s, t)
    ensures var s' := Step(n, r, s, t); Shape(n, s') && Elections(n, s')
  {
    var s' := Step(n, r, s, t);
    StepIsLocal(n, r, s, t);
    assert Placed(n, s, t) && Shape(n, s) && Elections(n, s);
    assert s.barr >= -1;
    if Leading(s.pc[t]) { LeaderIsElected(n, s, t); }
    StepLeader(n, r, s, t);
    hide Inv, Leads, Step, CanStep;
    forall u: nat, j: nat | u < n
      ensures Leads(n, s', u, j) <==> j < |s'.leader| && s'.leader[j] == u
    {
      assert Leads(n, s, u, j) <==> j < |s.leader| && s.leader[j] == u;
      StepLeads(n, r, s, t, u, j);
    }
  }

  lemma StepLeader(n: nat, r: nat, s: State, t: nat)
    requires Shape(n, s) && CanStep(n, r, s, t) && s.barr >= -1
    requires Leading(s.pc[t]) ==> s.barr >= 0
    ensures var s' := Step(n, r, s, t);
      && s'.leader == (if s.pc[t] == Elect && s.barr == -1 then s.leader + [t] else s.leader)
      && (s'.barr >= 0 <==> (s.barr >= 0 && s.pc[t] != ResetBarr) || (s.pc[t] == Elect))
      && s'.round == (if s.pc[t] == ResetBarr then s.round + 1 else s.round)
      && (s.pc[t] == Elect && s.barr == -1 ==> s'.pc[t] == Lead)
      && (Leading(s.pc[t]) && s.pc[t] != ResetBarr ==> Leading(s'.pc[t]))
  {
  }

  lemma StepLeaderPC(n: nat, r: nat, s: State, t: nat)
    requires Inv(n, s) && CanStep(n, r, s, t) && s.pc[t] != ResetBarr
    ensures var s', p := Step(n, r, s, t), LeaderPC(n, s);
      && Shape(n, s')
      && (if Leading(s.pc[t]) then p == s.pc[t] && LeaderPC(n, s') == s'.pc[t]
          else if s.pc[t] == Elect && s.barr == -1 then p == Outside && LeaderPC(n, s') == Lead
          else LeaderPC(n, s') == p && (p.ResetC2? || p.ResetBarr? ==> Stage(s, t) == 3))
  {
    StepIsLocal(n, r, s, t);
    OwnStage(n, r, s, t);
    assert Shape(n, s) && Elections(n, s) && Phases(n, s);
    assert s.barr >= -1;
    if Leading(s.pc[t]) { LeaderIsElected(n, s, t); }
    hide Inv, Stage, Leads, Count;
  }

  lemma StepCounters(n: nat, r: nat, s: State, t: nat)
    requires Inv(n, s) && CanStep(n, r, s, t) && s.pc[t] != ResetBarr
    ensures var s' := Step(n, r, s, t); Shape(n, s') && Counters(n, s')
  {
    var s' := Step(n, r, s, t);
    StepIsLocal(n, r, s, t);
    OwnStage(n, r, s, t);
    StepLeaderPC(n, r, s, t);
    CountMove(n, s, s', 1, n, t);
    CountMove(n, s, s', 2, n, t);
    CountMove(n, s, s', 3, n, t);
    assert Shape(n, s) && Placed(n, s, t) && Counters(n, s);
    hide Inv, Count, LeaderPC;
  }

  // The end of a round: everyone starts the next one, with the counters as at the start.
  lemma ResetStep(n: nat, r: nat, s: State, t: nat)
    requires Inv(n, s) && CanStep(n, r, s, t) && s.pc[t] == ResetBarr
    ensures var s' := Step(n, r, s, t);
      && Shape(n, s') && Phases(n, s') && Counters(n, s')
      && s'.c1 == n && s'.c2 == n && s'.barr == -1
  {
    var s' := Step(n, r, s, t);
    LeaderIsElected(n, s, t);
    assert Counters(n, s);
    forall u: nat | u < n
      ensures Stage(s', u) == 0 && !s'.pc[u].Elect? && !s'.pc[u].ResetC1? && !s'.pc[u].ResetC2? && !s'.pc[u].ResetBarr?
    {
      assert Stage(s, u) == 3 && Placed(n, s, u);
      if u != t && Leading(s.pc[u]) { LeaderIsElected(n, s, u); }
      hide Inv;
    }
    CountNone(n, s', 1, n);
    CountNone(n, s', 2, n);
    CountNone(n, s', 3, n);
    hide Inv, Count, Stage;
  }

  lemma StartInv(n: nat)
    requires n >= 1
    ensures Inv(n, Start(n))
  {
    CountNone(n, Start(n), 1, n);
    CountNone(n, Start(n), 2, n);
    CountNone(n, Start(n), 3, n);
    hide Count;
  }

  lemma NextKeepsInv(n: nat, r: nat, s: State, s': State)
    requires Inv(n, s) && Next(n, r, s, s')
    ensures Inv(n, s')
  {
    var t: nat :| CanStep(n, r, s, t) && s' == Step(n, r, s, t);
    hide CanStep, Step, Placed, Phases, Elections, Counters;
    forall u: nat | u < n
      ensures Shape(n, s') && Placed(n, s', u)
    {
      StepPlaces(n, r, s, t, u);
    }
    StepElections(n, r, s, t);
    if s.pc[t] == ResetBarr {
      ResetStep(n, r, s, t);
    } else {
      StepPhases(n, r, s, t);
      StepCounters(n, r, s, t);
    }
  }

  lemma {:induction false} RunInv(n: nat, r: nat, ss: seq<State>, i: nat)
    requires Run(n, r, ss) && i < |ss|
    ensures Inv(n, ss[i])
  {
    if i == 0 {
      StartInv(n);
    } else {
      RunInv(n, r, ss, i - 1);
      NextKeepsInv(n, r, ss[i - 1], ss[i]);
    }
  }

  // ---------------------------------------------------------------- what the barrier does

  ghost function Calls(n: nat, s: State): B.Calls
    requires Shape(n, s)
  {
    B.Calls(s.entered, seq(n, t requires 0 <= t < n => |s.results[t]|))
  }

  // A thread past the election has seen everyone arrive; one that returns, too.
  lemma ReturnsTogether(n: nat, s: State, t: nat, u: nat)
    requires Inv(n, s) && t < n && u < n && (s.pc[t] == ReturnOne || s.pc[t] == ReturnZero)
    ensures s.entered[u] >= s.entered[t]
  {
    assert Placed(n, s, t) && Placed(n, s, u) && Shape(n, s);
    assert Stage(s, t) >= 2 ==> Stage(s, u) >= 1;
    hide Inv;
  }

  // Every step is a step of the abstract barrier, or invisible to it: nobody
  // completes a call that somebody has not begun, even when a fast thread calls
  // again during the leader's reset.
  lemma RefinesAbstractBarrier(n: nat, r: nat, s: State, s': State)
    requires Inv(n, s) && Next(n, r, s, s')
    ensures Shape(n, s) && Shape(n, s')
    ensures Calls(n, s') == Calls(n, s) || B.Next(n, Calls(n, s), Calls(n, s'))
  {
    var t: nat :| CanStep(n, r, s, t) && s' == Step(n, r, s, t);
    assert Shape(n, s) && Placed(n, s, t);
    StepIsLocal(n, r, s, t);
    if s.pc[t] == ReturnOne || s.pc[t] == ReturnZero {
      forall u: nat | u < n
        ensures s.entered[u] >= s.entered[t]
      {
        ReturnsTogether(n, s, t, u);
      }
    }
    hide Inv;
    StepCalls(n, r, s, t);
    hide Step, CanStep;
    if Calls(n, s') != Calls(n, s) {
      assert B.ThreadStep(n, Calls(n, s), Calls(n, s'), t);
    }
  }

  lemma StepCalls(n: nat, r: nat, s: State, t: nat)
    requires Shape(n, s) && CanStep(n, r, s, t) && Placed(n, s, t)
    ensures Shape(n, Step(n, r, s, t))
    ensures var c, c' := Calls(n, s), Calls(n, Step(n, r, s, t));
      if s.pc[t] == Outside then c' == B.Enter(c, t)
      else if s.pc[t] == ReturnOne || s.pc[t] == ReturnZero then c' == B.Leave(c, t)
      else c' == c
  {
  }

  lemma {:induction false} RunIsSafe(n: nat, r: nat, ss: seq<State>, i: nat)
    requires Run(n, r, ss) && i < |ss|
    ensures Shape(n, ss[i]) && B.Together(n, Calls(n, ss[i]))
  {
    RunInv(n, r, ss, i);
    if i > 0 {
      RunIsSafe(n, r, ss, i - 1);
      RunInv(n, r, ss, i - 1);
      RefinesAbstractBarrier(n, r, ss[i - 1], ss[i]);
      hide Inv, Next, Calls;
      if Calls(n, ss[i]) != Calls(n, ss[i - 1]) {
        B.NextKeepsTogether(n, Calls(n, ss[i - 1]), Calls(n, ss[i]));
      }
    }
  }

  ghost predicate ReturnsOne(s: State, t: nat, k: nat)
    requires t < |s.results|
  {
    k < |s.results[t]| && s.results[t][k]
  }

  // Exactly one call of each round returns 1, once all have returned; and never two.
  lemma OneLeaderPerRound(n: nat, r: nat, ss: seq<State>, i: nat, k: nat)
    requires Run(n, r, ss) && i < |ss|
    ensures Shape(n, ss[i])
    ensures forall t: nat, u: nat :: t < n && u < n && ReturnsOne(ss[i], t, k) && ReturnsOne(ss[i], u, k) ==> t == u
    ensures (forall t: nat :: t < n ==> k < |ss[i].results[t]|) ==> exists t: nat :: t < n && ReturnsOne(ss[i], t, k)
  {
    var s := ss[i];
    RunInv(n, r, ss, i);
    assert Elections(n, s);
    forall t: nat | t < n && k < |s.results[t]|
      ensures s.results[t][k] <==> k < |s.leader| && s.leader[k] == t
    {
      assert Leads(n, s, t, k) <==> k < |s.leader| && s.leader[k] == t;
    }
    if forall t: nat :: t < n ==> k < |s.results[t]| {
      RoundOver(n, s, k);
      var t := s.leader[k];
      assert ReturnsOne(s, t, k);
    }
  }

  lemma RoundOver(n: nat, s: State, k: nat)
    requires Inv(n, s) && forall t: nat :: t < n ==> k < |s.results[t]|
    ensures k < |s.leader| && s.leader[k] < n
  {
    assert Placed(n, s, 0);
    CountNone(n, s, 2, n);
    hide Count;
    if s.round <= k {
      assert Stage(s, 0) == 3;
    }
  }

  // ---------------------------------------------------------------- it always finishes

  ghost predicate Within(n: nat, r: nat, s: State)
    requires Shape(n, s)
  {
    forall t: nat :: t < n ==> s.entered[t] <= r
  }

  // Whoever keeps the others spinning can move.
  lemma Mover(n: nat, r: nat, s: State, t: nat) returns (u: nat)
    requires Inv(n, s) && Within(n, r, s) && t < n && |s.results[t]| < r
    ensures u < n && CanStep(n, r, s, u)
  {
    assert Placed(n, s, t) && Shape(n, s);
    u := t;
    if !CanStep(n, r, s, t) {
      if s.barr >= 0 {
        u := MoverAfterElection(n, r, s);
      } else if s.pc[t] == AwaitAll {
        u := Late(n, s, t);
        assert Placed(n, s, u);
        assert s.entered[t] == s.round + 1;
      } else if s.pc[t] == AwaitOut {
        LeaderIsElected(n, s, t);
      }
    }
  }

  // As long as c1 is not zero somebody has still to decrement it.
  lemma Late(n: nat, s: State, t: nat) returns (u: nat)
    requires Inv(n, s) && t < n && s.pc[t] == AwaitAll && s.c1 != 0 && s.barr < 0
    ensures u < n && Stage(s, u) == 0
  {
    CountAll(n, s, 1, n);
    hide Count, Stage, Placed, Phases, Elections;
    u :| u < n && Stage(s, u) < 1;
  }

  lemma MoverAfterElection(n: nat, r: nat, s: State) returns (u: nat)
    requires Inv(n, s) && s.barr >= 0
    ensures u < n && CanStep(n, r, s, u)
  {
    var t := s.leader[s.round];
    u := t;
    assert Shape(n, s) && Counters(n, s);
    if s.pc[t] == AwaitOut && s.c2 != 0 {
      CountAll(n, s, 3, n);
      assert LeaderPC(n, s) == AwaitOut;
      u :| u < n && Stage(s, u) < 3;
      CountAll(n, s, 1, n);
      assert Stage(s, t) == 3;
      assert 1 <= Stage(s, u) <= 2;
    }
  }

  // Some thread can move as long as there are calls to make or to finish.
  lemma NoDeadlock(n: nat, r: nat, ss: seq<State>, i: nat)
    requires Run(n, r, ss) && i < |ss|
    ensures Shape(n, ss[i])
    ensures (exists t: nat :: CanStep(n, r, ss[i], t)) <==> (exists t: nat :: t < n && |ss[i].results[t]| < r)
  {
    RunInv(n, r, ss, i);
    RunWithin(n, r, ss, i);
    if t: nat :| t < n && |ss[i].results[t]| < r {
      var u := Mover(n, r, ss[i], t);
    } else {
      forall t: nat | t < n
        ensures !CanStep(n, r, ss[i], t)
      {
        assert Placed(n, ss[i], t);
      }
    }
  }

  lemma {:induction false} RunWithin(n: nat, r: nat, ss: seq<State>, i: nat)
    requires Run(n, r, ss) && i < |ss|
    ensures Shape(n, ss[i]) && Within(n, r, ss[i])
  {
    RunInv(n, r, ss, i);
    if i > 0 {
      RunWithin(n, r, ss, i - 1);
      var t: nat :| CanStep(n, r, ss[i - 1], t) && ss[i] == Step(n, r, ss[i - 1], t);
      StepIsLocal(n, r, ss[i - 1], t);
      hide Inv;
    }
  }

  ghost function Rank(p: PC): nat {
    match p
    case AwaitReset => 0
    case Arrive => 1
    case AwaitAll => 2
    case Elect => 3
    case Lead | Follow => 4
    case AwaitOut => 5
    case ResetC1 => 6
    case ResetC2 => 7
    case ResetBarr => 8
    case ReturnOne | ReturnZero => 9
    case Outside => 10
  }

  ghost function Progress(n: nat, s: State, k: nat): nat
    requires Shape(n, s) && k <= n
  {
    if k == 0 then 0 else Progress(n, s, k - 1) + 11 * s.entered[k - 1] + Rank(s.pc[k - 1])
  }

  lemma {:induction false} ProgressMove(n: nat, s: State, s': State, k: nat, t: nat)
    requires Shape(n, s) && Shape(n, s') && k <= n && t < n
    requires forall u: nat :: u < n && u != t ==> s'.pc[u] == s.pc[u] && s'.entered[u] == s.entered[u]
    requires 11 * s'.entered[t] + Rank(s'.pc[t]) > 11 * s.entered[t] + Rank(s.pc[t])
    ensures Progress(n, s', k) >= Progress(n, s, k) + (if t < k then 1 else 0)
  {
    hide Rank;
    if k > 0 { ProgressMove(n, s, s', k - 1, t); }
  }

  lemma {:induction false} ProgressBound(n: nat, r: nat, s: State, k: nat)
    requires Shape(n, s) && Within(n, r, s) && k <= n
    ensures Progress(n, s, k) <= k * (11 * r + 10)
  {
    if k > 0 {
      ProgressBound(n, r, s, k - 1);
      assert k * (11 * r + 10) == (k - 1) * (11 * r + 10) + (11 * r + 10);
    }
  }

  // Not counting idle turns of the spin loops, no run of r calls a thread is longer
  // than this; with NoDeadlock, every run goes on until all calls are made.
  lemma RunEnds(n: nat, r: nat, ss: seq<State>, i: nat)
    requires Run(n, r, ss) && i < |ss|
    ensures i <= n * (11 * r + 10)
  {
    RunProgress(n, r, ss, i);
    RunWithin(n, r, ss, i);
    ProgressBound(n, r, ss[i], n);
  }

  lemma {:induction false} RunProgress(n: nat, r: nat, ss: seq<State>, i: nat)
    requires Run(n, r, ss) && i < |ss|
    ensures Shape(n, ss[i]) && i <= Progress(n, ss[i], n)
  {
    if i > 0 {
      RunProgress(n, r, ss, i - 1);
      assert Next(n, r, ss[i - 1], ss[i]);
      var t: nat :| CanStep(n, r, ss[i - 1], t) && ss[i] == Step(n, r, ss[i - 1], t);
      StepIsLocal(n, r, ss[i - 1], t);
      StepRank(n, r, ss[i - 1], t);
      hide Step, CanStep, Next, Rank;
      ProgressMove(n, ss[i - 1], ss[i], n, t);
    }
  }

  lemma StepRank(n: nat, r: nat, s: State, t: nat)
    requires Shape(n, s) && CanStep(n, r, s, t)
    ensures var s' := Step(n, r, s, t);
      Shape(n, s') && 11 * s'.entered[t] + Rank(s'.pc[t]) > 11 * s.entered[t] + Rank(s.pc[t])
  {
  }
}

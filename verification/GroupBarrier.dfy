// thread.c, thread_barrier_no_limit: a two-level barrier for any number of
// threads, as a transition system at the grain of single lock, wait, signal and
// counter operations.
module GroupBarrier {
  import opened BarrierGroups
  import AbstractBarrier

  // ---------------------------------------------------------------- who waits for whom

  // The primary waits for the coordinators, a coordinator for its members.
  function Boss(n: nat, t: nat): int
    requires t >= 1
  {
    if IsCoordinator(n, t) then 0 else CoordinatorOf(n, t)
  }

  // The loops in which a boss signals its subordinates run over LoopStart <= i < LoopEnd.
  function LoopStart(b: nat): int {
    if b == 0 then 0 else 1
  }

  function LoopEnd(n: nat, b: nat): int {
    if b == 0 then NumGroups(n) else if IsCoordinator(n, b) then GroupSize(n, b) else 1
  }

  function Target(n: nat, b: nat, i: int): int {
    if b == 0 then Coordinator(n, i) else b + i
  }

  // The loop index at which t is signalled.
  function Index(n: nat, t: nat): int
    requires t >= 1
  {
    if IsCoordinator(n, t) then (t - 1) / ThreadsPerGroup(n) else t - CoordinatorOf(n, t)
  }

  // The count a boss waits for; a coordinator counts itself too.
  function Need(n: nat, b: int): int {
    if b == 0 then NumGroups(n) else GroupSize(n, b)
  }

  // Whether the c-th arrival makes t signal its boss.
  predicate SignalsBoss(n: nat, t: nat, c: int)
    requires t >= 1
  {
    if IsCoordinator(n, t) then
      c == NumGroups(n)
    else
      c == ThreadsPerGroup(n) || (CoordinatorOf(n, t) == LastGroupCoordId(n) && c == LastGroupSize(n))
  }

  lemma UpEdge(n: nat, t: nat)
    requires n >= 2 && 1 <= t < n
    ensures var b := Boss(n, t);
      && 0 <= b < n && b != t && (b != 0 ==> IsCoordinator(n, b) && !IsCoordinator(n, t))
      && (b == 0 ==> IsCoordinator(n, t))
      && LoopStart(b) <= Index(n, t) < LoopEnd(n, b) && Target(n, b, Index(n, t)) == t
  {
    var q, r := WorkerPlace(n, t);
    GroupRange(n, q);
    hide ThreadsPerGroup, NumGroups;
    var g := ThreadsPerGroup(n);
    GroupsPartitionWorkers(n, t);
    DivModUnique(t - 1, g, q, r);
  }

  lemma DownEdge(n: nat, b: nat, i: int)
    requires n >= 2 && b < n && LoopStart(b) <= i < LoopEnd(n, b)
    ensures var t := Target(n, b, i); 1 <= t < n && Boss(n, t) == b && Index(n, t) == i
  {
    hide ThreadsPerGroup, NumGroups;
    var g := ThreadsPerGroup(n);
    if b == 0 {
      GroupRange(n, i);
      var q, r := WorkerPlace(n, Target(n, b, i));
      DivModUnique(Target(n, b, i) - 1, g, q, r);
      DivModUnique(Target(n, b, i) - 1, g, i, 0);
    } else {
      var q, r := WorkerPlace(n, b);
      GroupRange(n, q);
      var q', r' := WorkerPlace(n, b + i);
      DivModUnique(b + i - 1, g, q, i);
      DivModUnique(b + i - 1, g, q', r');
    }
  }

  lemma NeedIsFan(n: nat, b: nat)
    requires n >= 2 && b < n && (b != 0 ==> IsCoordinator(n, b))
    ensures Need(n, b) == LoopEnd(n, b) - LoopStart(b) + (if b == 0 then 0 else 1)
    ensures LoopStart(b) <= LoopEnd(n, b)
  {
    if b > 0 {
      var q, r := WorkerPlace(n, b);
      GroupRange(n, q);
    }
  }

  // The last arrival, and no other, signals.
  lemma SignalAtNeed(n: nat, t: nat, c: int)
    requires n >= 2 && 1 <= t < n && c <= Need(n, Boss(n, t))
    ensures SignalsBoss(n, t, c) <==> c == Need(n, Boss(n, t))
  {
    var q, r := WorkerPlace(n, t);
    GroupRange(n, q);
  }

  // ---------------------------------------------------------------- states and steps

  // Where a thread is inside the call; the comment names what it is about to do.
  datatype PC =
    | Outside          // call the barrier
    | WantOwn          // lock its own mutex (thread 0: mutex 0)
    | Check            // test its count
    | Waiting          // blocked on its proceedCond
    | Woken            // lock its own mutex again after that wait
    | Report           // lock the boss's mutex
    | Reporting        // count itself there, maybe signal, unlock it
    | Pause            // wait on its proceedAllCond
    | WaitAll          // blocked on its proceedAllCond
    | WokenAll         // lock its own mutex again after that wait
    | Release(i: int)  // lock the mutex of subordinate i, or after the last one reset and leave
    | Releasing(i: int)// signal subordinate i, unlock its mutex
    | Leave            // unlock its own mutex and return

  // left counts the completed calls, entered the begun ones.
  datatype State = State(pc: seq<PC>, count: seq<int>, entered: seq<nat>, left: seq<nat>)

  ghost predicate WellFormed(n: nat, s: State) {
    |s.pc| == n && |s.count| == n && |s.entered| == n && |s.left| == n
  }

  ghost function Start(n: nat): State {
    State(seq(n, _ => Outside), seq(n, _ => 0), seq(n, _ => 0), seq(n, _ => 0))
  }

  // The mutexes a thread holds.
  ghost function Held(n: nat, t: nat, p: PC): set<int> {
    match p
    case Check | Report | Pause | Release(_) | Leave => {t}
    case Reporting => if t >= 1 then {t, Boss(n, t)} else {t}
    case Releasing(i) => {t, Target(n, t, i)}
    case _ => {}
  }

  ghost predicate Free(n: nat, s: State, m: int)
    requires WellFormed(n, s)
  {
    forall t: nat :: t < n ==> m !in Held(n, t, s.pc[t])
  }

  // Whether thread t can take a step of its own. Each thread calls the barrier r times.
  ghost predicate CanStep(n: nat, r: nat, s: State, t: nat)
    requires WellFormed(n, s)
  {
    && t < n
    && match s.pc[t]
       case Outside => s.entered[t] < r
       case WantOwn | Woken | WokenAll => Free(n, s, t)
       case Waiting | WaitAll => false
       case Report => t >= 1 && Free(n, s, Boss(n, t))
       case Reporting => t >= 1 && 0 <= Boss(n, t) < n
       case Release(i) => i < LoopEnd(n, t) ==> Free(n, s, Target(n, t, i))
       case Releasing(i) => 0 <= Target(n, t, i) < n
       case _ => true
  }

  ghost function Goto(s: State, t: nat, p: PC): State
    requires t < |s.pc|
  {
    s.(pc := s.pc[t := p])
  }

  ghost function Returned(s: State, t: nat): State
    requires t < |s.pc| && t < |s.left|
  {
    Goto(s, t, Outside).(left := s.left[t := s.left[t] + 1])
  }

  // A signal on a condition variable that only thread t waits on, in state p.
  ghost function Signal(s: State, t: nat, p: PC, woken: PC): State
    requires t < |s.pc|
  {
    if s.pc[t] == p then Goto(s, t, woken) else s
  }

  // The step a thread takes: each thread is sequential, so it has only one.
  ghost function Step(n: nat, r: nat, s: State, t: nat): State
    requires WellFormed(n, s) && CanStep(n, r, s, t)
  {
    match s.pc[t]
    case Outside => Goto(s, t, WantOwn).(entered := s.entered[t := s.entered[t] + 1])
    case WantOwn =>
      if t == 0 then Goto(s, t, Check)
      else if IsCoordinator(n, t) then Goto(s, t, Check).(count := s.count[t := s.count[t] + 1])
      else Goto(s, t, Report)
    case Check =>
      Goto(s, t, if s.count[t] < Need(n, t) then Waiting else if t == 0 then Release(0) else Report)
    case Woken => Goto(s, t, Check)
    case Report => Goto(s, t, Reporting)
    case Reporting =>
      var b := Boss(n, t);
      var s' := Goto(s, t, Pause).(count := s.count[b := s.count[b] + 1]);
      if SignalsBoss(n, t, s'.count[b]) then Signal(s', b, Waiting, Woken) else s'
    case Pause => Goto(s, t, WaitAll)
    case WokenAll => Goto(s, t, if IsCoordinator(n, t) then Release(1) else Leave)
    case Release(i) =>
      if i < LoopEnd(n, t) then Goto(s, t, Releasing(i))
      else Returned(s, t).(count := s.count[t := 0])
    case Releasing(i) => Signal(Goto(s, t, Release(i + 1)), Target(n, t, i), WaitAll, WokenAll)
    case Leave => Returned(s, t)
  }

  // A spurious wakeup from a wait that sits in a re-testing loop. The waits on
  // proceedAllCond do not, and are taken to have none.
  ghost predicate CanWakeSpuriously(n: nat, s: State, t: nat)
    requires WellFormed(n, s)
  {
    t < n && s.pc[t] == Waiting
  }

  ghost predicate Next(n: nat, r: nat, s: State, s': State) {
    && WellFormed(n, s)
    && exists t: nat :: (CanStep(n, r, s, t) && s' == Step(n, r, s, t))
                     || (CanWakeSpuriously(n, s, t) && s' == Goto(s, t, Woken))
  }

  ghost predicate Run(n: nat, r: nat, ss: seq<State>) {
    |ss| >= 1 && ss[0] == Start(n) && forall i :: 0 <= i < |ss| - 1 ==> Next(n, r, ss[i], ss[i + 1])
  }

  // ---------------------------------------------------------------- the invariant

  // Calls in which t has counted itself with its boss.
  ghost function Reported(s: State, t: nat): int
    requires t < |s.pc| == |s.entered|
  {
    s.entered[t] - (match s.pc[t] case WantOwn | Check | Waiting | Woken | Report | Reporting => 1 case _ => 0)
  }

  // Calls in which t has been signalled to go on.
  ghost function Signalled(s: State, t: nat): int
    requires t < |s.pc| == |s.left|
  {
    s.left[t] + (match s.pc[t] case WokenAll | Release(_) | Releasing(_) | Leave => 1 case _ => 0)
  }

  // b has seen its count complete in the current call.
  ghost predicate PastCheck(s: State, b: nat)
    requires b < |s.pc|
  {
    match s.pc[b]
    case Report | Reporting | Pause | WaitAll | WokenAll | Release(_) | Releasing(_) => true
    case _ => false
  }

  // Subordinates with a smaller loop index have been signalled in the current call.
  ghost function SignalledUpTo(s: State, b: nat): int
    requires b < |s.pc|
  {
    match s.pc[b]
    case Release(i) => i
    case Releasing(i) => i
    case _ => LoopStart(b)
  }

  ghost predicate Edge(n: nat, s: State, t: nat)
    requires WellFormed(n, s) && 1 <= t < n && 0 <= Boss(n, t) < n
  {
    var b: nat := Boss(n, t);
    && s.left[b] <= Reported(s, t) <= s.left[b] + 1
    && Signalled(s, t) == s.left[b] + (if Index(n, t) < SignalledUpTo(s, b) then 1 else 0)
    && (PastCheck(s, b) ==> Reported(s, t) == s.left[b] + 1)
  }

  // Which places each kind of thread can be at.
  ghost predicate Placed(n: nat, t: nat, p: PC) {
    match p
    case Outside | WantOwn => true
    case Check | Waiting | Woken => t == 0 || IsCoordinator(n, t)
    case Report | Reporting | Pause | WaitAll | WokenAll => t >= 1
    case Release(i) => (t == 0 || IsCoordinator(n, t)) && LoopStart(t) <= i <= LoopEnd(n, t)
    case Releasing(i) => (t == 0 || IsCoordinator(n, t)) && LoopStart(t) <= i < LoopEnd(n, t)
    case Leave => t >= 1 && !IsCoordinator(n, t)
  }

  // How many of the subordinates below loop index k have reported in b's current call.
  ghost function Arrivals(n: nat, s: State, b: nat, k: int): nat
    requires WellFormed(n, s) && n >= 2 && b < n && k <= LoopEnd(n, b)
    decreases k - LoopStart(b)
  {
    if k <= LoopStart(b) then 0
    else
      DownEdge(n, b, k - 1);
      Arrivals(n, s, b, k - 1) + (if Reported(s, Target(n, b, k - 1)) == s.left[b] + 1 then 1 else 0)
  }

  // b counts itself, as a coordinator, from taking its mutex to leaving.
  ghost function OwnArrival(s: State, b: nat): nat
    requires b < |s.pc|
  {
    if b >= 1 && (PastCheck(s, b) || s.pc[b] == Check || s.pc[b] == Waiting || s.pc[b] == Woken) then 1 else 0
  }

  ghost predicate Counted(n: nat, s: State, b: nat)
    requires WellFormed(n, s) && n >= 2 && b < n
  {
    && s.count[b] == OwnArrival(s, b) + Arrivals(n, s, b, LoopEnd(n, b))
    && (s.pc[b] == Waiting ==> s.count[b] < Need(n, b))
  }

  ghost predicate Exclusive(n: nat, s: State)
    requires WellFormed(n, s)
  {
    forall t: nat, u: nat :: t < n && u < n && t != u ==> Held(n, t, s.pc[t]) !! Held(n, u, s.pc[u])
  }

  ghost predicate IsBoss(n: nat, b: nat) {
    b < n && (b == 0 || IsCoordinator(n, b))
  }

  ghost predicate Edges(n: nat, s: State)
    requires WellFormed(n, s)
  {
    forall x: nat :: 1 <= x < n ==> 0 <= Boss(n, x) < n && Edge(n, s, x)
  }

  ghost predicate Counts(n: nat, s: State)
    requires WellFormed(n, s) && n >= 2
  {
    forall b: nat :: IsBoss(n, b) ==> Counted(n, s, b)
  }

  ghost predicate Inv(n: nat, s: State) {
    && n >= 2 && WellFormed(n, s)
    && (forall t: nat :: t < n ==> s.entered[t] == s.left[t] + (if s.pc[t] == Outside then 0 else 1))
    && (forall t: nat :: t < n ==> Placed(n, t, s.pc[t]))
    && Exclusive(n, s)
    && Edges(n, s)
    && Counts(n, s)
  }

  // ---------------------------------------------------------------- counting arrivals

  lemma {:induction false} ArrivalsSame(n: nat, s: State, s': State, b: nat, k: int)
    requires WellFormed(n, s) && WellFormed(n, s') && n >= 2 && b < n && k <= LoopEnd(n, b)
    requires s'.left[b] == s.left[b]
    requires forall x: nat :: 1 <= x < n && Boss(n, x) == b && Index(n, x) < k ==> Reported(s', x) == Reported(s, x)
    ensures Arrivals(n, s', b, k) == Arrivals(n, s, b, k)
    decreases k - LoopStart(b)
  {
    if k > LoopStart(b) {
      DownEdge(n, b, k - 1);
      ArrivalsSame(n, s, s', b, k - 1);
    }
  }

  // One more subordinate, x, has reported.
  lemma {:induction false} ArrivalsGrow(n: nat, s: State, s': State, b: nat, k: int, x: nat)
    requires WellFormed(n, s) && WellFormed(n, s') && n >= 2 && b < n && k <= LoopEnd(n, b)
    requires s'.left[b] == s.left[b] && 1 <= x < n && Boss(n, x) == b && LoopStart(b) <= Index(n, x) < k
    requires Reported(s, x) == s.left[b] && Reported(s', x) == s.left[b] + 1
    requires forall y: nat :: 1 <= y < n && Boss(n, y) == b && y != x ==> Reported(s', y) == Reported(s, y)
    ensures Arrivals(n, s', b, k) == Arrivals(n, s, b, k) + 1
    decreases k - LoopStart(b)
  {
    DownEdge(n, b, k - 1);
    UpEdge(n, x);
    if Index(n, x) == k - 1 {
      ArrivalsSame(n, s, s', b, k - 1);
    } else {
      ArrivalsGrow(n, s, s', b, k - 1, x);
    }
  }

  lemma {:induction false} ArrivalsFull(n: nat, s: State, b: nat, k: int)
    requires WellFormed(n, s) && n >= 2 && b < n && LoopStart(b) <= k <= LoopEnd(n, b)
    ensures Arrivals(n, s, b, k) <= k - LoopStart(b)
    ensures Arrivals(n, s, b, k) == k - LoopStart(b) ==>
              forall x: nat :: 1 <= x < n && Boss(n, x) == b && Index(n, x) < k ==> Reported(s, x) == s.left[b] + 1
    ensures Arrivals(n, s, b, k) < k - LoopStart(b) ==>
              exists x: nat :: 1 <= x < n && Boss(n, x) == b && Reported(s, x) != s.left[b] + 1
    decreases k - LoopStart(b)
  {
    hide ThreadsPerGroup, IsCoordinator, CoordinatorOf;
    if k > LoopStart(b) {
      DownEdge(n, b, k - 1);
      ArrivalsFull(n, s, b, k - 1);
    }
    forall x: nat | 1 <= x < n && Boss(n, x) == b && Index(n, x) < k && Arrivals(n, s, b, k) == k - LoopStart(b)
      ensures Reported(s, x) == s.left[b] + 1
    {
      UpEdge(n, x);
    }
  }

  lemma {:induction false} ArrivalsNone(n: nat, s: State, b: nat, k: int)
    requires WellFormed(n, s) && n >= 2 && b < n && k <= LoopEnd(n, b)
    requires forall x: nat :: 1 <= x < n && Boss(n, x) == b ==> Reported(s, x) == s.left[b]
    ensures Arrivals(n, s, b, k) == 0
    decreases k - LoopStart(b)
  {
    if k > LoopStart(b) {
      DownEdge(n, b, k - 1);
      ArrivalsNone(n, s, b, k - 1);
    }
  }

  // ---------------------------------------------------------------- every step keeps the invariant

  ghost predicate OthersSame(n: nat, s: State, s': State, t: nat)
    requires WellFormed(n, s) && WellFormed(n, s') && t < n
  {
    forall u: nat :: u < n && u != t ==> s'.pc[u] == s.pc[u] && s'.entered[u] == s.entered[u] && s'.left[u] == s.left[u]
  }

  ghost predicate AllReported(n: nat, s: State, b: nat)
    requires WellFormed(n, s) && b < n
  {
    forall x: nat :: 1 <= x < n && Boss(n, x) == b ==> Reported(s, x) == s.left[b] + 1
  }

  // A step that changes nothing its neighbours can see, except that t may find
  // its count complete.
  ghost predicate LinksKept(n: nat, s: State, s': State, t: nat)
    requires WellFormed(n, s) && WellFormed(n, s') && t < n
  {
    && OthersSame(n, s, s', t)
    && (t >= 1 ==> Reported(s', t) == Reported(s, t) && Signalled(s', t) == Signalled(s, t))
    && (IsBoss(n, t) ==>
          && s'.left[t] == s.left[t] && SignalledUpTo(s', t) == SignalledUpTo(s, t)
          && (PastCheck(s', t) && !PastCheck(s, t) ==> AllReported(n, s, t)))
  }

  ghost predicate Quiet(n: nat, s: State, s': State, t: nat)
    requires WellFormed(n, s) && WellFormed(n, s') && t < n
  {
    && LinksKept(n, s, s', t)
    && (forall u: nat :: u < n && u != t ==> s'.count[u] == s.count[u])
    && (IsBoss(n, t) ==>
          && s'.count[t] - OwnArrival(s', t) == s.count[t] - OwnArrival(s, t)
          && (s'.pc[t] == Waiting ==> s'.count[t] < Need(n, t)))
  }

  lemma EdgesKept(n: nat, s: State, s': State, t: nat)
    requires n >= 2 && WellFormed(n, s) && Edges(n, s) && WellFormed(n, s') && t < n && LinksKept(n, s, s', t)
    ensures Edges(n, s')
  {
    hide Index, LoopEnd, Target, IsCoordinator;
    forall x: nat | 1 <= x < n
      ensures 0 <= Boss(n, x) < n && Edge(n, s', x)
    {
      UpEdge(n, x);
      assert Edge(n, s, x);
      hide Boss;
    }
  }

  lemma QuietKeeps(n: nat, s: State, s': State, t: nat)
    requires n >= 2 && WellFormed(n, s) && Edges(n, s) && Counts(n, s) && WellFormed(n, s') && t < n &&
             Quiet(n, s, s', t)
    ensures Edges(n, s') && Counts(n, s')
  {
    hide Boss, Index, LoopEnd, Target, IsCoordinator, Need;
    EdgesKept(n, s, s', t);
    forall b: nat | IsBoss(n, b)
      ensures Counted(n, s', b)
    {
      assert Counted(n, s, b);
      ArrivalsSame(n, s, s', b, LoopEnd(n, b));
    }
  }

  // A thread may give up mutexes, take free ones, and wake a blocked thread.
  lemma ExclusiveKept(n: nat, s: State, s': State, t: nat, u: nat)
    requires WellFormed(n, s) && WellFormed(n, s') && Exclusive(n, s) && t < n && u < n
    requires forall m :: m in Held(n, t, s'.pc[t]) && m !in Held(n, t, s.pc[t]) ==> Free(n, s, m)
    requires u != t ==> Held(n, u, s'.pc[u]) == {}
    requires forall v: nat :: v < n && v != t && v != u ==> s'.pc[v] == s.pc[v]
    ensures Exclusive(n, s')
  {
    hide Held;
    forall v: nat, w: nat | v < n && w < n && v != w
      ensures Held(n, v, s'.pc[v]) !! Held(n, w, s'.pc[w])
    {
      assert Held(n, v, s.pc[v]) !! Held(n, w, s.pc[w]);
      if v == t && w != u {
        assert forall m :: m in Held(n, t, s'.pc[t]) ==> m !in Held(n, w, s.pc[w]);
      } else if w == t && v != u {
        assert forall m :: m in Held(n, t, s'.pc[t]) ==> m !in Held(n, v, s.pc[v]);
      }
    }
  }

  ghost predicate QuietPC(n: nat, t: nat, p: PC) {
    p in {Outside, WantOwn, Woken, Report, Pause, WokenAll, Leave}
  }

  lemma QuietStep(n: nat, r: nat, s: State, t: nat)
    requires Inv(n, s) && CanStep(n, r, s, t)
    requires QuietPC(n, t, s.pc[t])
    ensures Inv(n, Step(n, r, s, t))
  {
    var s' := Step(n, r, s, t);
    assert Placed(n, t, s.pc[t]) && s.entered[t] == s.left[t] + (if s.pc[t] == Outside then 0 else 1);
    hide Boss, Index, LoopEnd, Target, IsCoordinator, Need, Edges, Counts, Exclusive;
    if IsBoss(n, t) { NeedIsFan(n, t); }
    QuietStepPlaces(n, r, s, t);
    ExclusiveKept(n, s, s', t, t);
    QuietKeeps(n, s, s', t);
  }

  lemma QuietStepPlaces(n: nat, r: nat, s: State, t: nat)
    requires n >= 2 && WellFormed(n, s) && CanStep(n, r, s, t) && Placed(n, t, s.pc[t])
    requires s.entered[t] == s.left[t] + (if s.pc[t] == Outside then 0 else 1)
    requires QuietPC(n, t, s.pc[t])
    requires IsBoss(n, t) ==> LoopStart(t) <= LoopEnd(n, t)
    ensures var s' := Step(n, r, s, t);
      && WellFormed(n, s') && Placed(n, t, s'.pc[t]) && Quiet(n, s, s', t)
      && s'.entered[t] == s'.left[t] + (if s'.pc[t] == Outside then 0 else 1)
      && (forall m :: m in Held(n, t, s'.pc[t]) && m !in Held(n, t, s.pc[t]) ==> Free(n, s, m))
  {
    hide Boss, LoopEnd, Target, IsCoordinator, Need, Free;
  }

  // A boss tests its count.
  lemma CheckStep(n: nat, r: nat, s: State, t: nat)
    requires Inv(n, s) && CanStep(n, r, s, t) && s.pc[t] == Check
    ensures Inv(n, Step(n, r, s, t))
  {
    hide Boss, Index, LoopEnd, Target, Need, Edges, Exclusive, AllReported, Free;
    var s' := Step(n, r, s, t);
    assert Placed(n, t, s.pc[t]) && IsBoss(n, t) && Counted(n, s, t);
    hide IsCoordinator, Counts, Counted;
    NeedIsFan(n, t);
    CountComplete(n, s, t);
    ExclusiveKept(n, s, s', t, t);
    QuietKeeps(n, s, s', t);
  }

  // The count reaches what b waits for exactly when all its subordinates have reported.
  lemma CountComplete(n: nat, s: State, b: nat)
    requires n >= 2 && WellFormed(n, s) && IsBoss(n, b) && Counted(n, s, b)
    requires OwnArrival(s, b) == if b == 0 then 0 else 1
    ensures s.count[b] <= Need(n, b)
    ensures s.count[b] == Need(n, b) <==> AllReported(n, s, b)
  {
    hide Boss, Index, LoopEnd, Target, IsCoordinator, Need;
    NeedIsFan(n, b);
    ArrivalsFull(n, s, b, LoopEnd(n, b));
    forall x: nat | 1 <= x < n && Boss(n, x) == b
      ensures Index(n, x) < LoopEnd(n, b)
    {
      UpEdge(n, x);
    }
  }

  lemma SpuriousStep(n: nat, s: State, t: nat)
    requires Inv(n, s) && CanWakeSpuriously(n, s, t)
    ensures Inv(n, Goto(s, t, Woken))
  {
    var s' := Goto(s, t, Woken);
    assert Placed(n, t, s.pc[t]);
    hide Boss, Index, LoopEnd, Target, IsCoordinator, Need, Edges, Counts, Exclusive;
    ExclusiveKept(n, s, s', t, t);
    QuietKeeps(n, s, s', t);
  }

  lemma ReleaseStep(n: nat, r: nat, s: State, t: nat)
    requires Inv(n, s) && CanStep(n, r, s, t) && s.pc[t].Release? && s.pc[t].i < LoopEnd(n, t)
    ensures Inv(n, Step(n, r, s, t))
  {
    var s' := Step(n, r, s, t);
    assert Placed(n, t, s.pc[t]);
    hide Boss, Index, LoopEnd, Target, IsCoordinator, Need, Edges, Counts, Exclusive;
    ExclusiveKept(n, s, s', t, t);
    QuietKeeps(n, s, s', t);
  }

  // A boss has signalled all its subordinates, resets its count and returns.
  lemma FinishStep(n: nat, r: nat, s: State, t: nat)
    requires Inv(n, s) && CanStep(n, r, s, t) && s.pc[t].Release? && s.pc[t].i >= LoopEnd(n, t)
    ensures Inv(n, Step(n, r, s, t))
  {
    var s' := Step(n, r, s, t);
    assert Placed(n, t, s.pc[t]) && s.entered[t] == s.left[t] + 1;
    hide LoopEnd, Target, IsCoordinator, Need, Counts, Exclusive;
    forall x: nat | 1 <= x < n
      ensures 0 <= Boss(n, x) < n && Edge(n, s', x)
    {
      UpEdge(n, x);
      assert Edge(n, s, x);
      hide Boss, Index;
    }
    FinishCounts(n, r, s, t);
    ExclusiveKept(n, s, s', t, t);
  }

  lemma FinishCounts(n: nat, r: nat, s: State, t: nat)
    requires Inv(n, s) && CanStep(n, r, s, t) && s.pc[t].Release? && s.pc[t].i >= LoopEnd(n, t)
    ensures Counts(n, Step(n, r, s, t))
  {
    var s' := Step(n, r, s, t);
    assert WellFormed(n, s) && Counts(n, s) && s.entered[t] == s.left[t] + 1;
    FinishReports(n, r, s, t);
    hide Boss, Index, LoopEnd, Target, IsCoordinator, Need, Free, Inv, Counts;
    OthersCounted(n, s, s', t);
    if IsBoss(n, t) {
      hide Step, CanStep, Reported;
      ArrivalsNone(n, s', t, LoopEnd(n, t));
      CountedNone(n, s', t);
    }
    assert Counts(n, s') by { CountsFrom(n, s', t); }
  }

  lemma CountsFrom(n: nat, s: State, c: nat)
    requires n >= 2 && WellFormed(n, s) && (IsBoss(n, c) ==> Counted(n, s, c))
    requires forall b: nat :: IsBoss(n, b) && b != c ==> Counted(n, s, b)
    ensures Counts(n, s)
  {
    hide Counted, IsBoss;
  }

  // Back outside, with nobody counted yet.
  lemma CountedNone(n: nat, s: State, b: nat)
    requires n >= 2 && WellFormed(n, s) && b < n && s.pc[b] == Outside && s.count[b] == 0
    requires Arrivals(n, s, b, LoopEnd(n, b)) == 0
    ensures Counted(n, s, b)
  {
    hide LoopEnd, Arrivals, Need;
  }

  // Bosses other than c notice nothing.
  lemma OthersCounted(n: nat, s: State, s': State, c: nat)
    requires n >= 2 && WellFormed(n, s) && WellFormed(n, s') && Counts(n, s)
    requires forall b: nat :: b < n && b != c ==>
      && s'.left[b] == s.left[b] && s'.count[b] == s.count[b] && OwnArrival(s', b) == OwnArrival(s, b)
      && (s'.pc[b] == Waiting ==> s.pc[b] == Waiting)
    requires forall x: nat :: 1 <= x < n && Boss(n, x) != c ==> Reported(s', x) == Reported(s, x)
    ensures forall b: nat :: IsBoss(n, b) && b != c ==> Counted(n, s', b)
  {
    hide Boss, Index, LoopEnd, Target, IsCoordinator, Need, Reported, OwnArrival;
    forall b: nat | IsBoss(n, b) && b != c
      ensures Counted(n, s', b)
    {
      assert Counted(n, s, b);
      ArrivalsSame(n, s, s', b, LoopEnd(n, b));
    }
  }

  lemma FinishReports(n: nat, r: nat, s: State, t: nat)
    requires Inv(n, s) && CanStep(n, r, s, t) && s.pc[t].Release? && s.pc[t].i >= LoopEnd(n, t)
    ensures forall x: nat :: 1 <= x < n && Boss(n, x) == t ==> Reported(Step(n, r, s, t), x) == Step(n, r, s, t).left[t]
  {
    var s' := Step(n, r, s, t);
    forall x: nat | 1 <= x < n && Boss(n, x) == t
      ensures Reported(s', x) == s'.left[t]
    {
      UpEdge(n, x);
      assert Edge(n, s, x);
      hide Boss, Index, LoopEnd, Target, IsCoordinator, Need, Edge, Counted, Exclusive;
    }
  }

  // What a thread that is counting itself with its boss finds there: the boss is
  // not yet past its test, and they are in the same call.
  lemma BossAtReport(n: nat, s: State, t: nat)
    requires Inv(n, s) && t < n && s.pc[t] == Reporting
    ensures 1 <= t && 0 <= Boss(n, t) < n && Boss(n, t) != t
    ensures s.pc[Boss(n, t)] in {Outside, WantOwn, Waiting, Woken}
    ensures s.left[t] == s.left[Boss(n, t)]
  {
    assert Placed(n, t, s.pc[t]) && s.entered[t] == s.left[t] + 1;
    UpEdge(n, t);
    var b: nat := Boss(n, t);
    assert Edge(n, s, t);
    assert Placed(n, b, s.pc[b]);
    assert Held(n, t, s.pc[t]) !! Held(n, b, s.pc[b]);
    assert b in Held(n, t, s.pc[t]);
    hide Boss, LoopEnd, Target, IsCoordinator, Exclusive;
  }

  lemma ReportingStep(n: nat, r: nat, s: State, t: nat)
    requires Inv(n, s) && CanStep(n, r, s, t) && s.pc[t] == Reporting
    ensures Inv(n, Step(n, r, s, t))
  {
    var s' := Step(n, r, s, t);
    BossAtReport(n, s, t);
    UpEdge(n, t);
    assert s.entered[t] == s.left[t] + 1 && Placed(n, t, s.pc[t]);
    assert Placed(n, Boss(n, t), s.pc[Boss(n, t)]);
    ReportingEdges(n, r, s, t);
    ReportingCounts(n, r, s, t);
    hide Boss, Index, LoopEnd, Target, IsCoordinator, Need, Edges, Counts, Exclusive, SignalsBoss;
    ExclusiveKept(n, s, s', t, Boss(n, t));
  }

  // A report touches nothing but the place of t and, if it signals, that of its boss.
  lemma ReportingEffect(n: nat, r: nat, s: State, t: nat)
    requires WellFormed(n, s) && CanStep(n, r, s, t) && s.pc[t] == Reporting && Boss(n, t) != t
    ensures var s', b: nat := Step(n, r, s, t), Boss(n, t);
      && WellFormed(n, s') && s'.left == s.left && s'.entered == s.entered && s'.pc[t] == Pause
      && (s'.pc[b] == s.pc[b] || (s.pc[b] == Waiting && s'.pc[b] == Woken))
      && forall u: nat :: u < n && u != t && u != b ==> s'.pc[u] == s.pc[u]
  {
    hide Boss, SignalsBoss;
  }

  lemma ReportingEdges(n: nat, r: nat, s: State, t: nat)
    requires Inv(n, s) && CanStep(n, r, s, t) && s.pc[t] == Reporting
    ensures Edges(n, Step(n, r, s, t))
  {
    var s' := Step(n, r, s, t);
    BossAtReport(n, s, t);
    assert s.entered[t] == s.left[t] + 1 && Edges(n, s);
    ReportingEffect(n, r, s, t);
    hide Inv, Exclusive, Counts, SignalsBoss, Step, CanStep;
    forall x: nat | 1 <= x < n
      ensures 0 <= Boss(n, x) < n && Edge(n, s', x)
    {
      UpEdge(n, x);
      assert Edge(n, s, x);
      hide Boss, Index, LoopEnd, Target, IsCoordinator, Need;
    }
  }

  lemma ReportingCounts(n: nat, r: nat, s: State, t: nat)
    requires Inv(n, s) && CanStep(n, r, s, t) && s.pc[t] == Reporting
    ensures Counts(n, Step(n, r, s, t))
  {
    var s' := Step(n, r, s, t);
    assert WellFormed(n, s) && Counts(n, s);
    BossAtReport(n, s, t);
    var c: nat := Boss(n, t);
    ReportingBossCount(n, r, s, t);
    ReportingReports(n, r, s, t);
    hide Boss, Index, LoopEnd, Target, IsCoordinator, Need, Inv, SignalsBoss, Counts, Step, CanStep, Reported,
        OwnArrival;
    OthersCounted(n, s, s', c);
    CountsFrom(n, s', c);
  }

  // What the boss's count and its subordinates' reports look like after t's report.
  lemma ReportingReports(n: nat, r: nat, s: State, t: nat)
    requires Inv(n, s) && CanStep(n, r, s, t) && s.pc[t] == Reporting
    requires 0 <= Boss(n, t) < n
    ensures var s', b: nat := Step(n, r, s, t), Boss(n, t);
      && WellFormed(n, s') && s'.left == s.left && OwnArrival(s', b) == OwnArrival(s, b)
      && s'.count[b] == s.count[b] + 1
      && (s'.pc[b] == Waiting ==> s.pc[b] == Waiting && !SignalsBoss(n, t, s'.count[b]))
      && Reported(s, t) == s.left[b] && Reported(s', t) == s.left[b] + 1
      && (forall y: nat :: y < n && y != t ==> Reported(s', y) == Reported(s, y))
      && (forall c: nat :: c < n && c != b ==>
            && s'.count[c] == s.count[c] && OwnArrival(s', c) == OwnArrival(s, c)
            && (s'.pc[c] == Waiting ==> s.pc[c] == Waiting))
  {
    assert WellFormed(n, s) && s.entered[t] == s.left[t] + 1;
    BossAtReport(n, s, t);
    hide Boss, Index, LoopEnd, LoopStart, Target, IsCoordinator, Need, SignalsBoss, Free, Inv;
  }

  lemma ReportingBossCount(n: nat, r: nat, s: State, t: nat)
    requires Inv(n, s) && CanStep(n, r, s, t) && s.pc[t] == Reporting
    requires 0 <= Boss(n, t) < n
    ensures Counted(n, Step(n, r, s, t), Boss(n, t))
  {
    var s' := Step(n, r, s, t);
    var b: nat := Boss(n, t);
    assert Placed(n, b, s.pc[b]) && Counts(n, s);
    BossAtReport(n, s, t);
    ReportingReports(n, r, s, t);
    UpEdge(n, t);
    hide Boss, Index, LoopEnd, LoopStart, Target, IsCoordinator, Need, Edges, Exclusive, SignalsBoss, Free, Inv, Step,
         CanStep, Placed, Reported, OwnArrival;
    assert Counted(n, s, b);
    NeedIsFan(n, b);
    ArrivalsGrow(n, s, s', b, LoopEnd(n, b), t);
    if s'.pc[b] == Waiting {
      SignalAtNeed(n, t, s.count[b] + 1);
    }
  }

  // A boss that is about to signal a subordinate finds it waiting: no signal is lost.
  lemma NoSignalIsLost(n: nat, s: State, t: nat)
    requires Inv(n, s) && t < n && s.pc[t].Releasing?
    ensures var x := Target(n, t, s.pc[t].i);
      1 <= x < n && x != t && Boss(n, x) == t && Index(n, x) == s.pc[t].i && s.pc[x] == WaitAll
  {
    assert Placed(n, t, s.pc[t]);
    var i := s.pc[t].i;
    DownEdge(n, t, i);
    var x: nat := Target(n, t, i);
    UpEdge(n, x);
    assert Edge(n, s, x);
    assert s.entered[x] == s.left[x] + (if s.pc[x] == Outside then 0 else 1);
    assert Held(n, t, s.pc[t]) !! Held(n, x, s.pc[x]);
    assert x in Held(n, t, s.pc[t]);
    hide Boss, Index, LoopEnd, Target, IsCoordinator, Need, Exclusive, Inv;
  }

  lemma ReleasingStep(n: nat, r: nat, s: State, t: nat)
    requires Inv(n, s) && CanStep(n, r, s, t) && s.pc[t].Releasing?
    ensures Inv(n, Step(n, r, s, t))
  {
    var s' := Step(n, r, s, t);
    NoSignalIsLost(n, s, t);
    assert Placed(n, t, s.pc[t]);
    var x: nat := Target(n, t, s.pc[t].i);
    UpEdge(n, x);
    assert s.entered[x] == s.left[x] + 1;
    ReleasingEdges(n, r, s, t);
    ReleasingCounts(n, r, s, t);
    hide Boss, Index, LoopEnd, Target, IsCoordinator, Need, Edges, Counts, Exclusive;
    ExclusiveKept(n, s, s', t, x);
  }

  lemma ReleasingEdges(n: nat, r: nat, s: State, t: nat)
    requires Inv(n, s) && CanStep(n, r, s, t) && s.pc[t].Releasing?
    ensures Edges(n, Step(n, r, s, t))
  {
    var s' := Step(n, r, s, t);
    NoSignalIsLost(n, s, t);
    forall x: nat | 1 <= x < n
      ensures 0 <= Boss(n, x) < n && Edge(n, s', x)
    {
      UpEdge(n, x);
      assert Edge(n, s, x);
      hide Boss, Index, LoopEnd, Target, IsCoordinator, Need, Exclusive, Counted;
    }
  }

  lemma ReleasingCounts(n: nat, r: nat, s: State, t: nat)
    requires Inv(n, s) && CanStep(n, r, s, t) && s.pc[t].Releasing?
    ensures Counts(n, Step(n, r, s, t))
  {
    var s' := Step(n, r, s, t);
    assert Counts(n, s) && n >= 2 && WellFormed(n, s);
    NoSignalIsLost(n, s, t);
    hide Boss, Index, LoopEnd, Target, IsCoordinator, Need, Edges, Exclusive, Inv, Placed, Free, Counts;
    CountsKept(n, s, s');
  }

  lemma CountsKept(n: nat, s: State, s': State)
    requires n >= 2 && WellFormed(n, s) && WellFormed(n, s') && Counts(n, s)
    requires s'.left == s.left && s'.count == s.count
    requires forall t: nat :: t < n ==> Reported(s', t) == Reported(s, t) && OwnArrival(s', t) == OwnArrival(s, t)
    requires forall t: nat :: t < n && s'.pc[t] == Waiting ==> s.pc[t] == Waiting
    ensures Counts(n, s')
  {
    hide Boss, Index, LoopEnd, Target, IsCoordinator, Need, Reported, OwnArrival;
    forall b: nat | IsBoss(n, b)
      ensures Counted(n, s', b)
    {
      assert Counted(n, s, b);
      ArrivalsSame(n, s, s', b, LoopEnd(n, b));
    }
  }

  lemma StartInv(n: nat)
    requires n >= 2
    ensures Inv(n, Start(n))
  {
    var s := Start(n);
    forall x: nat | 1 <= x < n
      ensures 0 <= Boss(n, x) < n && Edge(n, s, x)
    {
      UpEdge(n, x);
    }
    hide Boss, Index, LoopEnd, Target, IsCoordinator, Need;
    forall b: nat | IsBoss(n, b)
      ensures Counted(n, s, b)
    {
      ArrivalsNone(n, s, b, LoopEnd(n, b));
    }
  }

  lemma NextKeepsInv(n: nat, r: nat, s: State, s': State)
    requires Inv(n, s) && Next(n, r, s, s')
    ensures Inv(n, s')
  {
    var t: nat :| || (CanStep(n, r, s, t) && s' == Step(n, r, s, t))
                  || (CanWakeSpuriously(n, s, t) && s' == Goto(s, t, Woken));
    hide Inv, Step;
    if CanStep(n, r, s, t) && s' == Step(n, r, s, t) {
      match s.pc[t]
      case Check => CheckStep(n, r, s, t);
      case Reporting => ReportingStep(n, r, s, t);
      case Release(i) =>
        if i < LoopEnd(n, t) { ReleaseStep(n, r, s, t); } else { FinishStep(n, r, s, t); }
      case Releasing(_) => ReleasingStep(n, r, s, t);
      case _ => QuietStep(n, r, s, t);
    } else {
      SpuriousStep(n, s, t);
    }
  }

  lemma {:induction false} RunInv(n: nat, r: nat, ss: seq<State>, i: nat)
    requires n >= 2 && Run(n, r, ss) && i < |ss|
    ensures Inv(n, ss[i])
  {
    if i == 0 {
      StartInv(n);
    } else {
      RunInv(n, r, ss, i - 1);
      NextKeepsInv(n, r, ss[i - 1], ss[i]);
    }
  }

  // ---------------------------------------------------------------- safety

  // Calls for which the primary has given the go-ahead.
  ghost function GoAhead(s: State): int
    requires |s.pc| > 0 && |s.left| > 0
  {
    s.left[0] + (if s.pc[0].Release? || s.pc[0].Releasing? then 1 else 0)
  }

  lemma SignalledByGoAhead(n: nat, s: State, t: nat)
    requires Inv(n, s) && 1 <= t < n
    ensures s.left[t] <= Signalled(s, t) <= GoAhead(s)
  {
    UpEdge(n, t);
    assert Edge(n, s, t);
    var b: nat := Boss(n, t);
    assert Placed(n, 0, s.pc[0]);
    if b != 0 {
      UpEdge(n, b);
      assert Edge(n, s, b);
    }
    hide Boss, Index, LoopEnd, Target, IsCoordinator, Inv;
  }

  lemma ReportedAtGoAhead(n: nat, s: State, t: nat)
    requires Inv(n, s) && 1 <= t < n
    ensures GoAhead(s) <= Reported(s, t) <= s.entered[t]
  {
    UpEdge(n, t);
    assert Edge(n, s, t);
    var b: nat := Boss(n, t);
    assert Placed(n, 0, s.pc[0]) && Placed(n, b, s.pc[b]);
    assert s.entered[b] == s.left[b] + (if s.pc[b] == Outside then 0 else 1);
    if b != 0 {
      UpEdge(n, b);
      assert Edge(n, s, b);
    }
    hide Boss, Index, LoopEnd, Target, IsCoordinator, Inv;
  }

  // In every reachable state: a call that one thread has completed, every
  // thread has begun.
  lemma NobodyLeavesEarly(n: nat, s: State, t: nat, u: nat)
    requires Inv(n, s) && t < n && u < n
    ensures s.left[t] <= GoAhead(s) <= s.entered[u]
  {
    assert Placed(n, 0, s.pc[0]) && s.entered[0] == s.left[0] + (if s.pc[0] == Outside then 0 else 1);
    if t >= 1 { SignalledByGoAhead(n, s, t); }
    if u >= 1 { ReportedAtGoAhead(n, s, u); }
  }

  lemma RunIsSafe(n: nat, r: nat, ss: seq<State>, i: nat)
    requires n >= 2 && Run(n, r, ss) && i < |ss|
    ensures WellFormed(n, ss[i]) && AbstractBarrier.Together(n, Calls(ss[i]))
  {
    RunInv(n, r, ss, i);
    forall t: nat, u: nat | t < n && u < n
      ensures ss[i].left[t] <= ss[i].entered[u]
    {
      NobodyLeavesEarly(n, ss[i], t, u);
    }
  }

  // ---------------------------------------------------------------- refinement

  ghost function Calls(s: State): AbstractBarrier.Calls {
    AbstractBarrier.Calls(s.entered, s.left)
  }

  // Every step is a step of the abstract barrier, or invisible to it.
  lemma RefinesAbstractBarrier(n: nat, r: nat, s: State, s': State)
    requires Inv(n, s) && Next(n, r, s, s')
    ensures Calls(s') == Calls(s) || AbstractBarrier.Next(n, Calls(s), Calls(s'))
  {
    var t: nat :| || (CanStep(n, r, s, t) && s' == Step(n, r, s, t))
                  || (CanWakeSpuriously(n, s, t) && s' == Goto(s, t, Woken));
    if CanStep(n, r, s, t) && s' == Step(n, r, s, t) {
      assert WellFormed(n, s) && s.entered[t] == s.left[t] + (if s.pc[t] == Outside then 0 else 1);
      LeavesTogether(n, r, s, t);
      hide Inv, CanStep, Step;
      StepCalls(n, r, s, t);
      if Calls(s') != Calls(s) {
        assert AbstractBarrier.ThreadStep(n, Calls(s), Calls(s'), t);
      }
    }
  }

  // The step that t is about to take completes its call.
  ghost predicate Returning(n: nat, s: State, t: nat)
    requires WellFormed(n, s) && t < n
  {
    s.pc[t] == Leave || (s.pc[t].Release? && s.pc[t].i >= LoopEnd(n, t))
  }

  lemma StepCalls(n: nat, r: nat, s: State, t: nat)
    requires WellFormed(n, s) && CanStep(n, r, s, t)
    ensures var s' := Step(n, r, s, t);
      if s.pc[t] == Outside then
        Calls(s') == AbstractBarrier.Enter(Calls(s), t)
      else if Returning(n, s, t) then
        Calls(s') == AbstractBarrier.Leave(Calls(s), t)
      else
        Calls(s') == Calls(s)
  {
    hide Boss, Index, LoopEnd, Target, IsCoordinator, Need, SignalsBoss, Free;
  }

  lemma LeavesTogether(n: nat, r: nat, s: State, t: nat)
    requires Inv(n, s) && CanStep(n, r, s, t)
    ensures Returning(n, s, t) ==>
              forall u: nat :: u < n ==> s.entered[u] >= s.entered[t]
  {
    if Returning(n, s, t) {
      assert s.entered[t] == s.left[t] + 1 && Placed(n, t, s.pc[t]);
      forall u: nat | u < n
        ensures s.entered[u] >= s.entered[t]
      {
        NobodyLeavesEarly(n, s, 0, u);
        if t >= 1 {
          SignalledByGoAhead(n, s, t);
        }
      }
    }
  }

  // ---------------------------------------------------------------- no deadlock

  // Every call begun is one of the r a thread makes.
  ghost predicate Within(n: nat, r: nat, s: State)
    requires WellFormed(n, s)
  {
    forall t: nat :: t < n ==> s.entered[t] <= r
  }

  // How far a blocked thread may be from the one that can move.
  ghost function Distance(n: nat, s: State, t: nat): nat
    requires WellFormed(n, s) && t < n
  {
    match s.pc[t]
    case Release(_) => 1
    case Report => if IsCoordinator(n, t) then 2 else 3
    case Waiting => if t == 0 then 5 else 4
    case WaitAll => if IsCoordinator(n, t) then 6 else 7
    case _ => 0
  }

  // Whoever holds another thread's mutex can move.
  lemma HolderMoves(n: nat, r: nat, s: State, m: nat, v: nat)
    requires Inv(n, s) && v < n && v != m && m in Held(n, v, s.pc[v])
    ensures CanStep(n, r, s, v)
  {
    assert Placed(n, v, s.pc[v]);
    if v >= 1 { UpEdge(n, v); }
    if s.pc[v].Releasing? { DownEdge(n, v, s.pc[v].i); }
    hide Inv, Boss, Index, LoopEnd, Target, IsCoordinator;
  }

  // Who holds a mutex; if it is the thread it belongs to, where that thread may be.
  lemma Holder(n: nat, s: State, m: int) returns (v: nat)
    requires WellFormed(n, s) && !Free(n, s, m)
    ensures v < n && m in Held(n, v, s.pc[v])
    ensures s.pc[v] in {Check, Report, Reporting, Pause, Leave} || s.pc[v].Release? || s.pc[v].Releasing?
  {
    v :| v < n && m in Held(n, v, s.pc[v]);
  }

  lemma SomeoneMissing(n: nat, s: State, b: nat) returns (x: nat)
    requires Inv(n, s) && b < n && s.pc[b] == Waiting
    ensures 1 <= x < n && Boss(n, x) == b && Reported(s, x) != s.left[b] + 1
  {
    assert Placed(n, b, s.pc[b]) && Counted(n, s, b);
    hide Boss, Index, LoopEnd, Target, IsCoordinator, Need, Inv, Reported, Placed;
    CountComplete(n, s, b);
    x :| 1 <= x < n && Boss(n, x) == b && Reported(s, x) != s.left[b] + 1;
  }

  // A subordinate that b is still waiting for has not got to its boss yet; it may
  // even be on its way out of the call before.
  lemma MissingReport(n: nat, s: State, b: nat) returns (x: nat)
    requires Inv(n, s) && b < n && s.pc[b] == Waiting
    ensures 1 <= x < n && Boss(n, x) == b && IsBoss(n, b)
    ensures s.left[x] <= s.left[b] && (b == 0 || !IsCoordinator(n, x))
    ensures s.pc[x] !in {Pause, WaitAll}
  {
    hide Boss, Index, LoopEnd, LoopStart, Target, IsCoordinator, Counts, Exclusive;
    x := SomeoneMissing(n, s, b);
    UpEdge(n, x);
    assert s.entered[b] == s.left[b] + 1 && Placed(n, b, s.pc[b]);
    assert s.entered[x] == s.left[x] + (if s.pc[x] == Outside then 0 else 1);
    assert Edge(n, s, x);
    hide Inv, Edges;
  }

  // The next subordinate to be signalled is waiting for it, or about to.
  lemma NextToRelease(n: nat, s: State, t: nat)
    requires Inv(n, s) && t < n && s.pc[t].Release? && s.pc[t].i < LoopEnd(n, t)
    ensures var x := Target(n, t, s.pc[t].i); 1 <= x < n && x != t && s.pc[x] in {Pause, WaitAll}
  {
    assert Placed(n, t, s.pc[t]);
    DownEdge(n, t, s.pc[t].i);
    var x: nat := Target(n, t, s.pc[t].i);
    UpEdge(n, x);
    assert Edge(n, s, x) && s.entered[x] == s.left[x] + (if s.pc[x] == Outside then 0 else 1);
    hide Inv, Boss, Index, LoopEnd, Target, IsCoordinator;
  }

  // u can step, or is nearer than t to a thread that can.
  ghost predicate Nearer(n: nat, r: nat, s: State, t: nat, u: nat)
    requires WellFormed(n, s) && t < n
  {
    u < n && (CanStep(n, r, s, u) || (s.left[u] < r && Distance(n, s, u) < Distance(n, s, t)))
  }

  lemma BehindMutex(n: nat, r: nat, s: State, t: nat) returns (u: nat)
    requires Inv(n, s) && Within(n, r, s) && t < n && s.left[t] < r && !CanStep(n, r, s, t)
    requires s.pc[t] in {WantOwn, Woken, WokenAll, Report} || s.pc[t].Release?
    ensures Nearer(n, r, s, t, u)
  {
    assert WellFormed(n, s);
    AtPlace(n, r, s, t);
    hide Inv, Boss, Index, Target, LoopEnd, Held, Free, IsCoordinator, Within;
    if s.pc[t] == Report {
      var b: nat := Boss(n, t);
      u := Holder(n, s, b);
      if u != b { HolderMoves(n, r, s, b, u); } else { AtPlace(n, r, s, b); }
    } else if s.pc[t].Release? {
      NextToRelease(n, s, t);
      var x: nat := Target(n, t, s.pc[t].i);
      u := Holder(n, s, x);
      if u != x { HolderMoves(n, r, s, x, u); }
    } else {
      u := Holder(n, s, t);
      HolderMoves(n, r, s, t, u);
    }
  }

  lemma BehindSignal(n: nat, r: nat, s: State, t: nat) returns (u: nat)
    requires Inv(n, s) && Within(n, r, s) && t < n && s.left[t] < r && s.pc[t] in {Waiting, WaitAll}
    ensures Nearer(n, r, s, t, u)
  {
    assert WellFormed(n, s);
    AtPlace(n, r, s, t);
    hide Inv, Boss, Index, Target, LoopEnd, Held, Free, Within;
    if s.pc[t] == Waiting {
      u := MissingReport(n, s, t);
    } else {
      u := Boss(n, t);
    }
    AtPlace(n, r, s, u);
  }

  // From a thread that still has a call to make or to finish, the way to one
  // that can take a step.
  lemma {:induction false} FindMover(n: nat, r: nat, s: State, t: nat) returns (u: nat)
    requires Inv(n, s) && Within(n, r, s) && t < n && s.left[t] < r
    ensures u < n && CanStep(n, r, s, u)
    decreases Distance(n, s, t)
  {
    u := t;
    if !CanStep(n, r, s, t) {
      assert WellFormed(n, s);
      AtPlace(n, r, s, t);
      if s.pc[t] in {Waiting, WaitAll} {
        u := BehindSignal(n, r, s, t);
      } else {
        u := BehindMutex(n, r, s, t);
      }
      hide Inv, Distance;
      if !CanStep(n, r, s, u) { u := FindMover(n, r, s, u); }
    }
  }

  lemma AtPlace(n: nat, r: nat, s: State, t: nat)
    requires Inv(n, s) && Within(n, r, s) && t < n && s.left[t] < r
    ensures Placed(n, t, s.pc[t])
    ensures t >= 1 ==> 0 <= Boss(n, t) < n && Boss(n, t) != t && IsBoss(n, Boss(n, t))
    ensures t >= 1 ==> (Boss(n, t) == 0 <==> IsCoordinator(n, t))
    ensures s.pc[t] == WaitAll || s.pc[t] == Report ==> s.left[Boss(n, t)] < r
    ensures s.pc[t] in {Outside, Check, Reporting, Pause, Leave} || s.pc[t].Releasing? ==> CanStep(n, r, s, t)
  {
    assert Placed(n, t, s.pc[t]);
    assert s.entered[t] == s.left[t] + (if s.pc[t] == Outside then 0 else 1);
    if t >= 1 {
      UpEdge(n, t);
      assert Edge(n, s, t);
    }
    if s.pc[t].Releasing? { DownEdge(n, t, s.pc[t].i); }
    hide Inv, Boss, Index, LoopEnd, Target, IsCoordinator;
  }

  // As long as some thread has calls to make or to finish, some thread can move:
  // the barrier does not deadlock, in any number of rounds.
  lemma NoDeadlock(n: nat, r: nat, ss: seq<State>, i: nat)
    requires n >= 2 && Run(n, r, ss) && i < |ss|
    ensures WellFormed(n, ss[i])
    ensures (exists t: nat :: CanStep(n, r, ss[i], t)) <==> (exists t: nat :: t < n && ss[i].left[t] < r)
  {
    RunInv(n, r, ss, i);
    RunWithin(n, r, ss, i);
    if t: nat :| t < n && ss[i].left[t] < r {
      var u := FindMover(n, r, ss[i], t);
    } else {
      forall t: nat | t < n
        ensures !CanStep(n, r, ss[i], t)
      {
        assert ss[i].entered[t] == ss[i].left[t] + (if ss[i].pc[t] == Outside then 0 else 1);
      }
    }
  }

  lemma {:induction false} RunWithin(n: nat, r: nat, ss: seq<State>, i: nat)
    requires n >= 2 && Run(n, r, ss) && i < |ss|
    ensures WellFormed(n, ss[i]) && Within(n, r, ss[i])
  {
    if i > 0 {
      RunWithin(n, r, ss, i - 1);
      RunInv(n, r, ss, i);
      StepWithin(n, r, ss[i - 1], ss[i]);
    }
  }

  lemma StepWithin(n: nat, r: nat, s: State, s': State)
    requires n >= 2 && Next(n, r, s, s') && WellFormed(n, s') && Within(n, r, s)
    ensures Within(n, r, s')
  {
    hide Boss, Index, LoopEnd, Target, IsCoordinator, Need, SignalsBoss, Free;
  }

  // ---------------------------------------------------------------- every run ends

  // More than the places of one call.
  ghost function CallLength(n: nat): nat {
    14 + 2 * n
  }

  // How far t has come in its current call.
  ghost function Stage(n: nat, s: State, t: nat): int
    requires WellFormed(n, s) && t < n
  {
    var full := s.count[t] >= Need(n, t);
    match s.pc[t]
    case Outside => 0
    case WantOwn => 1
    case Woken => if full then 5 else 2
    case Check => if full then 6 else 3
    case Waiting => 4
    case Report => 7
    case Reporting => 8
    case Pause => 9
    case WaitAll => 10
    case WokenAll => 11
    case Leave => 12
    case Release(i) => 12 + 2 * i
    case Releasing(i) => 13 + 2 * i
  }

  ghost function Progress(n: nat, s: State, t: nat): int
    requires WellFormed(n, s) && t < n
  {
    s.left[t] * CallLength(n) + Stage(n, s, t)
  }

  ghost function TotalProgress(n: nat, s: State, k: nat): int
    requires WellFormed(n, s) && k <= n
  {
    if k == 0 then 0 else TotalProgress(n, s, k - 1) + Progress(n, s, k - 1)
  }

  lemma FansAreSmall(n: nat, b: nat)
    requires n >= 2 && IsBoss(n, b)
    ensures LoopEnd(n, b) <= n
  {
    if b == 0 {
      GroupCount(n);
      MulAtLeast(NumGroups(n) - 1, ThreadsPerGroup(n));
    } else {
      var q, r := WorkerPlace(n, b);
      GroupRange(n, q);
    }
  }

  lemma MulAtLeast(a: int, g: int)
    requires a >= 0 && g >= 1
    ensures a * g >= a
  {
  }

  // A step moves its thread on, and moves nobody back.
  ghost predicate Onward(n: nat, s: State, s': State, t: nat, u: nat)
    requires WellFormed(n, s) && WellFormed(n, s') && u < n
  {
    if u != t then
      s'.left[u] == s.left[u] && Stage(n, s', u) >= Stage(n, s, u)
    else
      || (s'.left[u] == s.left[u] && Stage(n, s', u) > Stage(n, s, u))
      || (s'.left[u] == s.left[u] + 1 && Stage(n, s', u) == 0 && Stage(n, s, u) < CallLength(n))
  }

  lemma StepProgress(n: nat, r: nat, s: State, t: nat, u: nat)
    requires Inv(n, s) && CanStep(n, r, s, t) && u < n
    ensures var s' := Step(n, r, s, t);
      WellFormed(n, s') && Progress(n, s', u) >= Progress(n, s, u) + (if u == t then 1 else 0)
  {
    assert WellFormed(n, s);
    hide Inv, CanStep, Step, Stage, CallLength;
    StepOnward(n, r, s, t, u);
    OnwardProgress(n, s, Step(n, r, s, t), t, u);
  }

  lemma OnwardProgress(n: nat, s: State, s': State, t: nat, u: nat)
    requires WellFormed(n, s) && WellFormed(n, s') && u < n && Onward(n, s, s', t, u)
    ensures Progress(n, s', u) >= Progress(n, s, u) + (if u == t then 1 else 0)
  {
    hide Stage, CallLength;
    var K := CallLength(n);
    assert (s.left[u] + 1) * K == s.left[u] * K + K;
  }

  lemma StepOnward(n: nat, r: nat, s: State, t: nat, u: nat)
    requires Inv(n, s) && CanStep(n, r, s, t) && u < n
    ensures WellFormed(n, Step(n, r, s, t)) && Onward(n, s, Step(n, r, s, t), t, u)
  {
    hide Boss, Index, LoopEnd, Target, IsCoordinator, Need, SignalsBoss, Free, Edges, Counts, Exclusive;
    assert WellFormed(n, s) && Placed(n, t, s.pc[t]);
    if IsBoss(n, t) { FansAreSmall(n, t); }
    if s.pc[t] == Reporting {
      ReportingOnward(n, r, s, t, u);
    } else if s.pc[t].Releasing? {
      NoSignalIsLost(n, s, t);
      hide Inv;
    } else {
      hide Inv;
    }
  }

  lemma ReportingOnward(n: nat, r: nat, s: State, t: nat, u: nat)
    requires Inv(n, s) && CanStep(n, r, s, t) && s.pc[t] == Reporting && u < n
    ensures WellFormed(n, Step(n, r, s, t)) && Onward(n, s, Step(n, r, s, t), t, u)
  {
    BossAtReport(n, s, t);
    var b: nat := Boss(n, t);
    assert Placed(n, b, s.pc[b]);
    if s.pc[b] == Waiting {
      assert Counted(n, s, b);
      SignalAtNeed(n, t, s.count[b] + 1);
    }
    hide Inv, Boss, Index, LoopEnd, Target, IsCoordinator, Need, SignalsBoss, Free;
  }

  lemma {:induction false} TotalGrows(n: nat, s: State, s': State, t: nat, d: int, k: nat)
    requires WellFormed(n, s) && WellFormed(n, s') && k <= n && t < n
    requires forall u: nat :: u < n ==> Progress(n, s', u) >= Progress(n, s, u) + (if u == t then d else 0)
    ensures TotalProgress(n, s', k) >= TotalProgress(n, s, k) + (if t < k then d else 0)
  {
    hide Progress;
    if k > 0 {
      TotalGrows(n, s, s', t, d, k - 1);
    }
  }

  lemma {:induction false} TotalBounds(n: nat, r: nat, s: State, k: nat)
    requires Inv(n, s) && Within(n, r, s) && k <= n
    ensures 0 <= TotalProgress(n, s, k) <= k * (r * CallLength(n))
  {
    if k > 0 {
      var b := r * CallLength(n);
      assert k * b == (k - 1) * b + b;
      TotalBounds(n, r, s, k - 1);
      ProgressBounds(n, r, s, k - 1);
    }
  }

  lemma StageBounds(n: nat, s: State, t: nat)
    requires Inv(n, s) && t < n
    ensures s.entered[t] == s.left[t] + (if s.pc[t] == Outside then 0 else 1)
    ensures 0 <= Stage(n, s, t) <= CallLength(n) && (s.pc[t] == Outside ==> Stage(n, s, t) == 0)
  {
    hide Boss, Index, LoopEnd, Target, IsCoordinator, Need, Edges, Counts, Exclusive;
    assert Placed(n, t, s.pc[t]);
    if IsBoss(n, t) { FansAreSmall(n, t); }
  }

  lemma ProgressBounds(n: nat, r: nat, s: State, t: nat)
    requires Inv(n, s) && Within(n, r, s) && t < n
    ensures 0 <= Progress(n, s, t) <= r * CallLength(n)
  {
    StageBounds(n, s, t);
    assert WellFormed(n, s) && s.entered[t] <= r;
    hide Inv, Stage, CallLength, Within;
    RoundBounds(s.left[t], s.entered[t], r, CallLength(n), Stage(n, s, t));
  }

  // A stage of the round after l of r rounds of K stages each.
  lemma RoundBounds(l: nat, e: nat, r: nat, K: nat, stage: int)
    requires l <= e <= l + 1 && e <= r && 0 <= stage <= K && (e == l ==> stage == 0)
    ensures 0 <= l * K + stage <= r * K
  {
    MulMono(e, r, K);
    MulMono(0, l, K);
    if e == l + 1 {
      assert e * K == l * K + K;
    }
  }

  // Some thread takes a step of its own.
  ghost predicate Steps(n: nat, r: nat, s: State, s': State) {
    WellFormed(n, s) && exists t: nat :: CanStep(n, r, s, t) && s' == Step(n, r, s, t)
  }

  // The spurious wakeups among the first k steps of a run.
  ghost function Wakeups(n: nat, r: nat, ss: seq<State>, k: nat): nat
    requires k < |ss|
  {
    if k == 0 then 0 else Wakeups(n, r, ss, k - 1) + (if Steps(n, r, ss[k - 1], ss[k]) then 0 else 1)
  }

  lemma StepTotal(n: nat, r: nat, s: State, t: nat)
    requires Inv(n, s) && CanStep(n, r, s, t)
    ensures WellFormed(n, Step(n, r, s, t))
    ensures TotalProgress(n, Step(n, r, s, t), n) >= TotalProgress(n, s, n) + 1
  {
    assert WellFormed(n, s) && t < n;
    hide Inv, CanStep, Step, Progress;
    var s' := Step(n, r, s, t);
    forall u: nat | u < n
      ensures WellFormed(n, s') && Progress(n, s', u) >= Progress(n, s, u) + (if u == t then 1 else 0)
    {
      StepProgress(n, r, s, t, u);
    }
    StepProgress(n, r, s, t, t);
    TotalGrows(n, s, s', t, 1, n);
  }

  lemma WakeupTotal(n: nat, s: State, t: nat)
    requires Inv(n, s) && CanWakeSpuriously(n, s, t)
    ensures TotalProgress(n, Goto(s, t, Woken), n) >= TotalProgress(n, s, n) - 2
  {
    assert WellFormed(n, s);
    hide Inv, Progress;
    var s' := Goto(s, t, Woken);
    forall u: nat | u < n
      ensures Progress(n, s', u) >= Progress(n, s, u) + (if u == t then -2 else 0)
    {
      WakeupProgress(n, s, t, u);
    }
    TotalGrows(n, s, s', t, -2, n);
  }

  lemma NextProgress(n: nat, r: nat, s: State, s': State)
    requires Inv(n, s) && Next(n, r, s, s')
    ensures WellFormed(n, s')
    ensures TotalProgress(n, s', n) >= TotalProgress(n, s, n) + (if Steps(n, r, s, s') then 1 else -2)
  {
    hide Inv, CanStep, Step, TotalProgress;
    if Steps(n, r, s, s') {
      var t: nat :| CanStep(n, r, s, t) && s' == Step(n, r, s, t);
      StepTotal(n, r, s, t);
    } else {
      var t: nat :| CanWakeSpuriously(n, s, t) && s' == Goto(s, t, Woken);
      WakeupTotal(n, s, t);
    }
  }

  lemma WakeupProgress(n: nat, s: State, t: nat, u: nat)
    requires Inv(n, s) && CanWakeSpuriously(n, s, t) && u < n
    ensures Progress(n, Goto(s, t, Woken), u) >= Progress(n, s, u) + (if u == t then -2 else 0)
  {
    assert WellFormed(n, s);
    hide Boss, Index, LoopEnd, Target, IsCoordinator, Need, Inv;
  }

  // A run of r calls a thread is no longer than this, up to three steps for every
  // spurious wakeup: with NoDeadlock, every run goes on until all calls are made.
  lemma {:induction false} RunEnds(n: nat, r: nat, ss: seq<State>, i: nat)
    requires n >= 2 && Run(n, r, ss) && i < |ss|
    ensures i <= n * (r * CallLength(n)) + 3 * Wakeups(n, r, ss, i)
  {
    RunProgress(n, r, ss, i);
    RunInv(n, r, ss, i);
    RunWithin(n, r, ss, i);
    TotalBounds(n, r, ss[i], n);
  }

  lemma {:induction false} RunProgress(n: nat, r: nat, ss: seq<State>, i: nat)
    requires n >= 2 && Run(n, r, ss) && i < |ss|
    ensures WellFormed(n, ss[i]) && i <= TotalProgress(n, ss[i], n) + 3 * Wakeups(n, r, ss, i)
  {
    if i == 0 {
      RunInv(n, r, ss, 0);
      RunWithin(n, r, ss, 0);
      TotalBounds(n, r, ss[0], n);
    } else {
      RunProgress(n, r, ss, i - 1);
      RunInv(n, r, ss, i - 1);
      assert Next(n, r, ss[i - 1], ss[i]);
      hide Inv, Steps, Next, TotalProgress, CallLength;
      NextProgress(n, r, ss[i - 1], ss[i]);
    }
  }

  // ---------------------------------------------------------------- the waits that must not wake by themselves

  // A spurious wakeup from a wait on proceedAllCond, which sits in no re-testing loop.
  ghost predicate WakesUnasked(n: nat, s: State, s': State, t: nat) {
    WellFormed(n, s) && t < n && s.pc[t] == WaitAll && s' == Goto(s, t, WokenAll)
  }

  ghost predicate NextUnasked(n: nat, s: State, s': State) {
    exists t: nat :: WakesUnasked(n, s, s', t)
  }

  // Of the first i steps of a run, those that only such a wakeup explains.
  ghost function Unasked(n: nat, r: nat, ss: seq<State>, i: nat): nat
    requires i < |ss|
  {
    if i == 0 then 0 else Unasked(n, r, ss, i - 1) + (if Next(n, r, ss[i - 1], ss[i]) then 0 else 1)
  }

  // Runs with at most k spurious wakeups on proceedAllCond.
  ghost predicate LooseRun(n: nat, r: nat, k: nat, ss: seq<State>) {
    && |ss| >= 1 && ss[0] == Start(n)
    && (forall i :: 0 <= i < |ss| - 1 ==> Next(n, r, ss[i], ss[i + 1]) || NextUnasked(n, ss[i], ss[i + 1]))
    && Unasked(n, r, ss, |ss| - 1) <= k
  }

  ghost predicate AlwaysTogether(n: nat, ss: seq<State>) {
    forall i :: 0 <= i < |ss| ==> WellFormed(n, ss[i]) && AbstractBarrier.Together(n, Calls(ss[i]))
  }

  lemma {:induction false} UnaskedGrows(n: nat, r: nat, ss: seq<State>, i: nat, j: nat)
    requires i <= j < |ss|
    ensures Unasked(n, r, ss, i) <= Unasked(n, r, ss, j)
  {
    if i < j { UnaskedGrows(n, r, ss, i, j - 1); }
  }

  lemma NoneUnasked(n: nat, r: nat, ss: seq<State>)
    requires LooseRun(n, r, 0, ss)
    ensures Run(n, r, ss)
  {
    hide Next, NextUnasked;
    forall i | 0 <= i < |ss| - 1
      ensures Next(n, r, ss[i], ss[i + 1])
    {
      UnaskedGrows(n, r, ss, i + 1, |ss| - 1);
    }
  }

  lemma NobodyMoves(n: nat, s': State)
    requires n >= 2
    ensures !Next(n, 0, Start(n), s') && !NextUnasked(n, Start(n), s')
  {
  }

  lemma NoCallsNoSteps(n: nat, k: nat, ss: seq<State>)
    requires n >= 2 && LooseRun(n, 0, k, ss)
    ensures ss == [Start(n)]
  {
    hide Next, NextUnasked;
    assert |ss| > 1 ==> Next(n, 0, ss[0], ss[1]) || NextUnasked(n, ss[0], ss[1]);
    forall s' { NobodyMoves(n, s'); }
  }

  // Thread t is the only one that has come, and is at place p.
  ghost function Alone(n: nat, t: nat, p: PC, count: seq<int>, begun: nat, done: nat): State {
    State(seq(n, u => if u == t then p else Outside), count,
          seq(n, u => if u == t then begun else 0), seq(n, u => if u == t then done else 0))
  }

  // The places of thread 2, a plain member, of four or more.
  ghost function AloneMember(n: nat, i: nat): State {
    var p := [Outside, WantOwn, Report, Reporting, Pause, WaitAll, WokenAll, Leave, Outside];
    Alone(n, 2, if i < 9 then p[i] else Outside, seq(n, u => if u == 1 && i >= 4 then 1 else 0),
          if i >= 1 then 1 else 0, if i >= 8 then 1 else 0)
  }

  // The places of thread 1, a coordinator without members, of two or three.
  ghost function AloneCoordinator(n: nat, i: nat): State {
    var p := [Outside, WantOwn, Check, Report, Reporting, Pause, WaitAll, WokenAll, Release(1), Outside];
    Alone(n, 1, if i < 10 then p[i] else Outside,
          seq(n, u => if (u == 0 && i >= 5) || (u == 1 && 2 <= i <= 8) then 1 else 0),
          if i >= 1 then 1 else 0, if i >= 9 then 1 else 0)
  }

  lemma MemberStep(n: nat, r: nat, i: nat)
    requires n >= 4 && r >= 1 && i < 8 && i != 5
    ensures Next(n, r, AloneMember(n, i), AloneMember(n, i + 1))
  {
    var s := AloneMember(n, i);
    UpEdge(n, 2);
    assert !IsCoordinator(n, 2) && Boss(n, 2) == 1;
    hide ThreadsPerGroup, NumGroups, IsCoordinator, Boss, LoopEnd, Need, SignalsBoss, Target, Index;
    assert CanStep(n, r, s, 2);
    assert Step(n, r, s, 2) == AloneMember(n, i + 1);
  }

  lemma CoordinatorStep(n: nat, r: nat, i: nat)
    requires 2 <= n <= 3 && r >= 1 && i < 9 && i != 6
    ensures Next(n, r, AloneCoordinator(n, i), AloneCoordinator(n, i + 1))
  {
    var s := AloneCoordinator(n, i);
    assert ThreadsPerGroup(n) == 1 && IsCoordinator(n, 1) && Boss(n, 1) == 0;
    assert LoopEnd(n, 1) == 1 && Need(n, 1) == 1;
    hide ThreadsPerGroup, NumGroups, IsCoordinator, Boss, LoopEnd, Need, SignalsBoss, Target, Index;
    assert CanStep(n, r, s, 1);
    assert Step(n, r, s, 1) == AloneCoordinator(n, i + 1);
  }

  lemma {:induction false} OneUnasked(n: nat, r: nat, ss: seq<State>, j: nat, i: nat)
    requires i < |ss| && forall x :: 0 <= x < |ss| - 1 && x != j ==> Next(n, r, ss[x], ss[x + 1])
    ensures Unasked(n, r, ss, i) <= if i > j then 1 else 0
  {
    hide Next;
    if i > 0 { OneUnasked(n, r, ss, j, i - 1); }
  }

  lemma LooseRunOf(n: nat, r: nat, ss: seq<State>, j: nat)
    requires |ss| >= 1 && ss[0] == Start(n) && j < |ss| - 1 && NextUnasked(n, ss[j], ss[j + 1])
    requires forall i :: 0 <= i < |ss| - 1 && i != j ==> Next(n, r, ss[i], ss[i + 1])
    ensures LooseRun(n, r, 1, ss)
  {
    hide Next, NextUnasked;
    OneUnasked(n, r, ss, j, |ss| - 1);
  }

  lemma MemberRun(n: nat, r: nat) returns (ss: seq<State>)
    requires n >= 4 && r >= 1
    ensures |ss| == 9 && LooseRun(n, r, 1, ss) && ss[8] == AloneMember(n, 8)
  {
    hide Next;
    ss := seq(9, i requires 0 <= i < 9 => AloneMember(n, i));
    forall i | 0 <= i < 8 && i != 5
      ensures Next(n, r, ss[i], ss[i + 1])
    {
      MemberStep(n, r, i);
    }
    assert WakesUnasked(n, ss[5], ss[6], 2);
    assert ss[0] == Start(n);
    LooseRunOf(n, r, ss, 5);
  }

  lemma CoordinatorRun(n: nat, r: nat) returns (ss: seq<State>)
    requires 2 <= n <= 3 && r >= 1
    ensures |ss| == 10 && LooseRun(n, r, 1, ss) && ss[9] == AloneCoordinator(n, 9)
  {
    hide Next;
    ss := seq(10, i requires 0 <= i < 10 => AloneCoordinator(n, i));
    forall i | 0 <= i < 9 && i != 6
      ensures Next(n, r, ss[i], ss[i + 1])
    {
      CoordinatorStep(n, r, i);
    }
    assert WakesUnasked(n, ss[6], ss[7], 1);
    assert ss[0] == Start(n);
    LooseRunOf(n, r, ss, 6);
  }

  // Whatever the number of threads and calls, one such wakeup can let a thread
  // through a barrier that no other has reached.
  lemma SpuriousProceedBreaks(n: nat, r: nat) returns (ss: seq<State>, s: State, t: nat)
    requires n >= 2 && r >= 1
    ensures |ss| >= 1 && LooseRun(n, r, 1, ss) && s == ss[|ss| - 1] && WellFormed(n, s)
    ensures t < n && s.left[t] == 1 && forall u: nat :: u < n && u != t ==> s.entered[u] == 0
    ensures !AbstractBarrier.Together(n, Calls(s))
  {
    hide LooseRun;
    if n >= 4 {
      ss := MemberRun(n, r);
    } else {
      ss := CoordinatorRun(n, r);
    }
    s, t := ss[|ss| - 1], if n >= 4 then 2 else 1;
    assert s.left[t] > s.entered[0];
  }

  // Exactly when the barrier is safe: it keeps its promise in every run with at most
  // k spurious wakeups on proceedAllCond if and only if k is 0, or it is never called.
  lemma SafeIffNeverUnasked(n: nat, r: nat, k: nat)
    requires n >= 2
    ensures (forall ss :: LooseRun(n, r, k, ss) ==> AlwaysTogether(n, ss)) <==> k == 0 || r == 0
  {
    hide LooseRun, Next, NextUnasked;
    if k == 0 || r == 0 {
      forall ss | LooseRun(n, r, k, ss)
        ensures AlwaysTogether(n, ss)
      {
        if k == 0 {
          NoneUnasked(n, r, ss);
          forall i | 0 <= i < |ss| { RunIsSafe(n, r, ss, i); }
        } else {
          NoCallsNoSteps(n, k, ss);
        }
      }
    } else {
      var ss, s, t := SpuriousProceedBreaks(n, r);
      MoreUnasked(n, r, k, ss);
      assert !AbstractBarrier.Together(n, Calls(ss[|ss| - 1]));
    }
  }

  lemma MoreUnasked(n: nat, r: nat, k: nat, ss: seq<State>)
    requires k >= 1 && LooseRun(n, r, 1, ss)
    ensures LooseRun(n, r, k, ss)
  {
    hide Next, NextUnasked;
  }
}

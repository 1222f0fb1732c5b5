// What a barrier for n threads promises, whatever it is made of.
module AbstractBarrier {

  // How many calls each thread has begun and completed.
  datatype Calls = Calls(entered: seq<nat>, left: seq<nat>)

  ghost predicate Shape(n: nat, c: Calls) {
    |c.entered| == n && |c.left| == n
  }

  ghost function Start(n: nat): Calls {
    Calls(seq(n, _ => 0), seq(n, _ => 0))
  }

  ghost predicate CanEnter(n: nat, c: Calls, t: nat)
    requires Shape(n, c)
  {
    t < n && c.entered[t] == c.left[t]
  }

  // A thread completes its k-th call only when all have begun their k-th.
  ghost predicate CanLeave(n: nat, c: Calls, t: nat)
    requires Shape(n, c)
  {
    && t < n && c.entered[t] == c.left[t] + 1
    && forall u: nat :: u < n ==> c.entered[u] >= c.entered[t]
  }

  ghost function Enter(c: Calls, t: nat): Calls
    requires t < |c.entered|
  {
    c.(entered := c.entered[t := c.entered[t] + 1])
  }

  ghost function Leave(c: Calls, t: nat): Calls
    requires t < |c.left|
  {
    c.(left := c.left[t := c.left[t] + 1])
  }

  // Thread t begins a call, or completes one.
  ghost predicate ThreadStep(n: nat, c: Calls, c': Calls, t: nat) {
    && Shape(n, c)
    && ((CanEnter(n, c, t) && c' == Enter(c, t)) || (CanLeave(n, c, t) && c' == Leave(c, t)))
  }

  ghost predicate Next(n: nat, c: Calls, c': Calls) {
    exists t: nat :: ThreadStep(n, c, c', t)
  }

  // Nobody is a call ahead of anybody: completed by one, begun by all.
  ghost predicate Together(n: nat, c: Calls) {
    && Shape(n, c)
    && (forall t: nat, u: nat :: t < n && u < n ==> c.left[t] <= c.entered[u])
    && (forall t: nat :: t < n ==> c.left[t] <= c.entered[t] <= c.left[t] + 1)
  }

  lemma NextKeepsTogether(n: nat, c: Calls, c': Calls)
    requires Together(n, c) && Next(n, c, c')
    ensures Together(n, c')
  {
  }
}

/**
 * Connecting to the proxy's control path: sleep the next delay of a fixed
 * schedule, try to connect, and stop at the first success. Whether each
 * attempt succeeds is an input (`outcomes[i]` for the i-th attempt; an attempt
 * past the end of `outcomes` is refused). Delays are whole milliseconds.
 */
module Retry {

  /** 0.01, 0.1, 0.2, 0.4, 0.8, 1, 2 and 4 seconds. */
  const Schedule: seq<nat> := [10, 100, 200, 400, 800, 1000, 2000, 4000]

  /** The proxy accepts the i-th connect attempt. */
  predicate Accepts(outcomes: seq<bool>, i: nat)
  {
    i < |outcomes| && outcomes[i]
  }

  /** Some attempt within the schedule is accepted. */
  predicate Reachable(outcomes: seq<bool>)
  {
    exists i :: 0 <= i < |Schedule| && Accepts(outcomes, i)
  }

  /** How many attempts are made when the i-th is the next one. */
  function AttemptsFrom(outcomes: seq<bool>, i: nat): (n: nat)
    requires i < |Schedule|
    ensures i < n <= |Schedule|
    ensures forall j :: i <= j < n - 1 ==> !Accepts(outcomes, j)
    ensures n < |Schedule| ==> Accepts(outcomes, n - 1)
    decreases |Schedule| - i
  {
    if Accepts(outcomes, i) || i == |Schedule| - 1 then i + 1 else AttemptsFrom(outcomes, i + 1)
  }

  /**
   * The number of connect attempts: one more than the number of refusals
   * before the first acceptance, and never more than the schedule's length.
   */
  function Attempts(outcomes: seq<bool>): (n: nat)
    ensures 1 <= n <= |Schedule|
    ensures forall j :: 0 <= j < n - 1 ==> !Accepts(outcomes, j)
    ensures Reachable(outcomes) <==> Accepts(outcomes, n - 1)
  {
    AttemptsFrom(outcomes, 0)
  }

  /**
   * The loop of the manager's start. `slept` lists the delays slept, in
   * order; one connect attempt follows each of them.
   */
  method Connect(outcomes: seq<bool>) returns (connected: bool, slept: seq<nat>)
    ensures connected <==> Reachable(outcomes)
    ensures |slept| == Attempts(outcomes) && slept == Schedule[..|slept|]
    ensures connected ==> Accepts(outcomes, |slept| - 1)
    ensures forall j :: 0 <= j < |slept| - 1 ==> !Accepts(outcomes, j)
    ensures !connected ==> slept == Schedule
  {
    connected := false;
    slept := [];
    var i := 0;
    while i < |Schedule|
      invariant 0 <= i <= |Schedule|
      invariant slept == Schedule[..i]
      invariant forall j :: 0 <= j < i ==> !Accepts(outcomes, j)
    {
      slept := slept + [Schedule[i]];
      if i < |outcomes| && outcomes[i] {
        connected := true;
        assert Accepts(outcomes, i);
        return;
      }
      i := i + 1;
    }
  }
}

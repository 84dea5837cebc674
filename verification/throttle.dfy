/** The CPU monitor's pause flag and the waiter loop of every probe task. The
    sampling of CPU load is abstracted to one boolean per cycle, `overloaded`,
    standing for "average CPU usage > max_cpu + 4.0". */
module Throttle {

  /** One monitor cycle: the new value of the flag and whether a wake-all was issued. */
  function Transition(paused: bool, overloaded: bool): (r: (bool, bool))
    ensures r.0 == overloaded
    ensures r.1 <==> paused && !overloaded
  {
    if overloaded then (true, false) else (false, paused)
  }

  /** The number of wake-alls issued over consecutive cycles, starting from `paused`. */
  function Wakes(paused: bool, samples: seq<bool>): nat
    decreases |samples|
  {
    if samples == [] then 0
    else
      var (next, wake) := Transition(paused, samples[0]);
      (if wake then 1 else 0) + Wakes(next, samples[1..])
  }

  /** The number of overloaded cycles. */
  function Overloads(samples: seq<bool>): nat {
    if samples == [] then 0 else (if samples[0] then 1 else 0) + Overloads(samples[1..])
  }

  /** Every wake-all answers an earlier pause: over any run there are no more
      wake-alls than overloaded cycles (plus one if the run starts paused). */
  lemma {:induction false} WakesFollowPauses(paused: bool, samples: seq<bool>)
    ensures Wakes(paused, samples) <= Overloads(samples) + (if paused then 1 else 0)
    decreases |samples|
  {
    if samples != [] {
      WakesFollowPauses(samples[0], samples[1..]);
    }
  }

  /** The shared `pause_flag`, whose only writer is the monitor. */
  class PauseFlag {
    var paused: bool

    /** `AtomicBool::new(false)`. */
    constructor ()
      ensures !paused
    {
      paused := false;
    }

    /** One monitor cycle: overloaded sets the flag without notifying; otherwise the
        flag is swapped to false and waiters are woken only if it was set. */
    method Step(overloaded: bool) returns (wake: bool)
      modifies this
      ensures (paused, wake) == Transition(old(paused), overloaded)
    {
      if overloaded {
        paused := true;
        wake := false;
      } else {
        wake := paused;
        paused := false;
      }
    }

    /** `pause_flag.load(..)`: whether a task must keep waiting. */
    method IsPaused() returns (p: bool)
      ensures p == paused
    {
      p := paused;
    }

    /** A task in its waiter loop while the monitor runs the cycles `samples`: as long
        as the flag is set the task is blocked and each cycle runs; it re-checks the flag
        after the wake-all of the first cycle that is not overloaded. `proceeds` is false
        when the samples run out first. Every cycle is taken to run while the task is
        already registered for wake-ups; a cycle that lands between the task's load
        of the flag and its registration is not modelled. */
    method AwaitResume(samples: seq<bool>) returns (proceeds: bool, cycles: nat)
      modifies this
      ensures proceeds == !paused && cycles <= |samples|
      ensures !old(paused) ==> proceeds && cycles == 0
      ensures old(paused) && proceeds ==>
        && 1 <= cycles && !samples[cycles - 1]
        && Transition(true, samples[cycles - 1]).1
        && forall j :: 0 <= j < cycles - 1 ==> samples[j]
      ensures !proceeds ==> cycles == |samples| && forall j :: 0 <= j < |samples| ==> samples[j]
    {
      cycles := 0;
      while paused && cycles < |samples|
        invariant cycles <= |samples|
        invariant !old(paused) ==> cycles == 0 && !paused
        invariant old(paused) && cycles == 0 ==> paused
        invariant old(paused) && cycles > 0 ==> paused == samples[cycles - 1]
        invariant old(paused) ==> forall j :: 0 <= j < cycles - 1 ==> samples[j]
        invariant paused ==> forall j :: 0 <= j < cycles ==> samples[j]
        decreases |samples| - cycles
      {
        var wake := Step(samples[cycles]);
        cycles := cycles + 1;
      }
      proceeds := !paused;
    }
  }
}

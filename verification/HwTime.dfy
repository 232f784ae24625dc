/**
 * The hardware counters read as software time: what the fixed 1000 ns per pulse and 4 ns per tick
 * make of the counters of a master.
 */
module HwTime {
  import opened Words
  import opened ClkSync
  import opened Stats

  function TimeOf(s: Regs): nat { TimeNs(s.nbSync, s.currTick) }

  /** A master run that stays clear of both 32-bit wrap-arounds. */
  predicate InRange(s: Regs, period: u32, pulses: seq<bool>)
  {
    Aligned(s, period) && period <= TWO32 - 2 && |pulses| / (period + 2) < TWO32
  }

  function TimeAt(c: Params, s: Regs, pulses: seq<bool>, k: nat): nat
    requires k <= |pulses|
  {
    TimeOf(Run(c, s, pulses[..k]))
  }

  lemma TimeAtTick(s: Regs, period: u32, q: nat, r: nat)
    requires AtTick(s, period, q, r) && q < TWO32 && period <= TWO32 - 2
    ensures TimeOf(s) == 1000 * q + 4 * r
  {
  }

  lemma ErrorPerRound(m: int, q: int, r: int)
    ensures 1000 * q + 4 * r == 4 * (m * q + r) + (1000 - 4 * m) * q
  {
  }

  /** Converted time after k edges: four nanoseconds an edge, plus one fixed error a round. */
  lemma Drift(c: Params, s: Regs, period: u32, pulses: seq<bool>, k: nat) returns (q: nat, r: nat)
    requires InRange(s, period, pulses) && k <= |pulses|
    ensures k == (period + 2) * q + r && r < period + 2 && q == k / (period + 2)
    ensures TimeAt(c, s, pulses, k) == 1000 * q + 4 * r
    ensures TimeAt(c, s, pulses, k) == 4 * k + (1000 - 4 * (period + 2)) * q
  {
    q, r := MasterPosition(c, s, period, pulses[..k]);
    assert q == k / (period + 2) < TWO32 by {
      DivideIs(k, period + 2, q, r);
      DivMonotone(k, |pulses|, period + 2);
    }
    TimeAtTick(Run(c, s, pulses[..k]), period, q, r);
    ErrorPerRound(period + 2, q, r);
  }

  /** From one edge to the next, time advances by 4 ns, or at a rollover by 1000 - 4 * (period + 1). */
  lemma OneEdge(c: Params, s: Regs, period: u32, pulses: seq<bool>, k: nat)
    requires InRange(s, period, pulses) && k < |pulses|
    ensures TimeAt(c, s, pulses, k + 1) - TimeAt(c, s, pulses, k) ==
            if Run(c, s, pulses[..k]).PulseOut(pulses[k]) then 1000 - 4 * (period + 1) else 4
  {
    PulseMarksLastTick(c, s, period, pulses[..k], pulses[k]);
    var q, r := Drift(c, s, period, pulses, k);
    var q', r' := Drift(c, s, period, pulses, k + 1);
    DivModStep(k, period + 2);
    DivideIs(k, period + 2, q, r);
    DivideIs(k + 1, period + 2, q', r');
  }

  lemma {:induction false} NoStepBack(c: Params, s: Regs, period: u32, pulses: seq<bool>, i: nat, j: nat)
    requires InRange(s, period, pulses) && i <= j <= |pulses| && 4 * (period + 1) <= 1000
    ensures TimeAt(c, s, pulses, i) <= TimeAt(c, s, pulses, j)
    decreases j
  {
    if i < j {
      NoStepBack(c, s, period, pulses, i, j - 1);
      OneEdge(c, s, period, pulses, j - 1);
    }
  }

  /** Over a run with at least one rollover, converted time never goes backwards iff a round lasts no
      longer than the pulse length the software assumes. */
  lemma MonotoneIff(c: Params, s: Regs, period: u32, pulses: seq<bool>)
    requires InRange(s, period, pulses) && |pulses| >= period + 2
    ensures (forall i, j :: 0 <= i <= j <= |pulses| ==> TimeAt(c, s, pulses, i) <= TimeAt(c, s, pulses, j))
            <==> 4 * (period + 1) <= 1000
  {
    if 4 * (period + 1) <= 1000 {
      forall i, j | 0 <= i <= j <= |pulses|
        ensures TimeAt(c, s, pulses, i) <= TimeAt(c, s, pulses, j)
      {
        NoStepBack(c, s, period, pulses, i, j);
      }
    } else {
      var k := period + 1;
      DivideIs(k, period + 2, 0, k);
      PulseMarksLastTick(c, s, period, pulses[..k], pulses[k]);
      OneEdge(c, s, period, pulses, k);
    }
  }

  /** Converted time is real time, at 4 ns an edge, exactly for the period register value 248. */
  lemma ExactIff(c: Params, s: Regs, period: u32, pulses: seq<bool>)
    requires InRange(s, period, pulses) && |pulses| >= period + 2
    ensures (forall k :: 0 <= k <= |pulses| ==> TimeAt(c, s, pulses, k) == 4 * k) <==> period == 248
  {
    if period == 248 {
      forall k | 0 <= k <= |pulses|
        ensures TimeAt(c, s, pulses, k) == 4 * k
      {
        var q, r := Drift(c, s, period, pulses, k);
      }
    } else {
      var q, r := Drift(c, s, period, pulses, period + 2);
      DivideIs(period + 2, period + 2, 1, 0);
    }
  }

  /** The configured period of 322 (register value 321) takes 323 edges and sets converted time back
      by 288 ns at every pulse. */
  lemma ConfiguredMasterStepsBack(c: Params, s: Regs, pulses: seq<bool>, k: nat)
    requires InRange(s, 321, pulses) && k < |pulses|
    ensures k % 323 == 322 ==> TimeAt(c, s, pulses, k + 1) == TimeAt(c, s, pulses, k) - 288
  {
    PulseMarksLastTick(c, s, 321, pulses[..k], pulses[k]);
    OneEdge(c, s, 321, pulses, k);
  }
}

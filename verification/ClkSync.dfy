/**
 * The clock-synchronisation counters: the register block with its synchronisers and registered
 * period comparator, and the master/slave gating around it, as one transition per clock edge.
 */
module ClkSync {
  import opened Words

  /** The clocked registers.  Mode registers are true for MASTER. */
  datatype Regs = Regs(mode: bool, period: u32, nbSync: u32, currTick: u32,
                       periodMeta: u32, periodSync: u32, modeMeta: bool, modeSync: bool,
                       detect: bool)
  {
    // combinational signals

    predicate IncrNbSync(pulseIn: bool) { !modeSync && pulseIn }

    predicate IncrCurrTick(pulseIn: bool) { modeSync || IncrNbSync(pulseIn) }

    predicate PeriodDetect(pulseIn: bool) { detect && IncrCurrTick(pulseIn) }

    predicate PulseOut(pulseIn: bool) { modeSync && PeriodDetect(pulseIn) }
  }

  /** Power-on parameters: the mode, and the value reset gives the period register. */
  datatype Params = Params(master: bool, resetPeriod: u32)

  /** One rising edge; `rstn` low is reset. */
  function Edge(c: Params, s: Regs, rstn: bool, pulseIn: bool): Regs
  {
    Regs(
      if rstn then s.mode else c.master,
      if rstn then s.period else c.resetPeriod,
      if !rstn then 0
      else if s.IncrNbSync(pulseIn) || s.PeriodDetect(pulseIn) then Wrap32(s.nbSync + 1) else s.nbSync,
      if !rstn || s.IncrNbSync(pulseIn) then 0
      else if s.IncrCurrTick(pulseIn) then (if s.detect then 0 else Wrap32(s.currTick + 1))
      else s.currTick,
      s.period, s.periodMeta, s.mode, s.modeMeta,
      s.modeSync && s.currTick == s.periodSync)
  }

  /** The state after a run without reset; element k is sync_pulse_i at edge k. */
  function Run(c: Params, s: Regs, pulses: seq<bool>): Regs
  {
    if pulses == [] then s
    else Edge(c, Run(c, s, pulses[..|pulses| - 1]), true, pulses[|pulses| - 1])
  }

  function Reset(c: Params, s: Regs, pulses: seq<bool>): Regs
  {
    if pulses == [] then s
    else Edge(c, Reset(c, s, pulses[..|pulses| - 1]), false, pulses[|pulses| - 1])
  }

  /** The object the clock drives: each always_ff block reads the values from before the edge. */
  class ClkSyncPulse {
    const params: Params
    var regMasterMode: bool
    var regSyncPeriod: u32
    var regNbSync: u32
    var regCurrTick: u32
    var regSyncPeriodMeta: u32
    var regSyncPeriodSync: u32
    var regMasterModeMeta: bool
    var regMasterModeSync: bool
    var detectR: bool

    /** Registers power up with whatever they hold. */
    constructor (params: Params, powerUp: Regs)
      ensures this.params == params && State() == powerUp
    {
      this.params := params;
      regMasterMode, regSyncPeriod := powerUp.mode, powerUp.period;
      regNbSync, regCurrTick := powerUp.nbSync, powerUp.currTick;
      regSyncPeriodMeta, regSyncPeriodSync := powerUp.periodMeta, powerUp.periodSync;
      regMasterModeMeta, regMasterModeSync := powerUp.modeMeta, powerUp.modeSync;
      detectR := powerUp.detect;
    }

    function State(): Regs
      reads this
    {
      Regs(regMasterMode, regSyncPeriod, regNbSync, regCurrTick, regSyncPeriodMeta, regSyncPeriodSync,
           regMasterModeMeta, regMasterModeSync, detectR)
    }

    method Posedge(rstn: bool, pulseIn: bool)
      modifies this
      ensures State() == Edge(params, old(State()), rstn, pulseIn)
    {
      // wires, settled before the edge
      var incrNb := !regMasterModeSync && pulseIn;
      var incrTick := regMasterModeSync || incrNb;
      var periodDetect := detectR && incrTick;
      var reached := regMasterModeSync && regCurrTick == regSyncPeriodSync;

      // synchronisers: assigned from the far end so that each stage takes its predecessor's old value
      regSyncPeriodSync, regMasterModeSync := regSyncPeriodMeta, regMasterModeMeta;
      regSyncPeriodMeta, regMasterModeMeta := regSyncPeriod, regMasterMode;
      if !rstn {
        regMasterMode, regSyncPeriod := params.master, params.resetPeriod;
      }

      if !rstn {
        regNbSync := 0;
      } else if incrNb || periodDetect {
        regNbSync := Wrap32(regNbSync + 1);
      }

      if !rstn {
        regCurrTick := 0;
      } else if incrNb {
        regCurrTick := 0;
      } else if incrTick {
        regCurrTick := Wrap32(regCurrTick + 1);
        if detectR {
          regCurrTick := 0;
        }
      }
      detectR := reached;
    }

    /** The clock runs freely, out of reset. */
    method Clock(pulses: seq<bool>)
      modifies this
      ensures State() == Run(params, old(State()), pulses)
    {
      var k := 0;
      while k < |pulses|
        invariant 0 <= k <= |pulses|
        invariant State() == Run(params, old(State()), pulses[..k])
      {
        Posedge(true, pulses[k]);
        assert pulses[..k + 1][..k] == pulses[..k];
        k := k + 1;
      }
      assert pulses[..k] == pulses;
    }
  }

  // ---------------------------------------------------------------- settling

  /** The synchronisers have caught up with the mode and period registers. */
  predicate Settled(s: Regs, master: bool, period: u32)
  {
    && s.mode == s.modeMeta == s.modeSync == master
    && s.period == s.periodMeta == s.periodSync == period
  }

  lemma {:induction false} StaysSettled(c: Params, s: Regs, pulses: seq<bool>, master: bool, period: u32)
    requires Settled(s, master, period)
    ensures Settled(Run(c, s, pulses), master, period)
  {
    if pulses != [] {
      StaysSettled(c, s, pulses[..|pulses| - 1], master, period);
    }
  }

  /** Four edges of reset, from any power-up state, load the parameters through both synchroniser
      stages and clear the counters.  The comparator is not reset: it sits high exactly for a master
      whose period register is zero. */
  lemma {:induction false} ResetSettles(c: Params, s: Regs, pulses: seq<bool>)
    requires |pulses| >= 4
    ensures Reset(c, s, pulses) ==
            Regs(c.master, c.resetPeriod, 0, 0, c.resetPeriod, c.resetPeriod, c.master, c.master,
                 c.master && c.resetPeriod == 0)
  {
    var p1 := pulses[..|pulses| - 1];
    if |pulses| > 4 {
      ResetSettles(c, s, p1);
    } else {
      var p2 := p1[..2];
      var p3 := p2[..1];
      var s1 := Edge(c, s, false, p3[0]);
      assert p3[..0] == [] && Reset(c, s, p3) == s1;
      var s2 := Edge(c, s1, false, p2[1]);
      assert p2[..1] == p3 && Reset(c, s, p2) == s2;
      var s3 := Edge(c, s2, false, p1[2]);
      assert p1[..2] == p2 && Reset(c, s, p1) == s3;
    }
  }

  /** The synchronisers have two stages: what reset loads into period and mode registers arrives behind them
      two edges later and no sooner, and until then the values from before the reset come through; so they
      do, one edge later still, at the comparator. */
  lemma SynchronisersDelay(c: Params, s: Regs, p0: bool, p1: bool, p2: bool)
    ensures var r := Reset(c, s, [p0]);
            r.periodSync == s.periodMeta && r.modeSync == s.modeMeta
            && r.detect == (s.modeSync && s.currTick == s.periodSync)
    ensures var r := Reset(c, s, [p0, p1]);
            r.periodSync == s.period && r.modeSync == s.mode
            && r.detect == (s.modeMeta && s.periodMeta == 0)
    ensures var r := Reset(c, s, [p0, p1, p2]);
            r.periodSync == c.resetPeriod && r.modeSync == c.master
            && r.detect == (s.mode && s.period == 0)
  {
    assert [p0, p1, p2][..2] == [p0, p1] && [p0, p1][..1] == [p0] && [p0][..0] == [];
    assert Reset(c, s, [p0]) == Edge(c, s, false, p0);
    assert Reset(c, s, [p0, p1]) == Edge(c, Reset(c, s, [p0]), false, p1);
    assert Reset(c, s, [p0, p1, p2]) == Edge(c, Reset(c, s, [p0, p1]), false, p2);
  }

  // ---------------------------------------------------------------- master mode

  /** A settled master with everything cleared. */
  predicate Aligned(s: Regs, period: u32)
  {
    Settled(s, true, period) && s.nbSync == 0 && s.currTick == 0 && !s.detect
  }

  /** Position r of round q. */
  predicate AtTick(s: Regs, period: u32, q: nat, r: nat)
  {
    && Settled(s, true, period)
    && r < period + 2
    && s.nbSync == Wrap32(q) && s.currTick == Wrap32(r)
    && (s.detect <==> r == period + 1)
  }

  lemma MasterEdge(c: Params, s: Regs, period: u32, q: nat, r: nat, pulseIn: bool)
    requires AtTick(s, period, q, r)
    ensures var s' := Edge(c, s, true, pulseIn);
            if r == period + 1 then AtTick(s', period, q + 1, 0) else AtTick(s', period, q, r + 1)
  {
    Wrap32Later(q, 1);
    Wrap32Later(r, 1);
  }

  lemma {:induction false} MasterPosition(c: Params, s: Regs, period: u32, pulses: seq<bool>)
    returns (q: nat, r: nat)
    requires Aligned(s, period)
    ensures |pulses| == (period + 2) * q + r && AtTick(Run(c, s, pulses), period, q, r)
  {
    if pulses == [] {
      q, r := 0, 0;
    } else {
      var k := |pulses| - 1;
      q, r := MasterPosition(c, s, period, pulses[..k]);
      MasterEdge(c, Run(c, s, pulses[..k]), period, q, r, pulses[k]);
      assert (period + 2) * (q + 1) == (period + 2) * q + period + 2;
      if r == period + 1 {
        q, r := q + 1, 0;
      } else {
        r := r + 1;
      }
    }
  }

  /** Master time is mixed radix with period + 2 ticks to the pulse: one edge more than counting
      0..period, because the comparator is registered.  sync_pulse_i plays no part, and the statement
      covers the period 2^32 - 1, for which curr_tick itself wraps. */
  lemma MasterMixedRadix(c: Params, s: Regs, period: u32, pulses: seq<bool>)
    requires Aligned(s, period)
    ensures var r, k := Run(c, s, pulses), |pulses|;
            && Settled(r, true, period)
            && r.currTick == Wrap32(k % (period + 2))
            && r.nbSync == Wrap32(k / (period + 2))
            && (r.detect <==> k % (period + 2) == period + 1)
  {
    var q, r := MasterPosition(c, s, period, pulses);
    DivideIs(|pulses|, period + 2, q, r);
  }

  /** With period 2^32 - 2 or less the outgoing pulse is high exactly in the last tick of a round. */
  lemma PulseMarksLastTick(c: Params, s: Regs, period: u32, pulses: seq<bool>, pulseIn: bool)
    requires Aligned(s, period)
    ensures var r := Run(c, s, pulses);
            r.PulseOut(pulseIn) <==> |pulses| % (period + 2) == period + 1
    ensures period <= TWO32 - 2 ==>
              (Run(c, s, pulses).PulseOut(pulseIn) <==> Run(c, s, pulses).currTick == period + 1)
  {
    MasterMixedRadix(c, s, period, pulses);
  }

  /** The reset state is an aligned start unless the period register is zero; a master with period
      zero leaves reset with the comparator high, never ticks, and counts every single edge. */
  lemma {:induction false} ZeroPeriodCountsEveryEdge(c: Params, s: Regs, pulses: seq<bool>)
    requires Settled(s, true, 0) && s.nbSync == 0 && s.currTick == 0 && s.detect
    ensures var r := Run(c, s, pulses);
            Settled(r, true, 0) && r.detect && r.currTick == 0 && r.nbSync == Wrap32(|pulses|)
  {
    if pulses != [] {
      ZeroPeriodCountsEveryEdge(c, s, pulses[..|pulses| - 1]);
      Wrap32Later(|pulses| - 1, 1);
    }
  }

  /** Counting every edge and counting every second one agree only where both wrap together. */
  lemma HalvesAgreeIff(k: nat)
    ensures k % 2 == 0 && Wrap32(k) == Wrap32(k / 2) <==> k % (2 * TWO32) == 0
  {
    var h := k / 2;
    assert k == 2 * h + k % 2;
    if k % (2 * TWO32) == 0 {
      var m := k / (2 * TWO32);
      assert h == TWO32 * m && k % 2 == 0;
      assert Wrap32(2 * h) == 0 == Wrap32(h);
    }
    if k % 2 == 0 && Wrap32(k) == Wrap32(h) {
      var q, r := h / TWO32, h % TWO32;
      assert h == TWO32 * q + r && k == TWO32 * (2 * q) + 2 * r;
      Wrap32Shift(2 * r, 2 * q);
      assert Wrap32(2 * r) == r;
      assert r == 0;
      DivideIs(k, 2 * TWO32, q, 0);
    }
  }

  /** Mixed-radix time after k edges: the period plus two ticks to a pulse. */
  predicate KeepsTime(s: Regs, period: u32, k: nat)
  {
    s.currTick == Wrap32(k % (period + 2)) && s.nbSync == Wrap32(k / (period + 2))
  }

  /** From power-up: after reset a master keeps mixed-radix time as long as its period register is not
      zero; with zero it counts every edge, which agrees with that time after a multiple of 2^33 edges
      only, so never in the first 2^33 edges but the start. */
  lemma MasterAfterReset(c: Params, powerUp: Regs, reset: seq<bool>, pulses: seq<bool>)
    requires c.master && |reset| >= 4
    ensures var r, k, p := Run(c, Reset(c, powerUp, reset), pulses), |pulses|, c.resetPeriod;
            && (p == 0 ==> r.currTick == 0 && r.nbSync == Wrap32(k))
            && (KeepsTime(r, p, k) <==> p > 0 || k % (2 * TWO32) == 0)
  {
    ResetSettles(c, powerUp, reset);
    var s := Reset(c, powerUp, reset);
    if c.resetPeriod > 0 {
      MasterMixedRadix(c, s, c.resetPeriod, pulses);
    } else {
      ZeroPeriodCountsEveryEdge(c, s, pulses);
      HalvesAgreeIff(|pulses|);
    }
  }

  // ---------------------------------------------------------------- slave mode

  function Count(pulses: seq<bool>): nat
  {
    if pulses == [] then 0 else Count(pulses[..|pulses| - 1]) + Bit(pulses[|pulses| - 1])
  }

  /** A slave counts the edges at which its input pulse is high and never advances its tick. */
  lemma {:induction false} SlaveCountsPulses(c: Params, s: Regs, period: u32, pulses: seq<bool>)
    requires Settled(s, false, period) && s.currTick == 0 && !s.detect
    ensures var r := Run(c, s, pulses);
            && Settled(r, false, period) && !r.detect
            && r.currTick == 0
            && r.nbSync == Wrap32(s.nbSync + Count(pulses))
            && !r.PulseOut(true) && !r.PulseOut(false)
  {
    if pulses != [] {
      var before := pulses[..|pulses| - 1];
      SlaveCountsPulses(c, s, period, before);
      Wrap32Later(s.nbSync + Count(before), Bit(pulses[|pulses| - 1]));
    }
  }
}

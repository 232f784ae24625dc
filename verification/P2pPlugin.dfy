/**
 * The 322 MHz plugin: a packet detector and an injector on each lane, the OR of all detections carried
 * through two registers, and the clock-synchronisation counters behind them, in one clock domain.
 */
module P2pPlugin {
  import opened Words
  import opened ClkSync
  import opened PacketDetect
  import opened TimestampInject

  /** One in_packet register a lane (two lanes a port), the combiner's registers and the counters. */
  datatype Plugin = Plugin(inPacket: seq<bool>, meta: bool, combined: bool, regs: Regs)

  predicate AnyDetected(inPacket: seq<bool>, lanes: seq<Cycle>)
    requires |inPacket| == |lanes|
  {
    exists l :: 0 <= l < |lanes| && SyncDetected(inPacket[l], lanes[l])
  }

  /** The edge that ends a cycle.  `rstn` resets the counters alone: the combiner's registers have no
      reset, and each lane brings its own. */
  function PluginEdge(c: Params, s: Plugin, rstn: bool, lanes: seq<Cycle>): (r: Plugin)
    requires |lanes| == |s.inPacket|
    ensures |r.inPacket| == |s.inPacket|
  {
    Plugin(seq(|lanes|, l requires 0 <= l < |lanes| => NextInPacket(s.inPacket[l], lanes[l])),
           AnyDetected(s.inPacket, lanes), s.meta, Edge(c, s.regs, rstn, s.combined))
  }

  /** What a lane sends on during a cycle. */
  function Output(inPacket: bool, c: Cycle, tick: u32): Beat
  {
    if SyncDetected(inPacket, c) then Inject(c.data, tick) else c.data
  }

  predicate LaneDone(inPacket: bool, c: Cycle, tick: u32, sync: bool, next: bool, out: Beat)
  {
    sync == SyncDetected(inPacket, c) && next == NextInPacket(inPacket, c) && out == Output(inPacket, c, tick)
  }

  /** The generated lane instances: detection, injection and the next in_packet of each. */
  method Lanes(inPacket: seq<bool>, lanes: seq<Cycle>, tick: u32)
    returns (syncs: seq<bool>, next: seq<bool>, out: seq<Beat>)
    requires |lanes| == |inPacket|
    ensures |syncs| == |next| == |out| == |lanes|
    ensures forall l :: 0 <= l < |lanes| ==> syncs[l] == SyncDetected(inPacket[l], lanes[l])
    ensures forall l :: 0 <= l < |lanes| ==> next[l] == NextInPacket(inPacket[l], lanes[l])
    ensures forall l :: 0 <= l < |lanes| ==> out[l] == Output(inPacket[l], lanes[l], tick)
  {
    syncs, next, out := [], [], [];
    for l := 0 to |lanes|
      invariant l == |syncs| == |next| == |out|
      invariant forall k :: 0 <= k < l ==> LaneDone(inPacket[k], lanes[k], tick, syncs[k], next[k], out[k])
    {
      var detected := SyncDetected(inPacket[l], lanes[l]);
      var o := InsertTimestamp(lanes[l].data, detected, tick);
      assert LaneDone(inPacket[l], lanes[l], tick, detected, NextInPacket(inPacket[l], lanes[l]), o);
      syncs, next, out := syncs + [detected], next + [NextInPacket(inPacket[l], lanes[l])], out + [o];
    }
  }

  class P2p322 {
    var inPacket: seq<bool>
    var combinedMeta: bool
    var combinedR: bool
    const sync: ClkSyncPulse

    constructor (nLanes: nat, sync: ClkSyncPulse)
      ensures this.sync == sync && State() == Plugin(seq(nLanes, _ => false), false, false, sync.State())
    {
      inPacket, combinedMeta, combinedR := seq(nLanes, _ => false), false, false;
      this.sync := sync;
    }

    function State(): Plugin
      reads this, sync
    {
      Plugin(inPacket, combinedMeta, combinedR, sync.State())
    }

    /** One cycle of all lanes and the edge that ends it. */
    method Posedge(rstn: bool, lanes: seq<Cycle>) returns (out: seq<Beat>)
      requires |lanes| == |inPacket|
      modifies this, sync
      ensures State() == PluginEdge(sync.params, old(State()), rstn, lanes)
      ensures |out| == |lanes| && forall l :: 0 <= l < |out| ==>
                out[l] == Output(old(inPacket)[l], lanes[l], old(sync.regCurrTick))
    {
      var syncs, next;
      syncs, next, out := Lanes(inPacket, lanes, sync.regCurrTick);
      assert true in syncs <==> AnyDetected(inPacket, lanes);
      sync.Posedge(rstn, combinedR);
      combinedR := combinedMeta;
      combinedMeta := true in syncs;
      inPacket := next;
    }

    /** A run out of reset, from idle detectors: the beats that start a matching packet on their lane leave
        with a stamp, all others as they came. */
    method Clock(trace: seq<seq<Cycle>>) returns (out: seq<seq<Beat>>)
      requires Wide(trace, |inPacket|) && Idle(State())
      modifies this, sync
      ensures State() == RunPlugin(sync.params, old(State()), true, trace)
      ensures |out| == |trace| && forall t :: 0 <= t < |out| ==> |out[t]| == |trace[t]|
      ensures forall t, l :: 0 <= t < |out| && 0 <= l < |out[t]| ==>
                out[t][l] == Leaving(sync.params, old(State()), trace, t, l)
    {
      ghost var s := State();
      out := [];
      for t := 0 to |trace|
        invariant State() == RunPlugin(sync.params, s, true, trace[..t])
        invariant |out| == t && forall k :: 0 <= k < t ==> |out[k]| == |trace[k]|
        invariant forall k, l :: 0 <= k < t && 0 <= l < |out[k]| ==>
                    out[k][l] == Leaving(sync.params, s, trace, k, l)
      {
        ghost var r := State();
        var beats := Posedge(true, trace[t]);
        RunOneMore(sync.params, s, true, trace, t);
        forall l | 0 <= l < |beats|
          ensures beats[l] == Leaving(sync.params, s, trace, t, l)
        {
          LaneSends(sync.params, s, trace, t, l);
        }
        out := out + [beats];
      }
      assert trace[..|trace|] == trace;
    }
  }

  predicate Idle(s: Plugin) { forall l :: 0 <= l < |s.inPacket| ==> !s.inPacket[l] }

  // ---------------------------------------------------------------- runs

  predicate Wide(trace: seq<seq<Cycle>>, n: nat)
  {
    forall t :: 0 <= t < |trace| ==> |trace[t]| == n
  }

  /** A run during which the counters are held in reset (`rstn` low) or out of it. */
  function RunPlugin(c: Params, s: Plugin, rstn: bool, trace: seq<seq<Cycle>>): (r: Plugin)
    requires Wide(trace, |s.inPacket|)
    ensures |r.inPacket| == |s.inPacket|
  {
    if trace == [] then s
    else PluginEdge(c, RunPlugin(c, s, rstn, trace[..|trace| - 1]), rstn, trace[|trace| - 1])
  }

  lemma RunOneMore(c: Params, s: Plugin, rstn: bool, trace: seq<seq<Cycle>>, k: nat)
    requires Wide(trace, |s.inPacket|) && k < |trace|
    ensures RunPlugin(c, s, rstn, trace[..k + 1]) == PluginEdge(c, RunPlugin(c, s, rstn, trace[..k]), rstn, trace[k])
  {
    assert trace[..k + 1][..k] == trace[..k];
  }

  function Lane(trace: seq<seq<Cycle>>, n: nat, l: nat): (h: seq<Cycle>)
    requires Wide(trace, n) && l < n
    ensures |h| == |trace| && forall t :: 0 <= t < |trace| ==> h[t] == trace[t][l]
  {
    seq(|trace|, t requires 0 <= t < |trace| => trace[t][l])
  }

  /** In cycle t some lane starts a packet that carries the VLAN. */
  ghost predicate Hit(trace: seq<seq<Cycle>>, n: nat, t: nat)
    requires Wide(trace, n) && t < |trace|
  {
    exists l :: 0 <= l < n && StartsPacket(Lane(trace, n, l), t) && VlanMatch(trace[t][l].data)
  }

  /** The cycles among the first k with a hit. */
  ghost function Hits(trace: seq<seq<Cycle>>, n: nat, k: nat): nat
    requires Wide(trace, n) && k <= |trace|
  {
    if k == 0 then 0 else Hits(trace, n, k - 1) + Bit(Hit(trace, n, k - 1))
  }

  predicate FreshSlave(s: Plugin, period: u32)
  {
    && Idle(s)
    && !s.meta && !s.combined
    && Settled(s.regs, false, period) && s.regs.nbSync == 0 && s.regs.currTick == 0 && !s.regs.detect
  }

  /** Under reset the counters see nothing of the lanes but some sequence of pulses. */
  lemma {:induction false} ResetRegs(c: Params, s: Plugin, trace: seq<seq<Cycle>>) returns (pulses: seq<bool>)
    requires Wide(trace, |s.inPacket|)
    ensures |pulses| == |trace| && RunPlugin(c, s, false, trace).regs == Reset(c, s.regs, pulses)
  {
    if trace == [] {
      pulses := [];
    } else {
      var k := |trace| - 1;
      var before := ResetRegs(c, s, trace[..k]);
      pulses := before + [RunPlugin(c, s, false, trace[..k]).combined];
      assert pulses[..k] == before;
    }
  }

  /** A cycle of a lane that is held in reset and offered no beat. */
  predicate Silent(c: Cycle) { !c.rstn && !c.Accepted() }

  predicate AllSilent(lanes: seq<Cycle>) { forall l :: 0 <= l < |lanes| ==> Silent(lanes[l]) }

  lemma SilentEdge(c: Params, s: Plugin, rstn: bool, lanes: seq<Cycle>)
    requires |lanes| == |s.inPacket| && AllSilent(lanes)
    ensures var r := PluginEdge(c, s, rstn, lanes);
            !r.meta && r.combined == s.meta && forall l :: 0 <= l < |r.inPacket| ==> !r.inPacket[l]
  {
    assert forall l :: 0 <= l < |lanes| ==> Silent(lanes[l]);
  }

  /** Four edges of reset bring a slave plugin from whatever its registers power up with to the state that
      counting starts from, if the lanes are silent in the last two, which empties the combiner. */
  lemma ResetMakesFresh(c: Params, powerUp: Plugin, trace: seq<seq<Cycle>>)
    requires !c.master && Wide(trace, |powerUp.inPacket|) && |trace| >= 4
    requires AllSilent(trace[|trace| - 2]) && AllSilent(trace[|trace| - 1])
    ensures FreshSlave(RunPlugin(c, powerUp, false, trace), c.resetPeriod)
  {
    var k := |trace| - 2;
    var pulses := ResetRegs(c, powerUp, trace);
    ResetSettles(c, powerUp.regs, pulses);
    RunOneMore(c, powerUp, false, trace, k);
    RunOneMore(c, powerUp, false, trace, k + 1);
    assert trace[..k + 2] == trace;
    SilentEdge(c, RunPlugin(c, powerUp, false, trace[..k]), false, trace[k]);
    SilentEdge(c, RunPlugin(c, powerUp, false, trace[..k + 1]), false, trace[k + 1]);
  }

  /** Each lane's detector follows that lane alone. */
  lemma {:induction false} DetectorsFollowLanes(c: Params, s: Plugin, trace: seq<seq<Cycle>>, k: nat, l: nat)
    requires Idle(s) && Wide(trace, |s.inPacket|) && k <= |trace| && l < |s.inPacket|
    ensures RunPlugin(c, s, true, trace[..k]).inPacket[l] == InPacket(Lane(trace, |s.inPacket|, l)[..k])
  {
    var h := Lane(trace, |s.inPacket|, l);
    if k > 0 {
      DetectorsFollowLanes(c, s, trace, k - 1, l);
      assert trace[..k][..k - 1] == trace[..k - 1];
      assert h[..k][..k - 1] == h[..k - 1];
    }
  }

  lemma DetectorFires(c: Params, s: Plugin, trace: seq<seq<Cycle>>, t: nat, l: nat)
    requires Idle(s) && Wide(trace, |s.inPacket|) && t < |trace| && l < |s.inPacket|
    ensures SyncDetected(RunPlugin(c, s, true, trace[..t]).inPacket[l], trace[t][l]) <==>
            StartsPacket(Lane(trace, |s.inPacket|, l), t) && VlanMatch(trace[t][l].data)
  {
    DetectorsFollowLanes(c, s, trace, t, l);
    FirstBeatIff(Lane(trace, |s.inPacket|, l), t);
  }

  /** The beat that lane l sends on in cycle t: with the tick of that cycle injected if it starts a packet
      and carries the VLAN, otherwise unchanged. */
  ghost function Leaving(c: Params, s: Plugin, trace: seq<seq<Cycle>>, t: nat, l: nat): Beat
    requires Wide(trace, |s.inPacket|) && t < |trace| && l < |s.inPacket|
  {
    var d := trace[t][l].data;
    if StartsPacket(Lane(trace, |s.inPacket|, l), t) && VlanMatch(d) then
      Inject(d, RunPlugin(c, s, true, trace[..t]).regs.currTick)
    else d
  }

  /** That is what the lane's injector puts out, in any run from idle detectors, of a slave or a master. */
  lemma LaneSends(c: Params, s: Plugin, trace: seq<seq<Cycle>>, t: nat, l: nat)
    requires Idle(s) && Wide(trace, |s.inPacket|) && t < |trace| && l < |s.inPacket|
    ensures var r := RunPlugin(c, s, true, trace[..t]);
            Output(r.inPacket[l], trace[t][l], r.regs.currTick) == Leaving(c, s, trace, t, l)
  {
    DetectorFires(c, s, trace, t, l);
  }

  /** The combined wire is high in exactly the cycles with a hit. */
  lemma CombinedIsHit(c: Params, s: Plugin, trace: seq<seq<Cycle>>, k: nat)
    requires Idle(s) && Wide(trace, |s.inPacket|) && k < |trace|
    ensures AnyDetected(RunPlugin(c, s, true, trace[..k]).inPacket, trace[k]) <==> Hit(trace, |s.inPacket|, k)
  {
    var n := |s.inPacket|;
    var r := RunPlugin(c, s, true, trace[..k]);
    forall l | 0 <= l < n
      ensures SyncDetected(r.inPacket[l], trace[k][l]) <==>
              StartsPacket(Lane(trace, n, l), k) && VlanMatch(trace[k][l].data)
    {
      DetectorFires(c, s, trace, k, l);
    }
  }

  /** Hits from the start of the run on: none before it. */
  ghost predicate HitAt(trace: seq<seq<Cycle>>, n: nat, t: int)
    requires Wide(trace, n) && t < |trace|
  {
    t >= 0 && Hit(trace, n, t)
  }

  ghost function HitsUpTo(trace: seq<seq<Cycle>>, n: nat, k: int): nat
    requires Wide(trace, n) && k <= |trace|
  {
    if k < 0 then 0 else Hits(trace, n, k)
  }

  /** After k cycles the combiner holds the hits of the last two, and nb_sync counts all earlier ones. */
  ghost predicate CountsLate(s: Plugin, period: u32, trace: seq<seq<Cycle>>, n: nat, k: nat)
    requires Wide(trace, n) && k <= |trace|
  {
    && Settled(s.regs, false, period) && s.regs.currTick == 0 && !s.regs.detect
    && s.meta == HitAt(trace, n, k - 1)
    && s.combined == HitAt(trace, n, k - 2)
    && s.regs.nbSync == Wrap32(HitsUpTo(trace, n, k - 2))
  }

  lemma SlaveEdge(c: Params, s: Regs, period: u32, pulse: bool)
    requires Settled(s, false, period) && s.currTick == 0 && !s.detect
    ensures var r := Edge(c, s, true, pulse);
            Settled(r, false, period) && r.currTick == 0 && !r.detect && r.nbSync == Wrap32(s.nbSync + Bit(pulse))
  {
  }

  /** What two cycles ago was a hit is counted now. */
  lemma CountsNext(hits: nat, pulse: bool, nb: u32)
    requires nb == Wrap32(hits)
    ensures Wrap32(nb + Bit(pulse)) == Wrap32(hits + Bit(pulse))
  {
    Wrap32Later(hits, Bit(pulse));
  }

  lemma CountOneMore(c: Params, s: Plugin, period: u32, trace: seq<seq<Cycle>>, k: nat)
    requires Idle(s) && Wide(trace, |s.inPacket|) && k < |trace|
    requires CountsLate(RunPlugin(c, s, true, trace[..k]), period, trace, |s.inPacket|, k)
    ensures CountsLate(RunPlugin(c, s, true, trace[..k + 1]), period, trace, |s.inPacket|, k + 1)
  {
    var n, r := |s.inPacket|, RunPlugin(c, s, true, trace[..k]);
    CombinedIsHit(c, s, trace, k);
    RunOneMore(c, s, true, trace, k);
    CountsLateNext(c, r, period, trace, n, k);
  }

  lemma CountsLateNext(c: Params, r: Plugin, period: u32, trace: seq<seq<Cycle>>, n: nat, k: nat)
    requires Wide(trace, n) && k < |trace| && |r.inPacket| == n && CountsLate(r, period, trace, n, k)
    requires AnyDetected(r.inPacket, trace[k]) <==> Hit(trace, n, k)
    ensures CountsLate(PluginEdge(c, r, true, trace[k]), period, trace, n, k + 1)
  {
    SlaveEdge(c, r.regs, period, r.combined);
    CountsNext(HitsUpTo(trace, n, k - 2), r.combined, r.regs.nbSync);
    assert HitsUpTo(trace, n, k - 1) == HitsUpTo(trace, n, k - 2) + Bit(HitAt(trace, n, k - 2));
  }

  /** From the wires to the counter: nb_sync is at every moment the number of cycles, two cycles ago, in
      which at least one lane had started a matching packet.  Detections in the same cycle count once, and
      none is otherwise lost. */
  lemma {:induction false} SyncCounting(c: Params, s: Plugin, period: u32, trace: seq<seq<Cycle>>, k: nat)
    requires FreshSlave(s, period) && Wide(trace, |s.inPacket|) && k <= |trace|
    ensures CountsLate(RunPlugin(c, s, true, trace[..k]), period, trace, |s.inPacket|, k)
  {
    if k > 0 {
      SyncCounting(c, s, period, trace, k - 1);
      CountOneMore(c, s, period, trace, k - 1);
    } else {
      assert trace[..0] == [];
    }
  }

  // ---------------------------------------------------------------- stations on a path

  /** A plugin with its history, in whose last cycle a beat comes by on a lane and starts its packet. */
  datatype Station = Station(params: Params, start: Plugin, trace: seq<seq<Cycle>>, lane: nat)
  {
    ghost predicate Valid()
    {
      && Idle(start) && Wide(trace, |start.inPacket|) && trace != [] && lane < |start.inPacket|
      && StartsPacket(Lane(trace, |start.inPacket|, lane), |trace| - 1)
    }

    ghost function Now(): (r: Plugin)
      requires Valid()
      ensures |r.inPacket| == |start.inPacket|
    {
      RunPlugin(params, start, true, trace[..|trace| - 1])
    }

    ghost function Tick(): u32
      requires Valid()
    {
      Now().regs.currTick
    }

    ghost function In(): Beat
      requires Valid()
    {
      trace[|trace| - 1][lane].data
    }

    ghost function Out(): Beat
      requires Valid()
    {
      Output(Now().inPacket[lane], trace[|trace| - 1][lane], Tick())
    }
  }

  /** Each station's input beat is what its predecessor put out. */
  ghost predicate Linked(path: seq<Station>)
  {
    && path != [] && (forall i :: 0 <= i < |path| ==> path[i].Valid())
    && forall i, j :: 0 <= i && j == i + 1 < |path| ==> path[j].In() == path[i].Out()
  }

  ghost function Ticks(path: seq<Station>): (r: seq<u32>)
    requires forall i :: 0 <= i < |path| ==> path[i].Valid()
    ensures |r| == |path|
  {
    seq(|path|, i requires 0 <= i < |path| => path[i].Tick())
  }

  lemma StationHops(s: Station)
    requires s.Valid()
    ensures s.Out() == Hop(s.In(), s.Tick())
  {
    LaneSends(s.params, s.start, s.trace, |s.trace| - 1, s.lane);
  }

  /** What leaves the last station is what a chain of hops makes of the beat that came to the first. */
  lemma {:induction false} PathIsHops(path: seq<Station>)
    requires Linked(path)
    ensures path[|path| - 1].Out() == Hops(path[0].In(), Ticks(path))
  {
    var k, ticks := |path| - 1, Ticks(path);
    StationHops(path[k]);
    if k > 0 {
      PathIsHops(path[..k]);
      assert Ticks(path[..k]) == ticks[..k];
      assert path[k].In() == path[k - 1].Out();
    } else {
      assert ticks[..0] == [];
    }
    LastHop(path[0].In(), path[k].In(), ticks, ticks[..k], ticks[k]);
  }

  lemma LastHop(d: Beat, e: Beat, ticks: seq<u32>, before: seq<u32>, last: u32)
    requires ticks != [] && before == ticks[..|ticks| - 1] && last == ticks[|ticks| - 1] && e == Hops(d, before)
    ensures Hops(d, ticks) == Hop(e, last)
  {
  }

  /** A matching beat that passes any number of stations in the default slave mode, whatever their
      histories, leaves with a single stamp, and its tick is zero: no elapsed time reaches the packet. */
  lemma SlaveStationsStampZero(path: seq<Station>, periods: seq<u32>)
    requires Linked(path) && |periods| == |path|
    requires forall i :: 0 <= i < |path| ==> FreshSlave(path[i].start, periods[i])
    ensures var d := path[0].In();
            path[|path| - 1].Out() == if VlanMatch(d) then Inject(d, 0) else d
  {
    var d, ticks := path[0].In(), Ticks(path);
    forall i | 0 <= i < |path|
      ensures ticks[i] == 0
    {
      var p := path[i];
      SyncCounting(p.params, p.start, periods[i], p.trace, |p.trace| - 1);
    }
    PathIsHops(path);
    ChainIsLastHopIff(d, ticks);
  }
}

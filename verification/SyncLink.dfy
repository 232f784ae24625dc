/** A master whose outgoing pulse reaches a slave through a delay of d clock cycles. */
module SyncLink {
  import opened Words
  import opened ClkSync

  /** The line holds the pulses under way, oldest first; its length is the delay. */
  datatype Link = Link(master: Regs, line: seq<bool>, slave: Regs)

  function LinkEdge(cm: Params, cs: Params, l: Link, ext: bool): Link
  {
    var sent := l.line + [l.master.PulseOut(ext)];
    Link(Edge(cm, l.master, true, ext), sent[1..], Edge(cs, l.slave, true, sent[0]))
  }

  function RunLink(cm: Params, cs: Params, l: Link, ext: seq<bool>): Link
  {
    if ext == [] then l else LinkEdge(cm, cs, RunLink(cm, cs, l, ext[..|ext| - 1]), ext[|ext| - 1])
  }

  /** The master's pulse at edge k, false before the run. */
  function PulseAt(cm: Params, m: Regs, ext: seq<bool>, k: int): bool
    requires k < |ext|
  {
    k >= 0 && Run(cm, m, ext[..k]).PulseOut(ext[k])
  }

  lemma MasterEdgeCounts(cm: Params, s: Regs, period: u32, ext: bool)
    requires Settled(s, true, period)
    ensures Edge(cm, s, true, ext).nbSync == if s.PulseOut(ext) then Wrap32(s.nbSync + 1) else s.nbSync
  {
  }

  /** A settled master counts its own pulses, aligned or not. */
  lemma MasterCountsItsPulses(cm: Params, m: Regs, period: u32, ext: seq<bool>)
    requires Settled(m, true, period) && ext != []
    ensures var k := |ext| - 1;
            var nb := Run(cm, m, ext[..k]).nbSync;
            Run(cm, m, ext).nbSync == if PulseAt(cm, m, ext, k) then Wrap32(nb + 1) else nb
  {
    var k := |ext| - 1;
    StaysSettled(cm, m, ext[..k], true, period);
    MasterEdgeCounts(cm, Run(cm, m, ext[..k]), period, ext[k]);
  }

  predicate Quiet(l: Link, mPeriod: u32, sPeriod: u32)
  {
    && Settled(l.master, true, mPeriod) && l.master.nbSync == 0
    && Settled(l.slave, false, sPeriod) && l.slave.nbSync == 0 && l.slave.currTick == 0 && !l.slave.detect
    && forall x :: 0 <= x < |l.line| ==> !l.line[x]
  }

  /** What the line holds after k edges: the master's last d pulses. */
  predicate LineHolds(cm: Params, m: Regs, ext: seq<bool>, line: seq<bool>)
  {
    forall x :: 0 <= x < |line| ==> line[x] == PulseAt(cm, m, ext, |ext| - |line| + x)
  }

  lemma PulseAtPrefix(cm: Params, m: Regs, ext: seq<bool>, n: nat, k: int)
    requires k < n <= |ext|
    ensures PulseAt(cm, m, ext[..n], k) == PulseAt(cm, m, ext, k)
  {
    if k >= 0 {
      assert ext[..n][..k] == ext[..k];
    }
  }

  lemma {:induction false} LineCarriesPulses(cm: Params, cs: Params, l: Link, ext: seq<bool>)
    requires forall x :: 0 <= x < |l.line| ==> !l.line[x]
    ensures var r := RunLink(cm, cs, l, ext);
            && r.master == Run(cm, l.master, ext)
            && |r.line| == |l.line|
            && LineHolds(cm, l.master, ext, r.line)
  {
    if ext != [] {
      var before := ext[..|ext| - 1];
      LineCarriesPulses(cm, cs, l, before);
      LineMoves(cm, l.master, ext, RunLink(cm, cs, l, before).line);
    }
  }

  /** The pulse that reaches the slave at edge k left the master d edges earlier. */
  lemma SlaveHears(cm: Params, cs: Params, l: Link, ext: seq<bool>)
    requires ext != [] && forall x :: 0 <= x < |l.line| ==> !l.line[x]
    ensures var k, d := |ext| - 1, |l.line|;
            RunLink(cm, cs, l, ext).slave ==
            Edge(cs, RunLink(cm, cs, l, ext[..k]).slave, true, PulseAt(cm, l.master, ext, k - d))
  {
    var before := ext[..|ext| - 1];
    LineCarriesPulses(cm, cs, l, before);
    LineMoves(cm, l.master, ext, RunLink(cm, cs, l, before).line);
  }

  /** The master's nb_sync after j edges, zero before the run. */
  function MasterNb(cm: Params, m: Regs, ext: seq<bool>, j: int): u32
    requires j <= |ext|
  {
    if j < 0 then 0 else Run(cm, m, ext[..j]).nbSync
  }

  lemma MasterNbStep(cm: Params, m: Regs, period: u32, ext: seq<bool>, j: int)
    requires Settled(m, true, period) && m.nbSync == 0 && j < |ext|
    ensures MasterNb(cm, m, ext, j + 1) == if PulseAt(cm, m, ext, j) then Wrap32(MasterNb(cm, m, ext, j) + 1)
                                           else MasterNb(cm, m, ext, j)
  {
    if j >= 0 {
      var upTo := ext[..j + 1];
      assert upTo[..j] == ext[..j];
      PulseAtPrefix(cm, m, ext, j + 1, j);
      MasterCountsItsPulses(cm, m, period, upTo);
    }
  }

  lemma MasterNbPrefix(cm: Params, m: Regs, ext: seq<bool>, n: nat, j: int)
    requires j <= n <= |ext|
    ensures MasterNb(cm, m, ext[..n], j) == MasterNb(cm, m, ext, j)
  {
    if j >= 0 {
      assert ext[..n][..j] == ext[..j];
    }
  }

  predicate SlaveAt(s: Regs, period: u32, nb: u32)
  {
    Settled(s, false, period) && s.nbSync == nb && s.currTick == 0 && !s.detect
  }

  lemma SlaveEdge(cs: Params, s: Regs, period: u32, nb: u32, pulse: bool)
    requires SlaveAt(s, period, nb)
    ensures SlaveAt(Edge(cs, s, true, pulse), period, if pulse then Wrap32(nb + 1) else nb)
  {
  }

  /** The slave's nb_sync is at every moment the value the master's had d edges before, zero until
      then: a slave is a delayed master, whatever else happens on the master's pulse input. */
  lemma {:induction false} SlaveIsDelayedMaster(cm: Params, cs: Params, l: Link, mPeriod: u32, sPeriod: u32,
                                                ext: seq<bool>)
    requires Quiet(l, mPeriod, sPeriod)
    ensures SlaveAt(RunLink(cm, cs, l, ext).slave, sPeriod, MasterNb(cm, l.master, ext, |ext| - |l.line|))
  {
    if ext != [] {
      var k := |ext| - 1;
      var j := k - |l.line|;
      SlaveIsDelayedMaster(cm, cs, l, mPeriod, sPeriod, ext[..k]);
      MasterNbPrefix(cm, l.master, ext, k, j);
      SlaveHears(cm, cs, l, ext);
      SlaveEdge(cs, RunLink(cm, cs, l, ext[..k]).slave, sPeriod, MasterNb(cm, l.master, ext, j),
                PulseAt(cm, l.master, ext, j));
      MasterNbStep(cm, l.master, mPeriod, ext, j);
    } else {
      assert ext[..0] == [];
    }
  }

  /** One more edge: the oldest pulse leaves and the newest enters. */
  lemma LineMoves(cm: Params, m: Regs, ext: seq<bool>, line: seq<bool>)
    requires ext != [] && LineHolds(cm, m, ext[..|ext| - 1], line)
    ensures var sent := line + [PulseAt(cm, m, ext, |ext| - 1)];
            sent[0] == PulseAt(cm, m, ext, |ext| - 1 - |line|) && LineHolds(cm, m, ext, sent[1..])
  {
    var k, d := |ext| - 1, |line|;
    var sent := line + [PulseAt(cm, m, ext, k)];
    forall x | 0 <= x <= d
      ensures sent[x] == PulseAt(cm, m, ext, k - d + x)
    {
      if x < d {
        PulseAtPrefix(cm, m, ext, k, k - d + x);
      }
    }
  }
}

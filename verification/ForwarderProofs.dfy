/** What every interleaving of the forwarder keeps. */
module ForwarderProofs {
  import opened Words
  import opened Forwarder

  lemma RunOneMore(c: Config, schedule: seq<Action>, a: Action)
    requires c.Valid()
    ensures Run(c, schedule + [a]) == Step(c, Run(c, schedule), a)
  {
    assert (schedule + [a])[..|schedule|] == schedule;
  }

  predicate Idle(pc: RxPc) { pc == RxAtLoop || pc == RxPolling || pc == RxExited }

  /** A thread holds buffers exactly between a burst and their disposal. */
  predicate Held(s: State)
  {
    && (s.rx == [] <==> Idle(s.rxPc))
    && (s.tx == [] <==> s.txPc == TxAtLoop || s.txPc == TxPolling || s.txPc == TxExited)
    && |s.rx| <= BURST_SIZE && |s.tx| <= BURST_SIZE
  }

  lemma DequeueHeld(s: State)
    requires Held(s)
    ensures Held(AfterDequeue(s))
  {
  }

  lemma TransmitHeld(s: State, k: nat)
    requires Held(s) && |s.rr.perQueue| > 0
    ensures Held(AfterTransmit(s, k))
  {
  }

  lemma FreesHeld(s: State)
    requires Held(s)
    ensures Held(AfterRxFree(s)) && Held(AfterTxFree(s))
  {
  }

  lemma ReceiveSideHeld(c: Config, s: State, mbufs: seq<Mbuf>)
    requires Held(s)
    ensures Held(AfterRxCheck(s)) && Held(AfterReceive(s, mbufs)) && Held(AfterEnqueue(c, s))
  {
  }

  lemma StepHeld(c: Config, s: State, a: Action)
    requires c.Valid() && |s.rr.perQueue| == c.nbTxQs && Held(s)
    ensures Held(Step(c, s, a))
  {
    match a {
      case RxCheck => ReceiveSideHeld(c, s, []);
      case RxBurst(mbufs) => ReceiveSideHeld(c, s, mbufs);
      case RxBulk => ReceiveSideHeld(c, s, []);
      case RxFree => FreesHeld(s);
      case TxDequeue => DequeueHeld(s);
      case TxBurst(k) => TransmitHeld(s, k);
      case TxFree => FreesHeld(s);
      case _ =>
    }
  }

  lemma {:induction false} AlwaysHeld(c: Config, schedule: seq<Action>)
    requires c.Valid()
    ensures Held(Run(c, schedule))
  {
    if schedule != [] {
      var p := schedule[..|schedule| - 1];
      AlwaysHeld(c, p);
      StepHeld(c, Run(c, p), schedule[|schedule| - 1]);
    }
  }

  // ---------------------------------------------------------------- where buffers are

  /** Every place a buffer can be in. */
  function Stock(s: State): multiset<Mbuf>
  {
    s.mem.pool + s.mem.wire + multiset(s.rx) + multiset(s.ring) + multiset(s.tx)
  }

  /** The buffers of the pool, each in exactly one place, once, and nothing else in any. */
  predicate Owned(c: Config, s: State) { Stock(s) == multiset(Range(0, c.pool)) }

  lemma {:induction false} RangeOnce(a: nat, b: nat, m: nat)
    requires a <= b
    ensures multiset(Range(a, b))[m] == Bit(a <= m < b)
    decreases b
  {
    if a < b {
      RangeOnce(a, b - 1, m);
      assert Range(a, b) == Range(a, b - 1) + [b - 1];
    }
  }

  lemma OwnedMeansOnce(c: Config, s: State, m: Mbuf)
    requires Owned(c, s)
    ensures s.mem.pool[m] + s.mem.wire[m] + multiset(s.rx)[m] + multiset(s.ring)[m] + multiset(s.tx)[m]
            == Bit(m < c.pool)
  {
    RangeOnce(0, c.pool, m);
    assert Stock(s)[m] == Bit(m < c.pool);
  }

  lemma Split(s: seq<Mbuf>, k: nat)
    requires k <= |s|
    ensures multiset(s) == multiset(s[..k]) + multiset(s[k..])
  {
    assert s == s[..k] + s[k..];
  }

  /** Bulk enqueue in the two readings: the commented one moves the burst or keeps it to be freed; the
      written one leaves an accepted burst in two places and a refused one in none. */
  lemma BulkStock(c: Config, s: State)
    requires s.rxPc == RxEnqueueing
    ensures var r := AfterEnqueue(c, s);
            if c.reading == Commented then Stock(r) == Stock(s)
            else if Fits(c, s) then Stock(r) == Stock(s) + multiset(s.rx)
            else Stock(s) == Stock(r) + multiset(s.rx)
  {
  }

  lemma BurstStock(s: State, mbufs: seq<Mbuf>)
    requires Held(s)
    ensures Stock(AfterReceive(s, mbufs)) == Stock(s)
  {
  }

  lemma RxFreeStock(s: State)
    ensures Stock(AfterRxFree(s)) == Stock(s)
  {
    if s.rx != [] {
      assert s.rx == [s.rx[0]] + s.rx[1..];
    }
  }

  lemma TxFreeStock(s: State)
    ensures Stock(AfterTxFree(s)) == Stock(s)
  {
    if s.tx != [] {
      assert s.tx == [s.tx[0]] + s.tx[1..];
    }
  }

  lemma DequeueStock(s: State)
    requires Held(s)
    ensures Stock(AfterDequeue(s)) == Stock(s)
  {
    Split(s.ring, Min(BURST_SIZE, |s.ring|));
  }

  lemma TransmitStock(s: State, k: nat)
    requires |s.rr.perQueue| > 0
    ensures Stock(AfterTransmit(s, k)) == Stock(s)
  {
    if k <= |s.tx| {
      Split(s.tx, k);
    }
  }

  lemma ReturnStock(s: State, mbufs: seq<Mbuf>)
    ensures Stock(s.(mem := s.mem.Return(mbufs))) == Stock(s)
  {
  }

  /** Only a bulk enqueue can do more than move buffers. */
  lemma OthersMoveBuffers(c: Config, s: State, a: Action)
    requires c.Valid() && |s.rr.perQueue| == c.nbTxQs && Held(s) && (a.RxBulk? ==> s.rxPc != RxEnqueueing)
    ensures Stock(Step(c, s, a)) == Stock(s)
  {
    match a {
      case RxBurst(mbufs) => BurstStock(s, mbufs);
      case RxFree => RxFreeStock(s);
      case TxDequeue => DequeueStock(s);
      case TxBurst(k) => TransmitStock(s, k);
      case TxFree => TxFreeStock(s);
      case Complete(mbufs) => ReturnStock(s, mbufs);
      case _ =>
    }
  }

  lemma StepOwned(c: Config, s: State, a: Action)
    requires c.Valid() && |s.rr.perQueue| == c.nbTxQs && Held(s) && c.reading == Commented
    ensures Stock(Step(c, s, a)) == Stock(s)
  {
    if a.RxBulk? && s.rxPc == RxEnqueueing {
      BulkStock(c, s);
    } else {
      OthersMoveBuffers(c, s, a);
    }
  }

  /** In the commented reading every buffer is in exactly one place at every moment: none is lost, freed
      twice, or both released and still in use. */
  lemma {:induction false} AlwaysOwned(c: Config, schedule: seq<Action>)
    requires c.Valid() && c.reading == Commented
    ensures Owned(c, Run(c, schedule))
  {
    if schedule != [] {
      var p, a := schedule[..|schedule| - 1], schedule[|schedule| - 1];
      AlwaysOwned(c, p);
      AlwaysHeld(c, p);
      StepOwned(c, Run(c, p), a);
    }
  }

  // ---------------------------------------------------------------- what buffers hold

  lemma {:induction false} LastIndexSkips(s: seq<Mbuf>, t: seq<Mbuf>, m: Mbuf)
    requires m !in t
    ensures LastIndex(s + t, m) == LastIndex(s, m)
    decreases |t|
  {
    if t == [] {
      assert s + t == s;
    } else {
      assert (s + t)[..|s + t| - 1] == s + t[..|t| - 1];
      LastIndexSkips(s, t[..|t| - 1], m);
    }
  }

  predicate Distinct(s: seq<Mbuf>)
  {
    forall i, j :: 0 <= i < j < |s| ==> s[i] != s[j]
  }

  lemma {:induction false} LastIndexHits(s: seq<Mbuf>, t: seq<Mbuf>, i: nat)
    requires Distinct(t) && i < |t|
    ensures LastIndex(s + t, t[i]) == |s| + i
    decreases |t|
  {
    var p := t[..|t| - 1];
    assert (s + t)[..|s + t| - 1] == s + p;
    if i < |p| {
      assert p[i] == t[i];
      LastIndexHits(s, p, i);
    }
  }

  predicate Apart(s: seq<Mbuf>, t: seq<Mbuf>)
  {
    forall m | m in s :: m !in t
  }

  lemma OthersKeepPackets(b: Buffers, mbufs: seq<Mbuf>, other: seq<Mbuf>)
    requires Apart(other, mbufs)
    ensures b.Take(mbufs).Packets(other) == b.Packets(other)
  {
    forall i | 0 <= i < |other|
      ensures b.Take(mbufs).At(other[i]) == b.At(other[i])
    {
      assert other[i] in other;
      LastIndexSkips(b.filled, mbufs, other[i]);
    }
  }

  lemma TakenHoldNewPackets(b: Buffers, mbufs: seq<Mbuf>)
    requires Distinct(mbufs)
    ensures b.Take(mbufs).Packets(mbufs) == Range(|b.filled|, |b.filled| + |mbufs|)
  {
    forall i | 0 <= i < |mbufs|
      ensures b.Take(mbufs).At(mbufs[i]) == |b.filled| + i
    {
      LastIndexHits(b.filled, mbufs, i);
    }
  }

  lemma SameFilled(b: Buffers, d: Buffers, mbufs: seq<Mbuf>)
    requires b.filled == d.filled
    ensures b.Packets(mbufs) == d.Packets(mbufs)
  {
  }

  lemma PacketsJoin(b: Buffers, s: seq<Mbuf>, t: seq<Mbuf>)
    ensures b.Packets(s + t) == b.Packets(s) + b.Packets(t)
  {
  }

  lemma PacketsSplit(b: Buffers, s: seq<Mbuf>, k: nat)
    requires k <= |s|
    ensures b.Packets(s) == b.Packets(s[..k]) + b.Packets(s[k..])
  {
    assert s == s[..k] + s[k..];
    PacketsJoin(b, s[..k], s[k..]);
  }

  /** A burst into buffers that nobody still relies on. */
  predicate Fresh(s: State, mbufs: seq<Mbuf>)
  {
    Distinct(mbufs) && Apart(s.ring, mbufs) && Apart(s.tx, mbufs)
  }

  /** No burst of the schedule is written into a queued buffer. */
  predicate Clean(c: Config, schedule: seq<Action>)
    requires c.Valid()
  {
    schedule == [] ||
    var p, a := schedule[..|schedule| - 1], schedule[|schedule| - 1];
    Clean(c, p) && (a.RxBurst? && Delivers(Run(c, p), a.mbufs) ==> Fresh(Run(c, p), a.mbufs))
  }

  lemma {:induction false} Multiplicity(s: seq<Mbuf>, i: nat, j: nat)
    requires i < j < |s| && s[i] == s[j]
    ensures multiset(s)[s[i]] >= 2
  {
    assert s == s[..i] + [s[i]] + s[i + 1..j] + [s[j]] + s[j + 1..];
  }

  lemma OwnedMakesFresh(c: Config, s: State, mbufs: seq<Mbuf>)
    requires Owned(c, s) && multiset(mbufs) <= s.mem.pool
    ensures Fresh(s, mbufs)
  {
    forall i, j | 0 <= i < j < |mbufs|
      ensures mbufs[i] != mbufs[j]
    {
      OwnedMeansOnce(c, s, mbufs[i]);
      if mbufs[i] == mbufs[j] {
        Multiplicity(mbufs, i, j);
      }
    }
    forall m | m in s.ring || m in s.tx
      ensures m !in mbufs
    {
      OwnedMeansOnce(c, s, m);
      assert m in mbufs ==> multiset(mbufs)[m] >= 1;
    }
  }

  lemma {:induction false} CommentedIsClean(c: Config, schedule: seq<Action>)
    requires c.Valid() && c.reading == Commented
    ensures Clean(c, schedule)
  {
    if schedule != [] {
      var p, a := schedule[..|schedule| - 1], schedule[|schedule| - 1];
      CommentedIsClean(c, p);
      if a.RxBurst? && Delivers(Run(c, p), a.mbufs) {
        AlwaysOwned(c, p);
        OwnedMakesFresh(c, Run(c, p), a.mbufs);
      }
    }
  }

  // ---------------------------------------------------------------- packets

  /** Every packet received so far is in one thread's hands, in the ring, sent or dropped, once. */
  predicate Conserved(s: State)
  {
    multiset(s.mem.Packets(s.rx)) + multiset(s.mem.Packets(s.ring)) + multiset(s.mem.Packets(s.tx))
    + multiset(s.sent) + multiset(s.dropped) == multiset(Range(0, s.Received()))
  }

  lemma BurstConserves(s: State, mbufs: seq<Mbuf>)
    requires Held(s) && Conserved(s) && (Delivers(s, mbufs) ==> Fresh(s, mbufs))
    ensures Conserved(AfterReceive(s, mbufs))
  {
    if Delivers(s, mbufs) {
      var n, k := s.Received(), |mbufs|;
      OthersKeepPackets(s.mem, mbufs, s.ring);
      OthersKeepPackets(s.mem, mbufs, s.tx);
      TakenHoldNewPackets(s.mem, mbufs);
      assert s.mem.Packets(s.rx) == [];
      assert Range(0, n + k) == Range(0, n) + Range(n, n + k);
      var r := AfterReceive(s, mbufs);
      assert r.mem.Packets(r.rx) == Range(n, n + k) && r.Received() == n + k;
      assert multiset(Range(0, n + k)) == multiset(Range(0, n)) + multiset(Range(n, n + k));
    }
  }

  lemma EnqueueConserves(c: Config, s: State)
    requires Conserved(s) && c.reading == Commented
    ensures Conserved(AfterEnqueue(c, s))
  {
    PacketsJoin(s.mem, s.ring, s.rx);
    assert s.mem.Packets([]) == [];
  }

  lemma RxFreeConserves(s: State)
    requires Conserved(s)
    ensures Conserved(AfterRxFree(s))
  {
    var r := AfterRxFree(s);
    if r != s {
      PacketsSplit(s.mem, s.rx, 1);
      assert s.mem.Packets(s.rx[..1]) == [s.mem.At(s.rx[0])];
      SameFilled(s.mem, r.mem, s.rx[1..]);
      SameFilled(s.mem, r.mem, s.ring);
      SameFilled(s.mem, r.mem, s.tx);
    }
  }

  lemma TxFreeConserves(s: State)
    requires Conserved(s)
    ensures Conserved(AfterTxFree(s))
  {
    var r := AfterTxFree(s);
    if r != s {
      PacketsSplit(s.mem, s.tx, 1);
      assert s.mem.Packets(s.tx[..1]) == [s.mem.At(s.tx[0])];
      SameFilled(s.mem, r.mem, s.tx[1..]);
      SameFilled(s.mem, r.mem, s.ring);
      SameFilled(s.mem, r.mem, s.rx);
    }
  }

  lemma DequeueConserves(s: State)
    requires Held(s) && Conserved(s)
    ensures Conserved(AfterDequeue(s))
  {
    var n := Min(BURST_SIZE, |s.ring|);
    PacketsSplit(s.mem, s.ring, n);
    if s.txPc == TxPolling {
      assert s.mem.Packets(s.tx) == [];
    }
  }

  lemma TransmitConserves(s: State, k: nat)
    requires |s.rr.perQueue| > 0 && Conserved(s)
    ensures Conserved(AfterTransmit(s, k))
  {
    var r := AfterTransmit(s, k);
    if r != s {
      PacketsSplit(s.mem, s.tx, k);
      SameFilled(s.mem, r.mem, s.tx[k..]);
      SameFilled(s.mem, r.mem, s.ring);
      SameFilled(s.mem, r.mem, s.rx);
    }
  }

  lemma ReturnConserves(s: State, mbufs: seq<Mbuf>)
    requires Conserved(s)
    ensures Conserved(s.(mem := s.mem.Return(mbufs)))
  {
    var r := s.(mem := s.mem.Return(mbufs));
    SameFilled(s.mem, r.mem, s.rx);
    SameFilled(s.mem, r.mem, s.ring);
    SameFilled(s.mem, r.mem, s.tx);
  }

  lemma StepConserves(c: Config, s: State, a: Action)
    requires c.Valid() && |s.rr.perQueue| == c.nbTxQs && Held(s) && Conserved(s) && c.reading == Commented
    requires a.RxBurst? && Delivers(s, a.mbufs) ==> Fresh(s, a.mbufs)
    ensures Conserved(Step(c, s, a))
  {
    match a {
      case RxBurst(mbufs) => BurstConserves(s, mbufs);
      case RxBulk => EnqueueConserves(c, s);
      case RxFree => RxFreeConserves(s);
      case TxDequeue => DequeueConserves(s);
      case TxBurst(k) => TransmitConserves(s, k);
      case TxFree => TxFreeConserves(s);
      case Complete(mbufs) => ReturnConserves(s, mbufs);
      case _ =>
    }
  }

  /** In the commented reading every interleaving conserves packets: none is lost, repeated, or both
      dropped and sent. */
  lemma {:induction false} AlwaysConserved(c: Config, schedule: seq<Action>)
    requires c.Valid() && c.reading == Commented
    ensures Conserved(Run(c, schedule))
  {
    if schedule != [] {
      var p := schedule[..|schedule| - 1];
      AlwaysConserved(c, p);
      AlwaysHeld(c, p);
      CommentedIsClean(c, schedule);
      StepConserves(c, Run(c, p), schedule[|schedule| - 1]);
    }
  }

  /** When both threads have exited, a packet received and neither sent nor dropped is in the ring. */
  lemma ExitLeavesOnlyRing(c: Config, schedule: seq<Action>, m: Packet)
    requires c.Valid() && c.reading == Commented
    requires Run(c, schedule).rxPc == RxExited && Run(c, schedule).txPc == TxExited
    ensures var s := Run(c, schedule);
            multiset(s.mem.Packets(s.ring))[m] + multiset(s.sent)[m] + multiset(s.dropped)[m]
            == Bit(m < s.Received())
  {
    AlwaysConserved(c, schedule);
    AlwaysHeld(c, schedule);
    var s := Run(c, schedule);
    assert s.mem.Packets(s.rx) == [] && s.mem.Packets(s.tx) == [];
    RangeOnce(0, s.Received(), m);
  }

  // ---------------------------------------------------------------- the stop flag

  /** What the threads may still take on: a thread past its test of the flag still makes its burst. */
  function Intake(s: State): nat { if s.rxPc == RxPolling then BURST_SIZE else 0 }

  function Outgo(s: State): nat { if s.txPc == TxPolling then BURST_SIZE else |s.tx| }

  lemma StepAfterStop(c: Config, s: State, a: Action)
    requires c.Valid() && |s.rr.perQueue| == c.nbTxQs && Held(s) && s.stop
    ensures var r := Step(c, s, a);
            && r.stop && s.sent <= r.sent && s.Received() <= r.Received()
            && r.Received() + Intake(r) <= s.Received() + Intake(s)
            && |r.sent| + Outgo(r) <= |s.sent| + Outgo(s)
  {
    match a {
      case RxBurst(mbufs) => assert Intake(AfterReceive(s, mbufs)) == 0 || AfterReceive(s, mbufs) == s;
      case TxDequeue => assert Outgo(AfterDequeue(s)) <= Outgo(s);
      case TxBurst(k) => assert Outgo(AfterTransmit(s, k)) == |AfterTransmit(s, k).tx| || AfterTransmit(s, k) == s;
      case _ =>
    }
  }

  lemma {:induction false} LeftAfterStop(c: Config, before: seq<Action>, more: seq<Action>)
    requires c.Valid() && Run(c, before).stop
    ensures var s, r := Run(c, before), Run(c, before + more);
            && r.stop && s.sent <= r.sent && s.Received() <= r.Received()
            && r.Received() + Intake(r) <= s.Received() + Intake(s)
            && |r.sent| + Outgo(r) <= |s.sent| + Outgo(s)
  {
    if more == [] {
      assert before + more == before;
    } else {
      var p, a := more[..|more| - 1], more[|more| - 1];
      LeftAfterStop(c, before, p);
      assert before + more == before + p + [a];
      RunOneMore(c, before + p, a);
      AlwaysHeld(c, before + p);
      StepAfterStop(c, Run(c, before + p), a);
    }
  }

  /** From the moment stop_flag is set, and however the schedule goes on, at most one more burst is
      received, and only by a thread that had read the flag as clear; the NIC gets at most the held
      burst, or one burst from a transmit thread that had read the flag as clear. */
  lemma StopBounds(c: Config, before: seq<Action>, more: seq<Action>)
    requires c.Valid() && Run(c, before).stop
    ensures var s, r := Run(c, before), Run(c, before + more);
            && s.Received() <= r.Received() <= s.Received() + BURST_SIZE
            && (s.rxPc != RxPolling ==> r.Received() == s.Received())
            && |r.sent| <= |s.sent| + BURST_SIZE
            && (s.txPc != TxPolling ==> |r.sent| <= |s.sent| + |s.tx|)
  {
    LeftAfterStop(c, before, more);
    AlwaysHeld(c, before);
  }

  /** A thread that has exited stays so. */
  lemma {:induction false} ExitIsFinal(c: Config, before: seq<Action>, more: seq<Action>)
    requires c.Valid()
    ensures Run(c, before).rxPc == RxExited ==> Run(c, before + more).rxPc == RxExited
    ensures Run(c, before).txPc == TxExited ==> Run(c, before + more).txPc == TxExited
  {
    if more == [] {
      assert before + more == before;
    } else {
      var p, a := more[..|more| - 1], more[|more| - 1];
      ExitIsFinal(c, before, p);
      assert before + more == before + p + [a];
      RunOneMore(c, before + p, a);
      StaysExited(c, Run(c, before + p), a);
    }
  }

  lemma StaysExited(c: Config, s: State, a: Action)
    requires c.Valid() && |s.rr.perQueue| == c.nbTxQs
    ensures s.rxPc == RxExited ==> Step(c, s, a).rxPc == RxExited
    ensures s.txPc == TxExited ==> Step(c, s, a).txPc == TxExited
  {
  }

  /** The bound is reached: a burst of any size can still arrive after the flag is set. */
  lemma StopLetsOneBurstThrough(c: Config, n: nat)
    requires c.Valid() && 0 < n <= Min(BURST_SIZE, c.pool)
    ensures Run(c, [RxCheck, Stop]).stop && Run(c, [RxCheck, Stop]).Received() == 0
    ensures Run(c, [RxCheck, Stop, RxBurst(Range(0, n))]).Received() == n
  {
    var h, mbufs := [RxCheck, Stop], Range(0, n);
    assert [] + [RxCheck] == [RxCheck] && [RxCheck] + [Stop] == h;
    RunOneMore(c, [], RxCheck);
    RunOneMore(c, [RxCheck], Stop);
    assert Range(0, c.pool) == mbufs + Range(n, c.pool);
    RunOneMore(c, h, RxBurst(mbufs));
    assert h + [RxBurst(mbufs)] == [RxCheck, Stop, RxBurst(mbufs)];
  }

  // ---------------------------------------------------------------- order

  predicate Increasing(s: seq<nat>)
  {
    forall i, j :: 0 <= i < j < |s| ==> s[i] < s[j]
  }

  predicate Below(s: seq<nat>, bound: nat)
  {
    forall i :: 0 <= i < |s| ==> s[i] < bound
  }

  /** The buffers on their way through, first out first. */
  function Queue(s: State): seq<Mbuf> { s.tx + s.ring + if s.rxPc == RxEnqueueing then s.rx else [] }

  /** The packets sent and those on their way. */
  function Chain(s: State): seq<Packet> { s.sent + s.mem.Packets(Queue(s)) }

  predicate Ordered(s: State) { Increasing(Chain(s)) && Below(Chain(s), s.Received()) }

  /** Deleting a stretch keeps order and bound, and so does appending later numbers. */
  lemma DeleteKeeps(ch: seq<nat>, i: nat, j: nat, bound: nat)
    requires i <= j <= |ch| && Increasing(ch) && Below(ch, bound)
    ensures Increasing(ch[..i] + ch[j..]) && Below(ch[..i] + ch[j..], bound)
  {
  }

  lemma AppendKeeps(ch: seq<nat>, lo: nat, hi: nat)
    requires lo <= hi && Increasing(ch) && Below(ch, lo)
    ensures Increasing(ch + Range(lo, hi)) && Below(ch + Range(lo, hi), hi)
  {
  }

  lemma BurstOrdered(s: State, mbufs: seq<Mbuf>)
    requires Held(s) && Ordered(s) && (Delivers(s, mbufs) ==> Fresh(s, mbufs))
    ensures Ordered(AfterReceive(s, mbufs))
  {
    var r, q := AfterReceive(s, mbufs), Queue(s);
    if Delivers(s, mbufs) {
      var n, k := s.Received(), |mbufs|;
      assert Queue(r) == q + mbufs && Apart(q, mbufs);
      assert r.mem.Packets(q + mbufs) == s.mem.Packets(q) + Range(n, n + k) by {
        OthersKeepPackets(s.mem, mbufs, q);
        TakenHoldNewPackets(s.mem, mbufs);
        PacketsJoin(r.mem, q, mbufs);
      }
      assert Chain(r) == Chain(s) + Range(s.Received(), r.Received());
      AppendKeeps(Chain(s), s.Received(), r.Received());
    } else {
      assert Queue(r) == q;
    }
  }

  lemma EnqueueOrdered(c: Config, s: State)
    requires Ordered(s) && s.rxPc == RxEnqueueing
    ensures Ordered(AfterEnqueue(c, s))
  {
    var ch, r := Chain(s), AfterEnqueue(c, s);
    if Fits(c, s) {
      assert Queue(r) == Queue(s);
    } else {
      PacketsJoin(s.mem, s.tx + s.ring, s.rx);
      assert Queue(r) == s.tx + s.ring;
      var k := |ch| - |s.rx|;
      assert Chain(r) == ch[..k] + ch[|ch|..];
      DeleteKeeps(ch, k, |ch|, s.Received());
    }
  }

  lemma TxFreeOrdered(s: State)
    requires Ordered(s)
    ensures Ordered(AfterTxFree(s))
  {
    var ch, r, k := Chain(s), AfterTxFree(s), |s.sent|;
    if r != s {
      var q := Queue(s);
      assert Queue(r) == q[1..];
      PacketsSplit(s.mem, q, 1);
      SameFilled(s.mem, r.mem, q[1..]);
      assert Chain(r) == ch[..k] + ch[k + 1..];
      DeleteKeeps(ch, k, k + 1, s.Received());
    }
  }

  lemma Cut(a: seq<Mbuf>, b: seq<Mbuf>, c: seq<Mbuf>, k: nat)
    requires k <= |a|
    ensures (a + b + c)[..k] == a[..k] && (a + b + c)[k..] == a[k..] + b + c
  {
  }

  lemma Regroup(a: seq<nat>, b: seq<nat>, c: seq<nat>)
    ensures a + b + c == a + (b + c)
  {
  }

  lemma TransmitKeepsChain(s: State, k: nat)
    requires |s.rr.perQueue| > 0
    ensures Chain(AfterTransmit(s, k)) == Chain(s) && AfterTransmit(s, k).Received() == s.Received()
  {
    if s.txPc == TxSending && k <= |s.tx| {
      var r, q := AfterTransmit(s, k), Queue(s);
      assert s.rxPc == r.rxPc;
      Cut(s.tx, s.ring, if s.rxPc == RxEnqueueing then s.rx else [], k);
      assert Queue(r) == q[k..];
      PacketsSplit(s.mem, q, k);
      SameFilled(s.mem, r.mem, q[k..]);
      Regroup(s.sent, s.mem.Packets(s.tx[..k]), s.mem.Packets(q[k..]));
    }
  }

  lemma DequeueKeepsChain(s: State)
    requires Held(s)
    ensures Chain(AfterDequeue(s)) == Chain(s)
  {
    assert Queue(AfterDequeue(s)) == Queue(s);
  }

  /** The remaining steps leave the queue and the contents of its buffers alone. */
  lemma QuietKeepsChain(s: State, r: State)
    requires Queue(r) == Queue(s) && r.mem.filled == s.mem.filled && r.sent == s.sent
    ensures Chain(r) == Chain(s)
  {
    SameFilled(s.mem, r.mem, Queue(s));
  }

  lemma StepOrdered(c: Config, s: State, a: Action)
    requires c.Valid() && |s.rr.perQueue| == c.nbTxQs && Held(s) && Ordered(s)
    requires a.RxBurst? && Delivers(s, a.mbufs) ==> Fresh(s, a.mbufs)
    ensures Ordered(Step(c, s, a))
  {
    match a {
      case Stop => QuietKeepsChain(s, s.(stop := true));
      case RxCheck => QuietKeepsChain(s, AfterRxCheck(s));
      case RxBurst(mbufs) => BurstOrdered(s, mbufs);
      case RxBulk => if s.rxPc == RxEnqueueing { EnqueueOrdered(c, s); }
      case RxFree => QuietKeepsChain(s, AfterRxFree(s));
      case TxCheck => QuietKeepsChain(s, AfterTxCheck(s));
      case TxDequeue => DequeueKeepsChain(s);
      case TxBurst(k) => TransmitKeepsChain(s, k);
      case TxFree => TxFreeOrdered(s);
      case Complete(mbufs) => QuietKeepsChain(s, s.(mem := s.mem.Return(mbufs)));
    }
  }

  /** A run that never writes into a queued buffer keeps its packets in order, in either reading. */
  lemma {:induction false} CleanRunsKeepOrder(c: Config, schedule: seq<Action>)
    requires c.Valid() && Clean(c, schedule)
    ensures Ordered(Run(c, schedule))
  {
    if schedule != [] {
      var p := schedule[..|schedule| - 1];
      CleanRunsKeepOrder(c, p);
      AlwaysHeld(c, p);
      StepOrdered(c, Run(c, p), schedule[|schedule| - 1]);
    } else {
      assert Chain(Init(c)) == [];
    }
  }

  /** `sub` is obtained from `whole` by deleting elements. */
  ghost predicate Subsequence<T>(sub: seq<T>, whole: seq<T>)
  {
    exists at: seq<nat> :: Embeds(at, sub, whole)
  }

  ghost predicate Embeds<T>(at: seq<nat>, sub: seq<T>, whole: seq<T>)
  {
    && |at| == |sub| && Increasing(at)
    && forall i :: 0 <= i < |at| ==> at[i] < |whole| && whole[at[i]] == sub[i]
  }

  function Payloads<T>(numbers: seq<Packet>, packets: seq<T>): (r: seq<T>)
    requires Below(numbers, |packets|)
    ensures |r| == |numbers| && forall i :: 0 <= i < |r| ==> r[i] == packets[numbers[i]]
  {
    if numbers == [] then [] else [packets[numbers[0]]] + Payloads(numbers[1..], packets)
  }

  /** Whatever the packets received, those handed to the NIC are a subsequence of them, in order: full
      rings and partial transmit bursts cannot reorder or repeat a packet. */
  lemma SentIsSubsequence<T>(c: Config, schedule: seq<Action>, packets: seq<T>)
    requires c.Valid() && c.reading == Commented && |packets| == Run(c, schedule).Received()
    ensures var sent := Run(c, schedule).sent;
            Below(sent, |packets|) && Subsequence(Payloads(sent, packets), packets)
  {
    CommentedIsClean(c, schedule);
    CleanRunsKeepOrder(c, schedule);
    var s := Run(c, schedule);
    SentInChain(s);
    assert Embeds(s.sent, Payloads(s.sent, packets), packets);
  }

  lemma SentInChain(s: State)
    requires Ordered(s)
    ensures Increasing(s.sent) && Below(s.sent, s.Received())
  {
    var ch := Chain(s);
    assert forall i :: 0 <= i < |s.sent| ==> ch[i] == s.sent[i];
  }
}

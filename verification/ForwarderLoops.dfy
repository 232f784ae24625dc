/**
 * The forwarder's two loops seen as wholes: what one iteration of each does, whatever its single steps
 * are, and that after the stop flag both threads come to an end.
 */
module ForwarderLoops {
  import opened Words
  import opened Forwarder
  import opened ForwarderProofs

  /** A free loop run n times. */
  function Frees(a: Action, n: nat): seq<Action> { if n == 0 then [] else Frees(a, n - 1) + [a] }

  function ReceiveLoop(s: State, n: nat): State { if n == 0 then s else AfterRxFree(ReceiveLoop(s, n - 1)) }

  function TransmitLoop(s: State, n: nat): State { if n == 0 then s else AfterTxFree(TransmitLoop(s, n - 1)) }

  lemma OneMoreFree(c: Config, h: seq<Action>, a: Action, n: nat, g: seq<Action>)
    requires c.Valid() && n > 0 && g == h + Frees(a, n - 1)
    ensures Run(c, h + Frees(a, n)) == Step(c, Run(c, g), a)
  {
    assert h + Frees(a, n) == g + [a];
    RunOneMore(c, g, a);
  }

  predicate Loops(c: Config, h: seq<Action>, s: State, n: nat)
    requires c.Valid()
  {
    Run(c, h + Frees(RxFree, n)) == ReceiveLoop(s, n)
  }

  lemma LoopsOnce(c: Config, h: seq<Action>, s: State, n: nat, m: nat)
    requires c.Valid() && m == n + 1 && Loops(c, h, s, n)
    ensures Loops(c, h, s, m)
  {
    OneMoreFree(c, h, RxFree, m, h + Frees(RxFree, n));
  }

  lemma {:induction false} RunReceiveLoop(c: Config, h: seq<Action>, s: State, n: nat)
    requires c.Valid() && Run(c, h) == s
    ensures Loops(c, h, s, n)
  {
    if n == 0 {
      assert h + [] == h;
    } else {
      RunReceiveLoop(c, h, s, n - 1);
      LoopsOnce(c, h, s, n - 1, n);
    }
  }

  lemma {:induction false} RunTransmitLoop(c: Config, h: seq<Action>, s: State, n: nat)
    requires c.Valid() && Run(c, h) == s
    ensures Run(c, h + Frees(TxFree, n)) == TransmitLoop(s, n)
  {
    if n == 0 {
      assert h + [] == h;
    } else {
      RunTransmitLoop(c, h, s, n - 1);
      OneMoreFree(c, h, TxFree, n, h + Frees(TxFree, n - 1));
    }
  }

  /** What a free loop has done to buffers and packets after its first n rounds. */
  function Freed(s: State, mbufs: seq<Mbuf>): State
  {
    s.(dropped := s.dropped + s.mem.Packets(mbufs), mem := s.mem.(pool := s.mem.pool + multiset(mbufs)))
  }

  lemma FreedOneMore(s: State, mbufs: seq<Mbuf>, n: nat)
    requires n < |mbufs|
    ensures Freed(s, mbufs[..n + 1]) ==
            var r := Freed(s, mbufs[..n]);
            r.(dropped := r.dropped + [r.mem.At(mbufs[n])], mem := r.mem.Free(mbufs[n]))
  {
    var front := mbufs[..n];
    assert mbufs[..n + 1] == front + [mbufs[n]];
    assert s.mem.Packets(mbufs[..n + 1]) == s.mem.Packets(front) + [s.mem.At(mbufs[n])];
    assert multiset(mbufs[..n + 1]) == multiset(front) + multiset{mbufs[n]};
  }

  function ReceiveFreed(s: State, n: nat): State
    requires n <= |s.rx|
  {
    Freed(s, s.rx[..n]).(rx := s.rx[n..], rxPc := if n > 0 && n == |s.rx| then RxAtLoop else RxFreeing)
  }

  function TransmitFreed(s: State, n: nat): State
    requires n <= |s.tx|
  {
    Freed(s, s.tx[..n]).(tx := s.tx[n..], txPc := if n > 0 && n == |s.tx| then TxAtLoop else TxFreeing)
  }

  lemma NoneFreed(s: State)
    ensures Freed(s, []) == s
  {
    assert s.mem.Packets([]) == [];
    assert s.dropped + [] == s.dropped;
    assert s.mem.pool + multiset([]) == s.mem.pool;
  }

  lemma ReceiveFreesNone(s: State)
    requires s.rxPc == RxFreeing
    ensures ReceiveFreed(s, 0) == s
  {
    assert s.rx[..0] == [] && s.rx[0..] == s.rx;
    NoneFreed(s);
  }

  lemma ReceiveFreesOne(s: State, n: nat, m: nat)
    requires s.rxPc == RxFreeing && n < |s.rx| && m == n + 1
    ensures AfterRxFree(ReceiveFreed(s, n)) == ReceiveFreed(s, m)
  {
    FreedOneMore(s, s.rx, n);
    assert s.rx[n..][1..] == s.rx[n + 1..] && s.rx[n..][0] == s.rx[n];
  }

  lemma TransmitFreesNone(s: State)
    requires s.txPc == TxFreeing
    ensures TransmitFreed(s, 0) == s
  {
    assert s.tx[..0] == [] && s.tx[0..] == s.tx;
    NoneFreed(s);
  }

  lemma TransmitFreesOne(s: State, n: nat, m: nat)
    requires s.txPc == TxFreeing && n < |s.tx| && m == n + 1
    ensures AfterTxFree(TransmitFreed(s, n)) == TransmitFreed(s, m)
  {
    FreedOneMore(s, s.tx, n);
    assert s.tx[n..][1..] == s.tx[n + 1..] && s.tx[n..][0] == s.tx[n];
  }

  predicate ReceiveFreesFirst(s: State, n: nat)
    requires n <= |s.rx|
  {
    ReceiveLoop(s, n) == ReceiveFreed(s, n)
  }

  lemma ReceiveFreesNext(s: State, n: nat, m: nat)
    requires s.rxPc == RxFreeing && n < |s.rx| && m == n + 1 && ReceiveFreesFirst(s, n)
    ensures ReceiveFreesFirst(s, m)
  {
    ReceiveFreesOne(s, n, m);
  }

  lemma {:induction false} ReceiveFrees(s: State, n: nat)
    requires s.rxPc == RxFreeing && n <= |s.rx|
    ensures ReceiveFreesFirst(s, n)
  {
    if n == 0 {
      ReceiveFreesNone(s);
    } else {
      ReceiveFrees(s, n - 1);
      ReceiveFreesNext(s, n - 1, n);
    }
  }

  predicate TransmitFreesFirst(s: State, n: nat)
    requires n <= |s.tx|
  {
    TransmitLoop(s, n) == TransmitFreed(s, n)
  }

  lemma TransmitFreesNext(s: State, n: nat, m: nat)
    requires s.txPc == TxFreeing && n < |s.tx| && m == n + 1 && TransmitFreesFirst(s, n)
    ensures TransmitFreesFirst(s, m)
  {
    TransmitFreesOne(s, n, m);
  }

  lemma {:induction false} TransmitFrees(s: State, n: nat)
    requires s.txPc == TxFreeing && n <= |s.tx|
    ensures TransmitFreesFirst(s, n)
  {
    if n == 0 {
      TransmitFreesNone(s);
    } else {
      TransmitFrees(s, n - 1);
      TransmitFreesNext(s, n - 1, n);
    }
  }

  // ---------------------------------------------------------------- one iteration

  /** The rest of an iteration of the receive loop that delivers a burst, from the polling on. */
  function ReceiveIteration(c: Config, s: State, mbufs: seq<Mbuf>): seq<Action>
  {
    [RxBurst(mbufs), RxBulk] + if Disposes(c, s, mbufs) then Frees(RxFree, |mbufs|) else []
  }

  /** The burst ends up back in the pool: as commented, one that the ring has no room for; as written,
      one that the ring has taken. */
  predicate Disposes(c: Config, s: State, mbufs: seq<Mbuf>)
  {
    if |s.ring| + |mbufs| <= c.capacity then c.reading == Written else c.reading == Commented
  }

  /** The whole of an iteration: the burst is queued in one piece iff it fits, and freed in one piece or not
      at all.  The flag and the other thread have no part in it. */
  function ReceivedBurst(c: Config, s: State, mbufs: seq<Mbuf>): State
  {
    var fits, disposes := |s.ring| + |mbufs| <= c.capacity, Disposes(c, s, mbufs);
    var mem := s.mem.Take(mbufs);
    s.(rxPc := RxAtLoop, rx := [], ring := if fits then s.ring + mbufs else s.ring,
       mem := if disposes then mem.(pool := mem.pool + multiset(mbufs)) else mem,
       dropped := if disposes then s.dropped + mem.Packets(mbufs) else s.dropped,
       attempts := s.attempts + 1, refused := s.refused + Bit(!fits))
  }

  /** A poll that delivers a burst of up to 32 buffers leads, step by step, to just that. */
  lemma ReceiveIterationDoes(c: Config, h: seq<Action>, mbufs: seq<Mbuf>)
    requires c.Valid() && Run(c, h).rxPc == RxPolling && 0 < |mbufs| <= 32
    requires multiset(mbufs) <= Run(c, h).mem.pool
    ensures Run(c, h + ReceiveIteration(c, Run(c, h), mbufs)) == ReceivedBurst(c, Run(c, h), mbufs)
  {
    AlwaysHeld(c, h);
    ReceiveRuns(c, h, Run(c, h), mbufs);
    BurstReceived(c, Run(c, h), mbufs);
  }

  function ReceiveEnd(c: Config, s: State, mbufs: seq<Mbuf>): State
  {
    ReceiveLoop(AfterEnqueue(c, AfterReceive(s, mbufs)), if Disposes(c, s, mbufs) then |mbufs| else 0)
  }

  lemma ReceiveRuns(c: Config, h: seq<Action>, s: State, mbufs: seq<Mbuf>)
    requires c.Valid() && Run(c, h) == s
    ensures Run(c, h + ReceiveIteration(c, s, mbufs)) == ReceiveEnd(c, s, mbufs)
  {
    var g, n := h + [RxBurst(mbufs)] + [RxBulk], if Disposes(c, s, mbufs) then |mbufs| else 0;
    RunBulk(c, h, s, mbufs);
    RunReceiveLoop(c, g, AfterEnqueue(c, AfterReceive(s, mbufs)), n);
    Chain(h, RxBurst(mbufs), RxBulk, Frees(RxFree, n));
  }

  lemma Chain(h: seq<Action>, x: Action, y: Action, rest: seq<Action>)
    ensures h + ([x, y] + rest) == h + [x] + [y] + rest
  {
  }

  lemma RunBulk(c: Config, h: seq<Action>, s: State, mbufs: seq<Mbuf>)
    requires c.Valid() && Run(c, h) == s
    ensures Run(c, h + [RxBurst(mbufs)] + [RxBulk]) == AfterEnqueue(c, AfterReceive(s, mbufs))
  {
    RunOneMore(c, h, RxBurst(mbufs));
    RunOneMore(c, h + [RxBurst(mbufs)], RxBulk);
  }

  lemma BurstReceived(c: Config, s: State, mbufs: seq<Mbuf>)
    requires s.rxPc == RxPolling && s.mem.Deliverable(mbufs) && s.rx == []
    ensures ReceiveEnd(c, s, mbufs) == ReceivedBurst(c, s, mbufs)
  {
    BurstEnqueued(c, s, mbufs);
    if Disposes(c, s, mbufs) {
      var r := AfterEnqueue(c, AfterReceive(s, mbufs));
      ReceiveFrees(r, |mbufs|);
      FreedAll(r, mbufs);
    }
  }

  lemma FreedAll(s: State, mbufs: seq<Mbuf>)
    requires s.rx == mbufs && mbufs != []
    ensures ReceiveFreed(s, |mbufs|) == Freed(s, mbufs).(rx := [], rxPc := RxAtLoop)
  {
    assert mbufs[..|mbufs|] == mbufs && mbufs[|mbufs|..] == [];
  }

  lemma BurstEnqueued(c: Config, s: State, mbufs: seq<Mbuf>)
    requires s.rxPc == RxPolling && s.mem.Deliverable(mbufs) && s.rx == []
    ensures var fits, disposes := |s.ring| + |mbufs| <= c.capacity, Disposes(c, s, mbufs);
            AfterEnqueue(c, AfterReceive(s, mbufs)) ==
            s.(rxPc := if disposes then RxFreeing else RxAtLoop, rx := if disposes then mbufs else [],
               ring := if fits then s.ring + mbufs else s.ring, mem := s.mem.Take(mbufs),
               attempts := s.attempts + 1, refused := s.refused + Bit(!fits))
  {
  }

  /** A poll that brings nothing changes nothing and goes back to the loop head. */
  lemma EmptyPolls(c: Config, h: seq<Action>)
    requires c.Valid()
    ensures Run(c, h).rxPc == RxPolling ==> Run(c, h + [RxBurst([])]) == Run(c, h).(rxPc := RxAtLoop)
    ensures Run(c, h).txPc == TxPolling && Run(c, h).ring == [] ==>
              Run(c, h + [TxDequeue]) == Run(c, h).(txPc := TxAtLoop)
  {
    AlwaysHeld(c, h);
    RunOneMore(c, h, RxBurst([]));
    RunOneMore(c, h, TxDequeue);
  }

  /** The rest of an iteration of the transmit loop in which the NIC takes k of n buffers. */
  function TransmitIteration(k: nat, n: nat): seq<Action>
    requires k <= n
  {
    [TxDequeue, TxBurst(k)] + Frees(TxFree, n - k)
  }

  /** The whole of an iteration that takes n buffers from the ring: the NIC gets the oldest k of them, the
      others are freed, in order, and one burst is counted. */
  function SentBurst(s: State, k: nat, n: nat): State
    requires k <= n <= |s.ring| && |s.rr.perQueue| > 0
  {
    var mem := s.mem.HandOver(s.ring[..k]);
    s.(txPc := TxAtLoop, tx := [], ring := s.ring[n..], rr := s.rr.Next(),
       sent := s.sent + s.mem.Packets(s.ring[..k]), dropped := s.dropped + s.mem.Packets(s.ring[k..n]),
       mem := mem.(pool := mem.pool + multiset(s.ring[k..n])))
  }

  /** A transmit thread that polls a ring with something in it does just that with up to 32 buffers: all
      there are, if there are no more. */
  lemma TransmitIterationDoes(c: Config, h: seq<Action>, k: nat, n: nat)
    requires c.Valid() && Run(c, h).txPc == TxPolling && Run(c, h).ring != []
    requires n == (if |Run(c, h).ring| < 32 then |Run(c, h).ring| else 32) && k <= n
    ensures Run(c, h + TransmitIteration(k, n)) == SentBurst(Run(c, h), k, n)
  {
    TransmitRuns(c, h, Run(c, h), k, n);
    BurstSent(Run(c, h), k, n);
  }

  function TransmitEnd(s: State, k: nat, n: nat): State
    requires |s.rr.perQueue| > 0 && k <= n
  {
    TransmitLoop(AfterTransmit(AfterDequeue(s), k), n - k)
  }

  lemma TransmitRuns(c: Config, h: seq<Action>, s: State, k: nat, n: nat)
    requires c.Valid() && Run(c, h) == s && k <= n
    ensures Run(c, h + TransmitIteration(k, n)) == TransmitEnd(s, k, n)
  {
    var g := h + [TxDequeue] + [TxBurst(k)];
    RunSend(c, h, s, k);
    RunTransmitLoop(c, g, AfterTransmit(AfterDequeue(s), k), n - k);
    Chain(h, TxDequeue, TxBurst(k), Frees(TxFree, n - k));
  }

  lemma RunSend(c: Config, h: seq<Action>, s: State, k: nat)
    requires c.Valid() && Run(c, h) == s
    ensures Run(c, h + [TxDequeue] + [TxBurst(k)]) == AfterTransmit(AfterDequeue(s), k)
  {
    RunOneMore(c, h, TxDequeue);
    RunOneMore(c, h + [TxDequeue], TxBurst(k));
  }

  lemma BurstSent(s: State, k: nat, n: nat)
    requires |s.rr.perQueue| > 0 && s.txPc == TxPolling && s.ring != []
    requires n == (if |s.ring| < 32 then |s.ring| else 32) && k <= n
    ensures TransmitEnd(s, k, n) == SentBurst(s, k, n)
  {
    if k < n {
      SentInPart(s, k, n);
    } else {
      SentWhole(s, n);
    }
  }

  lemma SentWhole(s: State, n: nat)
    requires |s.rr.perQueue| > 0 && s.txPc == TxPolling && s.ring != []
    requires n == (if |s.ring| < 32 then |s.ring| else 32)
    ensures AfterTransmit(AfterDequeue(s), n) == SentBurst(s, n, n)
  {
    BurstTransmitted(s, n, n);
    assert s.ring[n..n] == [];
    NoneFreed(s.(mem := s.mem.HandOver(s.ring[..n])));
    SamePackets(s.mem.HandOver(s.ring[..n]), s.mem, []);
  }

  lemma SentInPart(s: State, k: nat, n: nat)
    requires |s.rr.perQueue| > 0 && s.txPc == TxPolling && s.ring != []
    requires n == (if |s.ring| < 32 then |s.ring| else 32) && k < n
    ensures TransmitEnd(s, k, n) == SentBurst(s, k, n)
  {
    BurstTransmitted(s, k, n);
    RestFreed(s, AfterTransmit(AfterDequeue(s), k), k, n, s.ring[k..n]);
  }

  lemma RestFreed(s: State, r: State, k: nat, n: nat, rest: seq<Mbuf>)
    requires |s.rr.perQueue| > 0 && k < n <= |s.ring| && rest == s.ring[k..n]
    requires r == s.(txPc := TxFreeing, tx := rest, ring := s.ring[n..], rr := s.rr.Next(),
                     sent := s.sent + s.mem.Packets(s.ring[..k]), mem := s.mem.HandOver(s.ring[..k]))
    ensures TransmitLoop(r, n - k) == SentBurst(s, k, n)
  {
    TransmitFrees(r, n - k);
    UnsentFreed(r, rest);
    SamePackets(r.mem, s.mem, rest);
  }

  lemma SamePackets(a: Buffers, b: Buffers, mbufs: seq<Mbuf>)
    requires a.filled == b.filled
    ensures a.Packets(mbufs) == b.Packets(mbufs)
  {
  }

  lemma UnsentFreed(s: State, rest: seq<Mbuf>)
    requires s.tx == rest && rest != []
    ensures TransmitFreed(s, |rest|) == Freed(s, rest).(tx := [], txPc := TxAtLoop)
  {
    assert rest[..|rest|] == rest && rest[|rest|..] == [];
  }

  lemma BurstTransmitted(s: State, k: nat, n: nat)
    requires s.txPc == TxPolling && s.ring != [] && |s.rr.perQueue| > 0
    requires n == (if |s.ring| < 32 then |s.ring| else 32) && k <= n
    ensures AfterTransmit(AfterDequeue(s), k) ==
            s.(txPc := if k < n then TxFreeing else TxAtLoop, tx := s.ring[k..n], ring := s.ring[n..],
               sent := s.sent + s.mem.Packets(s.ring[..k]), mem := s.mem.HandOver(s.ring[..k]), rr := s.rr.Next())
  {
    assert s.ring[..n][..k] == s.ring[..k] && s.ring[..n][k..] == s.ring[k..n];
  }

  // ---------------------------------------------------------------- the end

  /** What a scheduler can do once the flag is set: give either thread its next step, whatever that is, with
      what the NIC delivers or takes in it, or let the NIC return buffers. */
  datatype Turn = ReceiveTurn(mbufs: seq<Mbuf>) | TransmitTurn(k: nat) | DeviceTurn(mbufs: seq<Mbuf>)

  function Next(s: State, t: Turn): Action
  {
    match t
    case ReceiveTurn(mbufs) =>
      (match s.rxPc
       case RxPolling => RxBurst(if s.mem.Deliverable(mbufs) then mbufs else [])
       case RxEnqueueing => RxBulk
       case RxFreeing => RxFree
       case _ => RxCheck)
    case TransmitTurn(k) =>
      (match s.txPc
       case TxPolling => TxDequeue
       case TxSending => TxBurst(Min(k, |s.tx|))
       case TxFreeing => TxFree
       case _ => TxCheck)
    case DeviceTurn(mbufs) => Complete(mbufs)
  }

  /** The schedule that such turns make. */
  function Play(c: Config, before: seq<Action>, turns: seq<Turn>): seq<Action>
    requires c.Valid()
  {
    if turns == [] then before
    else
      var h := Play(c, before, turns[..|turns| - 1]);
      h + [Next(Run(c, h), turns[|turns| - 1])]
  }

  function Receives(turns: seq<Turn>): nat
  {
    if turns == [] then 0 else Receives(turns[..|turns| - 1]) + Bit(turns[|turns| - 1].ReceiveTurn?)
  }

  function Transmits(turns: seq<Turn>): nat
  {
    if turns == [] then 0 else Transmits(turns[..|turns| - 1]) + Bit(turns[|turns| - 1].TransmitTurn?)
  }

  /** The most steps a thread can still take once the flag is set: at worst a burst, the enqueue, 32 rounds
      of the free loop and the test of the flag. */
  function ReceiveLeft(s: State): nat
  {
    match s.rxPc
    case RxExited => 0
    case RxAtLoop => 1
    case RxFreeing => |s.rx| + 1
    case RxEnqueueing => |s.rx| + 2
    case RxPolling => 35
  }

  function TransmitLeft(s: State): nat
  {
    match s.txPc
    case TxExited => 0
    case TxAtLoop => 1
    case TxFreeing => |s.tx| + 1
    case TxSending => |s.tx| + 2
    case TxPolling => 35
  }

  /** A turn brings its own thread nearer to the end, unless it is there, and the other no further from it. */
  lemma TurnAdvances(c: Config, s: State, t: Turn)
    requires c.Valid() && |s.rr.perQueue| == c.nbTxQs && Held(s) && s.stop
    ensures var r := Step(c, s, Next(s, t));
            && r.stop
            && (ReceiveLeft(r) == 0 || ReceiveLeft(r) + Bit(t.ReceiveTurn?) <= ReceiveLeft(s))
            && (TransmitLeft(r) == 0 || TransmitLeft(r) + Bit(t.TransmitTurn?) <= TransmitLeft(s))
  {
    match t {
      case ReceiveTurn(mbufs) => assert Bit(t.TransmitTurn?) == 0;
      case TransmitTurn(k) => assert Bit(t.ReceiveTurn?) == 0;
      case DeviceTurn(mbufs) =>
    }
  }

  lemma {:induction false} TurnsAdvance(c: Config, before: seq<Action>, turns: seq<Turn>)
    requires c.Valid() && Run(c, before).stop
    ensures var s, r := Run(c, before), Run(c, Play(c, before, turns));
            && r.stop
            && (ReceiveLeft(r) == 0 || ReceiveLeft(r) + Receives(turns) <= ReceiveLeft(s))
            && (TransmitLeft(r) == 0 || TransmitLeft(r) + Transmits(turns) <= TransmitLeft(s))
  {
    if turns != [] {
      var p, t := turns[..|turns| - 1], turns[|turns| - 1];
      TurnsAdvance(c, before, p);
      var h := Play(c, before, p);
      AlwaysHeld(c, h);
      TurnAdvances(c, Run(c, h), t);
      RunOneMore(c, h, Next(Run(c, h), t));
    }
  }

  /** Once the flag is set, each thread comes to its end within 35 steps of its own, however the two
      interleave, whatever the NIC does, and in either reading. */
  lemma EnoughTurnsExit(c: Config, before: seq<Action>, turns: seq<Turn>)
    requires c.Valid() && Run(c, before).stop
    ensures var r := Run(c, Play(c, before, turns));
            && (Receives(turns) >= 35 ==> r.rxPc == RxExited)
            && (Transmits(turns) >= 35 ==> r.txPc == TxExited)
  {
    TurnsAdvance(c, before, turns);
    AlwaysHeld(c, before);
    LeftBounded(Run(c, before));
  }

  lemma LeftBounded(s: State)
    requires Held(s)
    ensures ReceiveLeft(s) <= 35 && TransmitLeft(s) <= 35
  {
  }

  /** And then, in the commented reading, a packet received is sent, dropped or in the ring, once; as is
      every packet received before the flag was set. */
  lemma StoppedRunAccounts(c: Config, before: seq<Action>, turns: seq<Turn>, m: Packet)
    requires c.Valid() && c.reading == Commented && Run(c, before).stop
    requires Receives(turns) >= 35 && Transmits(turns) >= 35
    ensures var r := Run(c, Play(c, before, turns));
            && multiset(r.mem.Packets(r.ring))[m] + multiset(r.sent)[m] + multiset(r.dropped)[m]
               == Bit(m < r.Received())
            && Run(c, before).Received() <= r.Received() <= Run(c, before).Received() + 32
  {
    EnoughTurnsExit(c, before, turns);
    ExitLeavesOnlyRing(c, Play(c, before, turns), m);
    var more := PlayGoesOn(c, before, turns);
    StopBounds(c, before, more);
  }

  lemma {:induction false} PlayGoesOn(c: Config, before: seq<Action>, turns: seq<Turn>) returns (more: seq<Action>)
    requires c.Valid()
    ensures Play(c, before, turns) == before + more
  {
    more := [];
    if turns != [] {
      var p := turns[..|turns| - 1];
      more := PlayGoesOn(c, before, p);
      more := more + [Next(Run(c, Play(c, before, p)), turns[|turns| - 1])];
    }
  }

  /** No thread ends before the flag is set. */
  lemma {:induction false} ExitNeedsStop(c: Config, schedule: seq<Action>)
    requires c.Valid()
    ensures Run(c, schedule).rxPc == RxExited || Run(c, schedule).txPc == TxExited ==> Run(c, schedule).stop
  {
    if schedule != [] {
      var p := schedule[..|schedule| - 1];
      ExitNeedsStop(c, p);
      StepNeedsStop(c, Run(c, p), schedule[|schedule| - 1]);
    }
  }

  lemma StepNeedsStop(c: Config, s: State, a: Action)
    requires c.Valid() && |s.rr.perQueue| == c.nbTxQs
    requires s.rxPc == RxExited || s.txPc == TxExited ==> s.stop
    ensures var r := Step(c, s, a); r.rxPc == RxExited || r.txPc == TxExited ==> r.stop
  {
  }
}

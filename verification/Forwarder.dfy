/**
 * The software forwarder: a receive thread and a transmit thread that share a bounded ring of packet
 * buffers, as interleaved atomic steps.  Buffers are physical: the pool gives a released one out
 * again, and the NIC then writes the next packet into it.  Packets are numbered as they arrive.
 */
module Forwarder {
  import opened Words

  const BURST_SIZE: nat := 32
  const MAX_Q_PER_FORWARDER: nat := 3

  type Mbuf = nat
  type Packet = nat

  /** Polling: the stop flag has been read as clear and the burst call is still to come. */
  datatype RxPc = RxAtLoop | RxPolling | RxEnqueueing | RxFreeing | RxExited

  datatype TxPc = TxAtLoop | TxPolling | TxSending | TxFreeing | TxExited

  /** The overflow branch: as its comment says, on a refused enqueue, or as its test is written. */
  datatype Reading = Commented | Written

  datatype Config = Config(reading: Reading, capacity: nat, pool: nat, nbTxQs: nat)
  {
    predicate Valid() { 1 <= nbTxQs <= MAX_Q_PER_FORWARDER }
  }

  /** The packet buffers outside the threads' hands, and what every buffer holds. */
  datatype Buffers = Buffers(pool: multiset<Mbuf>,           // what the pool can give out
                             wire: multiset<Mbuf>,           // what the NIC has yet to return
                             filled: seq<Mbuf>)              // the buffer that each packet was written into
  {
    /** The packet in a buffer: the last one written into it. */
    function At(m: Mbuf): Packet { LastIndex(filled, m) }

    function Packets(mbufs: seq<Mbuf>): (r: seq<Packet>)
      ensures |r| == |mbufs| && forall i :: 0 <= i < |r| ==> r[i] == At(mbufs[i])
    {
      seq(|mbufs|, i requires 0 <= i < |mbufs| => At(mbufs[i]))
    }

    /** What a receive burst can deliver: some buffers of the pool, at most BURST_SIZE. */
    predicate Deliverable(mbufs: seq<Mbuf>) { 0 < |mbufs| <= BURST_SIZE && multiset(mbufs) <= pool }

    /** The NIC takes buffers from the pool and writes the next packets into them. */
    function Take(mbufs: seq<Mbuf>): Buffers { Buffers(pool - multiset(mbufs), wire, filled + mbufs) }

    function Free(m: Mbuf): Buffers { this.(pool := pool + multiset{m}) }

    function HandOver(mbufs: seq<Mbuf>): Buffers { this.(wire := wire + multiset(mbufs)) }

    /** The NIC is done with some transmitted buffers. */
    function Return(mbufs: seq<Mbuf>): Buffers
    {
      if multiset(mbufs) <= wire then
        this.(wire := wire - multiset(mbufs), pool := pool + multiset(mbufs))
      else this
    }
  }

  /** The last place of m in s, or 0 if it has none. */
  function LastIndex(s: seq<Mbuf>, m: Mbuf): nat
  {
    if s == [] then 0
    else if s[|s| - 1] == m then |s| - 1
    else LastIndex(s[..|s| - 1], m)
  }

  /** The transmit thread's curr_Q, and how many bursts it has sent to each queue. */
  datatype RoundRobin = RoundRobin(currQ: u16, perQueue: seq<nat>, bursts: nat)
  {
    function Next(): (r: RoundRobin)
      requires |perQueue| > 0
      ensures |r.perQueue| == |perQueue|
    {
      var q := currQ % |perQueue|;
      RoundRobin(Wrap16(currQ + 1), perQueue[q := perQueue[q] + 1], bursts + 1)
    }
  }

  datatype State = State(
    stop: bool,
    rxPc: RxPc, rx: seq<Mbuf>,               // what the receive thread still has to deal with
    ring: seq<Mbuf>,
    txPc: TxPc, tx: seq<Mbuf>,               // likewise the transmit thread
    mem: Buffers, rr: RoundRobin,
    sent: seq<Packet>, dropped: seq<Packet>, // as handed to the NIC, as freed
    attempts: nat, refused: nat)
  {
    function Received(): nat { |mem.filled| }
  }

  /** The numbers from a up to b. */
  function Range(a: nat, b: nat): (r: seq<nat>)
    requires a <= b
    ensures |r| == b - a && forall i :: 0 <= i < |r| ==> r[i] == a + i
  {
    seq(b - a, i => a + i)
  }

  function Min(a: nat, b: nat): nat { if a < b then a else b }

  function Init(c: Config): State
  {
    State(false, RxAtLoop, [], [], TxAtLoop, [], Buffers(multiset(Range(0, c.pool)), multiset{}, []),
          RoundRobin(0, seq(c.nbTxQs, _ => 0), 0), [], [], 0, 0)
  }

  /** The scheduler's and the devices' choices. */
  datatype Action =
    | Stop                         // the main thread sets stop_flag
    | RxCheck                      // loop head of the receive thread: the flag is read
    | RxBurst(mbufs: seq<Mbuf>)    // rte_eth_rx_burst: the NIC has filled these buffers
    | RxBulk                       // rte_ring_enqueue_bulk
    | RxFree                       // one round of the free loop
    | TxCheck                      // loop head of the transmit thread
    | TxDequeue                    // rte_ring_dequeue_burst
    | TxBurst(k: nat)              // rte_eth_tx_burst: the NIC takes the first k
    | TxFree                       // one round of the free loop
    | Complete(mbufs: seq<Mbuf>)   // the NIC returns these buffers to the pool

  // ---------------------------------------------------------------- atomic steps

  // A step that is not possible leaves the state alone.

  function AfterRxCheck(s: State): State
  {
    if s.rxPc != RxAtLoop then s else s.(rxPc := if s.stop then RxExited else RxPolling)
  }

  predicate Delivers(s: State, mbufs: seq<Mbuf>) { s.rxPc == RxPolling && s.mem.Deliverable(mbufs) }

  function AfterReceive(s: State, mbufs: seq<Mbuf>): State
  {
    if Delivers(s, mbufs) then
      s.(rxPc := RxEnqueueing, rx := mbufs, mem := s.mem.Take(mbufs))
    else if s.rxPc == RxPolling && mbufs == [] then s.(rxPc := RxAtLoop)
    else s
  }

  predicate Fits(c: Config, s: State) { |s.ring| + |s.rx| <= c.capacity }

  /** Whether the burst goes on to the free loop. */
  predicate Overflows(c: Config, s: State) { if c.reading == Commented then !Fits(c, s) else Fits(c, s) }

  function AfterEnqueue(c: Config, s: State): State
  {
    if s.rxPc != RxEnqueueing then s
    else
      s.(ring := if Fits(c, s) then s.ring + s.rx else s.ring,
         rxPc := if Overflows(c, s) then RxFreeing else RxAtLoop,
         rx := if Overflows(c, s) then s.rx else [],
         attempts := s.attempts + 1, refused := s.refused + Bit(!Fits(c, s)))
  }

  function AfterRxFree(s: State): State
  {
    if s.rxPc != RxFreeing || s.rx == [] then s
    else
      s.(dropped := s.dropped + [s.mem.At(s.rx[0])], mem := s.mem.Free(s.rx[0]), rx := s.rx[1..],
         rxPc := if |s.rx| == 1 then RxAtLoop else RxFreeing)
  }

  function AfterTxCheck(s: State): State
  {
    if s.txPc != TxAtLoop then s else s.(txPc := if s.stop then TxExited else TxPolling)
  }

  function AfterDequeue(s: State): State
  {
    if s.txPc != TxPolling then s
    else
      var n := Min(BURST_SIZE, |s.ring|);
      s.(txPc := if n == 0 then TxAtLoop else TxSending, tx := s.ring[..n], ring := s.ring[n..])
  }

  function AfterTransmit(s: State, k: nat): State
    requires |s.rr.perQueue| > 0
  {
    if s.txPc != TxSending || k > |s.tx| then s
    else
      s.(rr := s.rr.Next(), sent := s.sent + s.mem.Packets(s.tx[..k]), mem := s.mem.HandOver(s.tx[..k]),
         tx := s.tx[k..], txPc := if k == |s.tx| then TxAtLoop else TxFreeing)
  }

  function AfterTxFree(s: State): State
  {
    if s.txPc != TxFreeing || s.tx == [] then s
    else
      s.(dropped := s.dropped + [s.mem.At(s.tx[0])], mem := s.mem.Free(s.tx[0]), tx := s.tx[1..],
         txPc := if |s.tx| == 1 then TxAtLoop else TxFreeing)
  }

  function Step(c: Config, s: State, a: Action): (r: State)
    requires c.Valid() && |s.rr.perQueue| == c.nbTxQs
    ensures |r.rr.perQueue| == c.nbTxQs
  {
    match a
    case Stop => s.(stop := true)
    case RxCheck => AfterRxCheck(s)
    case RxBurst(mbufs) => AfterReceive(s, mbufs)
    case RxBulk => AfterEnqueue(c, s)
    case RxFree => AfterRxFree(s)
    case TxCheck => AfterTxCheck(s)
    case TxDequeue => AfterDequeue(s)
    case TxBurst(k) => AfterTransmit(s, k)
    case TxFree => AfterTxFree(s)
    case Complete(mbufs) => s.(mem := s.mem.Return(mbufs))
  }

  /** The state after a schedule. */
  function Run(c: Config, schedule: seq<Action>): (r: State)
    requires c.Valid()
    ensures |r.rr.perQueue| == c.nbTxQs
  {
    if schedule == [] then Init(c)
    else Step(c, Run(c, schedule[..|schedule| - 1]), schedule[|schedule| - 1])
  }

  // ---------------------------------------------------------------- the running threads

  /** rte_ring, single producer and single consumer. */
  class Ring {
    const capacity: nat
    var items: seq<Mbuf>

    constructor (capacity: nat)
      ensures this.capacity == capacity && items == []
    {
      this.capacity := capacity;
      items := [];
    }

    /** All or nothing. */
    method EnqueueBulk(mbufs: seq<Mbuf>) returns (n: nat)
      modifies this
      ensures if |old(items)| + |mbufs| <= capacity then n == |mbufs| && items == old(items) + mbufs
              else n == 0 && items == old(items)
    {
      n := 0;
      if |items| + |mbufs| <= capacity {
        items, n := items + mbufs, |mbufs|;
      }
    }

    method DequeueBurst(most: nat) returns (mbufs: seq<Mbuf>)
      modifies this
      ensures mbufs == old(items)[..Min(most, |old(items)|)] && items == old(items)[|mbufs|..]
    {
      var n := Min(most, |items|);
      mbufs, items := items[..n], items[n..];
    }
  }

  class Threads {
    const config: Config
    const mbufRing: Ring
    var stopFlag: bool
    var rxPc: RxPc
    var rxMbufs: seq<Mbuf>
    var txPc: TxPc
    var txMbufs: seq<Mbuf>
    var mem: Buffers
    var rr: RoundRobin
    var sent: seq<Packet>
    var dropped: seq<Packet>
    var attempts: nat
    var refused: nat

    constructor (config: Config, ring: Ring)
      requires config.capacity == ring.capacity && ring.items == [] && config.Valid()
      ensures this.config == config && mbufRing == ring && Valid() && Abs() == Init(config)
    {
      this.config, mbufRing, stopFlag := config, ring, false;
      rxPc, rxMbufs, txPc, txMbufs := RxAtLoop, [], TxAtLoop, [];
      mem := Buffers(multiset(Range(0, config.pool)), multiset{}, []);
      rr := RoundRobin(0, seq(config.nbTxQs, _ => 0), 0);
      sent, dropped, attempts, refused := [], [], 0, 0;
    }

    predicate Valid()
      reads this
    {
      && config.Valid() && mbufRing.capacity == config.capacity && |rr.perQueue| == config.nbTxQs
      && (rxPc == RxEnqueueing ==> rxMbufs != [])
    }

    function Abs(): State
      reads this, mbufRing
    {
      State(stopFlag, rxPc, rxMbufs, mbufRing.items, txPc, txMbufs, mem, rr, sent, dropped,
            attempts, refused)
    }

    /** rte_pktmbuf_free */
    method Free(m: Mbuf)
      modifies this`dropped, this`mem
      ensures dropped == old(dropped) + [old(mem).At(m)] && mem == old(mem).Free(m)
    {
      dropped, mem := dropped + [mem.At(m)], mem.(pool := mem.pool + multiset{m});
    }

    /** The loop head of fpga_rx_thread. */
    method CheckReceive()
      requires Valid()
      modifies this`rxPc
      ensures Valid() && Abs() == AfterRxCheck(old(Abs()))
    {
      if rxPc == RxAtLoop {
        rxPc := if stopFlag then RxExited else RxPolling;
      }
    }

    /** The receive burst, into buffers the NIC took from the pool. */
    method Receive(mbufs: seq<Mbuf>)
      requires Valid()
      modifies this`mem, this`rxMbufs, this`rxPc
      ensures Valid() && Abs() == AfterReceive(old(Abs()), mbufs)
    {
      if rxPc == RxPolling {
        if mem.Deliverable(mbufs) {
          mem := mem.Take(mbufs);
          rxMbufs, rxPc := mbufs, RxEnqueueing;
        } else if mbufs == [] {
          rxPc := RxAtLoop;
        }
      }
    }

    /** The bulk enqueue and the decision on what it returned. */
    method Enqueue()
      requires Valid()
      modifies this`rxPc, this`rxMbufs, this`attempts, this`refused, mbufRing
      ensures Valid() && Abs() == AfterEnqueue(config, old(Abs()))
    {
      if rxPc == RxEnqueueing {
        var ret := mbufRing.EnqueueBulk(rxMbufs);
        attempts := attempts + 1;
        if ret == 0 {
          refused := refused + 1;
        }
        if (config.reading == Commented && ret == 0) || (config.reading == Written && ret != 0) {
          rxPc := RxFreeing;
        } else {
          rxPc, rxMbufs := RxAtLoop, [];
        }
      }
    }

    /** One round of the overflow loop. */
    method FreeReceived()
      requires Valid()
      modifies this`dropped, this`mem, this`rxMbufs, this`rxPc
      ensures Valid() && Abs() == AfterRxFree(old(Abs()))
    {
      if rxPc == RxFreeing && rxMbufs != [] {
        Free(rxMbufs[0]);
        rxMbufs := rxMbufs[1..];
        if rxMbufs == [] {
          rxPc := RxAtLoop;
        }
      }
    }

    /** The loop head of fpga_tx_thread. */
    method CheckTransmit()
      requires Valid()
      modifies this`txPc
      ensures Valid() && Abs() == AfterTxCheck(old(Abs()))
    {
      if txPc == TxAtLoop {
        txPc := if stopFlag then TxExited else TxPolling;
      }
    }

    /** The burst from the ring; an empty one goes back to the loop head. */
    method Dequeue()
      requires Valid()
      modifies this`txPc, this`txMbufs, mbufRing
      ensures Valid() && Abs() == AfterDequeue(old(Abs()))
    {
      if txPc == TxPolling {
        txMbufs := mbufRing.DequeueBurst(BURST_SIZE);
        txPc := if txMbufs == [] then TxAtLoop else TxSending;
      }
    }

    /** The round-robin choice of a queue and the advance of curr_Q. */
    method NextQueue() returns (nextQIdx: nat)
      requires Valid()
      modifies this`rr
      ensures nextQIdx == old(rr).currQ % config.nbTxQs && rr == old(rr).Next()
    {
      nextQIdx := rr.currQ % config.nbTxQs;
      rr := rr.(perQueue := rr.perQueue[nextQIdx := rr.perQueue[nextQIdx] + 1], bursts := rr.bursts + 1);
      rr := rr.(currQ := Wrap16(rr.currQ + 1));
    }

    /** The transmit burst on the next queue, of which the NIC takes the first k. */
    method Transmit(k: nat)
      requires Valid()
      modifies this`rr, this`sent, this`mem, this`txMbufs, this`txPc
      ensures Valid() && Abs() == AfterTransmit(old(Abs()), k)
    {
      if txPc == TxSending && k <= |txMbufs| {
        var queue := NextQueue();
        var taken := txMbufs[..k];
        sent, mem := sent + mem.Packets(taken), mem.HandOver(taken);
        txPc := if k < |txMbufs| then TxFreeing else TxAtLoop;
        txMbufs := txMbufs[k..];
      }
    }

    /** One round of the loop that frees what was not transmitted. */
    method FreeUnsent()
      requires Valid()
      modifies this`dropped, this`mem, this`txMbufs, this`txPc
      ensures Valid() && Abs() == AfterTxFree(old(Abs()))
    {
      if txPc == TxFreeing && txMbufs != [] {
        Free(txMbufs[0]);
        txMbufs := txMbufs[1..];
        if txMbufs == [] {
          txPc := TxAtLoop;
        }
      }
    }

    method Fire(a: Action)
      requires Valid()
      modifies this, mbufRing
      ensures Valid() && Abs() == Step(config, old(Abs()), a)
    {
      match a {
        case Stop => stopFlag := true;
        case RxCheck => CheckReceive();
        case RxBurst(mbufs) => Receive(mbufs);
        case RxBulk => Enqueue();
        case RxFree => FreeReceived();
        case TxCheck => CheckTransmit();
        case TxDequeue => Dequeue();
        case TxBurst(k) => Transmit(k);
        case TxFree => FreeUnsent();
        case Complete(mbufs) => mem := mem.Return(mbufs);
      }
    }

    /** Any interleaving of the two threads and the devices. */
    method Interleave(schedule: seq<Action>)
      requires Valid() && Abs() == Init(config)
      modifies this, mbufRing
      ensures Valid() && Abs() == Run(config, schedule)
    {
      var i := 0;
      while i < |schedule|
        invariant 0 <= i <= |schedule|
        invariant Valid() && Abs() == Run(config, schedule[..i])
      {
        Fire(schedule[i]);
        assert schedule[..i + 1][..i] == schedule[..i];
        i := i + 1;
      }
      assert schedule[..i] == schedule;
    }
  }
}

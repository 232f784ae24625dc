/**
 * The forwarder with the overflow test as it is written, `!= 0`: accepted bursts are freed while they
 * are queued and refused ones are lost.  Exactly when that shows.
 */
module ForwarderWritten {
  import opened Words
  import opened Forwarder
  import opened ForwarderProofs

  // ---------------------------------------------------------------- conservation

  /** The receive thread has read the flag as clear and not polled in vain since; says so of the schedule
      alone, for as long as nothing has been received. */
  predicate Passed(schedule: seq<Action>)
  {
    schedule != [] &&
    var p, a := schedule[..|schedule| - 1], schedule[|schedule| - 1];
    if a == RxCheck && Stop !in p then true else Passed(p) && a != RxBurst([])
  }

  /** The schedule delivers a burst to it. */
  predicate Loads(c: Config, schedule: seq<Action>)
  {
    schedule != [] &&
    var p, a := schedule[..|schedule| - 1], schedule[|schedule| - 1];
    Loads(c, p) || (a.RxBurst? && Init(c).mem.Deliverable(a.mbufs) && Passed(p))
  }

  /** After which it comes to a bulk enqueue. */
  predicate Enqueues(c: Config, schedule: seq<Action>)
  {
    schedule != [] &&
    var p, a := schedule[..|schedule| - 1], schedule[|schedule| - 1];
    Enqueues(c, p) || (a == RxBulk && Loads(c, p))
  }

  /** Up to the first enqueue the run is what the schedule says it is. */
  predicate Foretold(c: Config, schedule: seq<Action>, s: State)
  {
    if s.attempts > 0 then Enqueues(c, schedule)
    else
      && !Enqueues(c, schedule)
      && (s.stop <==> Stop in schedule)
      && s.ring == [] && s.tx == [] && s.mem.wire == multiset{}
      && s.rxPc != RxFreeing
      && (s.rxPc == RxEnqueueing <==> Loads(c, schedule))
      && (!Loads(c, schedule) ==> s.mem.pool == Init(c).mem.pool && (s.rxPc == RxPolling <==> Passed(schedule)))
      && (s.rxPc == RxExited ==> s.stop)
  }

  lemma ReceiveForetold(c: Config, p: seq<Action>, s: State, mbufs: seq<Mbuf>)
    requires Held(s) && Foretold(c, p, s)
    ensures Foretold(c, p + [RxBurst(mbufs)], AfterReceive(s, mbufs))
  {
    Extend(p, RxBurst(mbufs));
  }

  lemma CheckForetold(c: Config, p: seq<Action>, s: State)
    requires Held(s) && Foretold(c, p, s)
    ensures Foretold(c, p + [RxCheck], AfterRxCheck(s))
  {
    Extend(p, RxCheck);
  }

  lemma EnqueueForetold(c: Config, p: seq<Action>, s: State)
    requires Held(s) && Foretold(c, p, s)
    ensures Foretold(c, p + [RxBulk], AfterEnqueue(c, s))
  {
    Extend(p, RxBulk);
  }

  /** Actions that neither look at the flag nor move what is not there yet. */
  lemma OtherForetold(c: Config, p: seq<Action>, s: State, a: Action)
    requires c.Valid() && |s.rr.perQueue| == c.nbTxQs && Held(s) && Foretold(c, p, s)
    requires !a.RxBurst? && !a.RxCheck? && !a.RxBulk?
    ensures Foretold(c, p + [a], Step(c, s, a))
  {
    Extend(p, a);
    if s.attempts == 0 && a.Complete? {
      ReturnsNothing(s.mem, a.mbufs);
    }
  }

  lemma ReturnsNothing(b: Buffers, mbufs: seq<Mbuf>)
    requires b.wire == multiset{}
    ensures b.Return(mbufs) == b
  {
    if mbufs != [] {
      assert mbufs[0] in multiset(mbufs);
    }
  }

  lemma Extend(p: seq<Action>, a: Action)
    ensures (p + [a])[..|p|] == p && (p + [a])[|p|] == a && |p + [a]| == |p| + 1
    ensures Stop in p + [a] <==> Stop in p || a == Stop
  {
  }

  lemma {:induction false} RunForetold(c: Config, schedule: seq<Action>)
    requires c.Valid()
    ensures Foretold(c, schedule, Run(c, schedule))
  {
    if schedule != [] {
      var p, a := schedule[..|schedule| - 1], schedule[|schedule| - 1];
      RunForetold(c, p);
      AlwaysHeld(c, p);
      assert schedule == p + [a];
      var s := Run(c, p);
      match a {
        case RxBurst(mbufs) => ReceiveForetold(c, p, s, mbufs);
        case RxCheck => CheckForetold(c, p, s);
        case RxBulk => EnqueueForetold(c, p, s);
        case _ => OtherForetold(c, p, s, a);
      }
    }
  }

  /** Every buffer is in exactly one place at every moment of the run. */
  predicate StaysOwned(c: Config, schedule: seq<Action>)
    requires c.Valid()
  {
    Owned(c, Run(c, schedule)) && (schedule == [] || StaysOwned(c, schedule[..|schedule| - 1]))
  }

  lemma BulkDisowns(c: Config, s: State)
    requires c.reading == Written && s.rxPc == RxEnqueueing && Held(s) && Owned(c, s)
    ensures !Owned(c, AfterEnqueue(c, s))
  {
    BulkStock(c, s);
    assert s.rx[0] in s.rx;
    assert multiset(s.rx)[s.rx[0]] > 0;
    var r, m := AfterEnqueue(c, s), s.rx[0];
    assert Stock(r)[m] != Stock(s)[m];
  }

  /** With the test as written, buffers stay conserved throughout a run iff its schedule never takes the
      receive thread past the flag, delivers it a burst and comes to the bulk enqueue. */
  lemma {:induction false} WrittenConservesIff(c: Config, schedule: seq<Action>)
    requires c.Valid() && c.reading == Written
    ensures StaysOwned(c, schedule) <==> !Enqueues(c, schedule)
  {
    if schedule != [] {
      var p, a := schedule[..|schedule| - 1], schedule[|schedule| - 1];
      WrittenConservesIff(c, p);
      AlwaysHeld(c, p);
      RunForetold(c, p);
      var s := Run(c, p);
      if !Enqueues(c, p) {
        assert Owned(c, s);
        if a == RxBulk && s.rxPc == RxEnqueueing {
          BulkDisowns(c, s);
        } else {
          OthersMoveBuffers(c, s, a);
        }
      }
    }
  }

  // ---------------------------------------------------------------- rounds of one packet

  /** One packet received into buffer 0 and disposed of in full. */
  function Reception(): seq<Action> { [RxCheck, RxBurst([0]), RxBulk, RxFree] }

  /** The receive thread can take one packet and the ring has room for it. */
  predicate Ready(c: Config, s: State)
  {
    !s.stop && s.rxPc == RxAtLoop && s.mem.pool[0] > 0 && |s.ring| < c.capacity
  }

  lemma Receives(c: Config, h: seq<Action>)
    requires c.Valid() && Ready(c, Run(c, h))
    ensures var s, r := Run(c, h), Run(c, h + [RxCheck] + [RxBurst([0])]);
            r == s.(rxPc := RxEnqueueing, rx := [0], mem := s.mem.Take([0]))
  {
    var s := Run(c, h);
    RunOneMore(c, h, RxCheck);
    RunOneMore(c, h + [RxCheck], RxBurst([0]));
    assert multiset([0]) <= s.mem.pool;
  }

  /** In the written reading buffer 0 ends up in the ring and in the pool; in the commented one in the
      ring alone. */
  lemma ReceptionQueues(c: Config, h: seq<Action>)
    requires c.Valid() && Ready(c, Run(c, h))
    ensures var s, r := Run(c, h), Run(c, h + Reception());
            && r.rxPc == RxAtLoop && r.rx == [] && r.ring == s.ring + [0]
            && r.mem.filled == s.mem.filled + [0] && r.mem.wire == s.mem.wire
            && (c.reading == Written ==> r.mem.pool == s.mem.pool && r.dropped == s.dropped + [s.Received()])
            && r.stop == s.stop && r.txPc == s.txPc && r.tx == s.tx && r.rr == s.rr && r.sent == s.sent
            && r.refused == s.refused
  {
    var s := Run(c, h);
    AlwaysHeld(c, h);
    Receives(c, h);
    var g := h + [RxCheck] + [RxBurst([0])];
    RunOneMore(c, g, RxBulk);
    RunOneMore(c, g + [RxBulk], RxFree);
    assert h + Reception() == g + [RxBulk] + [RxFree];
    var one := s.mem.Take([0]);
    assert one.At(0) == s.Received();
    assert one.pool + multiset{0} == s.mem.pool;
  }

  /** A freed buffer that is still queued: one packet that meets an empty ring. */
  lemma WrittenFreesWhatItEnqueues(c: Config)
    requires c.Valid() && c.reading == Written && c.capacity > 0 && c.pool > 0
    ensures var s := Run(c, Reception()); s.ring == [0] && s.mem.pool[0] == 1 && s.dropped == [0]
  {
    RangeOnce(0, c.pool, 0);
    assert [] + Reception() == Reception();
    ReceptionQueues(c, []);
  }

  // ---------------------------------------------------------------- order

  /** The transmit thread at its loop head takes a lone buffer from the ring. */
  lemma TakesLone(c: Config, h: seq<Action>)
    requires c.Valid() && !Run(c, h).stop && Run(c, h).txPc == TxAtLoop && Run(c, h).ring == [0]
    ensures var s, r := Run(c, h), Run(c, h + [TxCheck] + [TxDequeue]);
            r == s.(txPc := TxSending, tx := [0], ring := [])
  {
    RunOneMore(c, h, TxCheck);
    RunOneMore(c, h + [TxCheck], TxDequeue);
  }

  lemma SendsLone(c: Config, h: seq<Action>)
    requires c.Valid() && Run(c, h).txPc == TxSending && Run(c, h).tx == [0]
    ensures var s, r := Run(c, h), Run(c, h + [TxBurst(1)]);
            r == s.(txPc := TxAtLoop, tx := [], rr := s.rr.Next(), sent := s.sent + [s.mem.At(0)],
                    mem := s.mem.HandOver([0]))
  {
    RunOneMore(c, h, TxBurst(1));
    assert [0][..1] == [0] && [0][1..] == [];
  }

  /** Two packets received, the first buffer taken for transmission in between. */
  function Overtaken(): seq<Action> { Reception() + [TxCheck] + [TxDequeue] + Reception() }

  /** The second packet overwrites the first in the one buffer, and the NIC is handed it twice. */
  lemma WrittenRepeatsPacket(c: Config)
    requires c.Valid() && c.reading == Written && c.capacity > 0 && c.pool > 0
    ensures Run(c, Overtaken() + [TxBurst(1)] + [TxCheck] + [TxDequeue] + [TxBurst(1)]).sent == [1, 1]
  {
    WrittenFreesWhatItEnqueues(c);
    assert [] + Reception() == Reception();
    RangeOnce(0, c.pool, 0);
    ReceptionQueues(c, []);
    TakesLone(c, Reception());
    ReceptionQueues(c, Reception() + [TxCheck] + [TxDequeue]);
    var s := Run(c, Overtaken());
    assert s.ring == [0] && s.mem.filled == [0, 0] && s.mem.At(0) == 1;
    var h := Overtaken() + [TxBurst(1)];
    SendsLone(c, Overtaken());
    TakesLone(c, h);
    SendsLone(c, h + [TxCheck] + [TxDequeue]);
  }

  /** Without buffers or without a ring nothing ever reaches the transmit thread. */
  predicate Barren(c: Config, s: State)
  {
    && s.ring == [] && s.tx == [] && s.sent == []
    && (c.pool == 0 ==> s.mem.pool == multiset{} && s.mem.wire == multiset{} && s.rx == [])
  }

  lemma StepBarren(c: Config, s: State, a: Action)
    requires c.Valid() && |s.rr.perQueue| == c.nbTxQs && Held(s) && Barren(c, s)
    requires c.pool == 0 || c.capacity == 0
    ensures Barren(c, Step(c, s, a))
  {
    match a {
      case RxBurst(mbufs) =>
        if c.pool == 0 && mbufs != [] {
          assert mbufs[0] in multiset(mbufs);
        }
      case RxBulk => assert s.rxPc == RxEnqueueing ==> !Fits(c, s);
      case Complete(mbufs) =>
        if c.pool == 0 {
          ReturnsNothing(s.mem, mbufs);
        }
      case _ =>
    }
  }

  lemma {:induction false} AlwaysBarren(c: Config, schedule: seq<Action>)
    requires c.Valid() && (c.pool == 0 || c.capacity == 0)
    ensures Barren(c, Run(c, schedule))
  {
    if schedule != [] {
      var p := schedule[..|schedule| - 1];
      AlwaysBarren(c, p);
      AlwaysHeld(c, p);
      StepBarren(c, Run(c, p), schedule[|schedule| - 1]);
    } else if c.pool == 0 {
      assert Range(0, 0) == [];
    }
  }

  /** With the test as written, every schedule hands packets over in order and without repetition iff
      nothing can ever be queued. */
  lemma WrittenKeepsOrderIff(c: Config)
    requires c.Valid() && c.reading == Written
    ensures (forall schedule :: Increasing(Run(c, schedule).sent)) <==> c.pool == 0 || c.capacity == 0
  {
    if c.pool == 0 || c.capacity == 0 {
      forall schedule
        ensures Increasing(Run(c, schedule).sent)
      {
        AlwaysBarren(c, schedule);
      }
    } else {
      WrittenRepeatsPacket(c);
      var sent := Run(c, Overtaken() + [TxBurst(1)] + [TxCheck] + [TxDequeue] + [TxBurst(1)]).sent;
      assert !(sent[0] < sent[1]);
    }
  }
}

/** How large the pool is, and when it rules out that a bulk enqueue is refused. */
module ForwarderSizing {
  import opened Words
  import opened Forwarder
  import opened ForwarderProofs
  import opened ForwarderWritten

  /** Two buffers a descriptor and 32 more for each queue, in uint32, and at least 1024. */
  function PoolBuffers(nbDescs: u32, numQueues: u32): u32
  {
    var n := Wrap32(nbDescs * numQueues * 2 + 32 * numQueues);
    if n < 1024 then 1024 else n
  }

  method PortInitBuffers(nbDescs: u32, numQueues: u32) returns (nbBuff: u32)
    ensures nbBuff == PoolBuffers(nbDescs, numQueues)
  {
    var product := nbDescs * numQueues;
    nbBuff := Wrap32(Wrap32(product) * 2);
    nbBuff := Wrap32(nbBuff + Wrap32(32 * numQueues));
    PoolWrap(product, numQueues);
    nbBuff := if nbBuff < 512 * 2 then 512 * 2 else nbBuff;
  }

  lemma PoolWrap(x: int, q: int)
    ensures Wrap32(Wrap32(Wrap32(x) * 2) + Wrap32(32 * q)) == Wrap32(x * 2 + 32 * q)
  {
    var a, b, k := x * 2, 32 * q, x / TWO32;
    assert x == Wrap32(x) + TWO32 * k;
    assert Wrap32(Wrap32(x) * 2) == Wrap32(a) by {
      Wrap32Shift(Wrap32(x) * 2, k * 2);
    }
    Wrap32Later(a, Wrap32(b));
    Wrap32Later(b, a);
  }

  /** The pool has the two buffers a descriptor and 32 a queue that it is meant to have, and then no more
      than these or 1024, iff their number fits in 32 bits. */
  lemma PoolSufficesIff(nbDescs: u32, numQueues: u32)
    ensures var needed := 2 * nbDescs * numQueues + 32 * numQueues;
            && (PoolBuffers(nbDescs, numQueues) >= needed <==> needed < 4294967296)
            && (needed < 4294967296 ==>
                  PoolBuffers(nbDescs, numQueues) == needed || needed < PoolBuffers(nbDescs, numQueues) == 1024)
  {
    var needed := 2 * nbDescs * numQueues + 32 * numQueues;
    assert needed == nbDescs * numQueues * 2 + 32 * numQueues;
  }

  // ---------------------------------------------------------------- commented reading

  lemma OwnedFits(c: Config, s: State)
    requires Owned(c, s) && c.pool <= c.capacity
    ensures Fits(c, s)
  {
    assert |Stock(s)| == c.pool;
  }

  lemma {:induction false} SmallPoolNeverRefused(c: Config, schedule: seq<Action>)
    requires c.Valid() && c.reading == Commented && c.pool <= c.capacity
    ensures Run(c, schedule).refused == 0
  {
    if schedule != [] {
      var p := schedule[..|schedule| - 1];
      SmallPoolNeverRefused(c, p);
      AlwaysOwned(c, p);
      OwnedFits(c, Run(c, p));
    }
  }

  /** k packets received and enqueued one by one, into buffers 0 to k - 1. */
  function Fill(k: nat): seq<Action>
  {
    if k == 0 then [] else Fill(k - 1) + [RxCheck] + [RxBurst([k - 1])] + [RxBulk]
  }

  predicate FilledTo(c: Config, s: State, k: nat)
    requires k <= c.pool
  {
    !s.stop && s.rxPc == RxAtLoop && |s.ring| == k && s.mem.pool == multiset(Range(k, c.pool)) && s.refused == 0
  }

  lemma FillState(c: Config, s: State, k: nat)
    requires c.reading == Commented && k < c.pool && FilledTo(c, s, k) && Held(s)
    ensures var r := AfterEnqueue(c, AfterReceive(AfterRxCheck(s), [k]));
            if k < c.capacity then FilledTo(c, r, k + 1) else r.refused == 1
  {
    RangeOnce(k, c.pool, k);
    assert Range(k, c.pool) == [k] + Range(k + 1, c.pool);
    var polling := AfterRxCheck(s);
    assert Delivers(polling, [k]);
    var loaded := AfterReceive(polling, [k]);
    assert loaded.mem.pool == multiset(Range(k + 1, c.pool)) && loaded.rx == [k];
  }

  lemma RunThree(c: Config, h: seq<Action>, x: Action, y: Action, z: Action)
    requires c.Valid()
    ensures Run(c, h + [x] + [y] + [z]) == Step(c, Step(c, Step(c, Run(c, h), x), y), z)
  {
    RunOneMore(c, h, x);
    RunOneMore(c, h + [x], y);
    RunOneMore(c, h + [x] + [y], z);
  }

  lemma FillOne(c: Config, h: seq<Action>, k: nat)
    requires c.Valid() && c.reading == Commented && k < c.pool && FilledTo(c, Run(c, h), k)
    ensures var r := Run(c, h + [RxCheck] + [RxBurst([k])] + [RxBulk]);
            if k < c.capacity then FilledTo(c, r, k + 1) else r.refused == 1
  {
    AlwaysHeld(c, h);
    RunThree(c, h, RxCheck, RxBurst([k]), RxBulk);
    FillState(c, Run(c, h), k);
  }

  lemma {:induction false} FillFills(c: Config, k: nat)
    requires c.Valid() && c.reading == Commented && k <= c.pool && k <= c.capacity
    ensures FilledTo(c, Run(c, Fill(k)), k)
  {
    if k > 0 {
      FillFills(c, k - 1);
      FillOne(c, Fill(k - 1), k - 1);
    }
  }

  lemma LargePoolRefuses(c: Config)
    requires c.Valid() && c.reading == Commented && c.capacity < c.pool
    ensures exists schedule :: Run(c, schedule).refused > 0
  {
    FillFills(c, c.capacity);
    FillOne(c, Fill(c.capacity), c.capacity);
  }

  // ---------------------------------------------------------------- written reading

  function Receptions(k: nat): seq<Action> { if k == 0 then [] else Receptions(k - 1) + Reception() }

  /** Buffer 0 goes back to the pool after each round, so the ring fills whatever the pool. */
  lemma {:induction false} ReceptionsFill(c: Config, k: nat)
    requires c.Valid() && c.reading == Written && c.pool > 0 && k <= c.capacity
    ensures var s := Run(c, Receptions(k));
            !s.stop && s.rxPc == RxAtLoop && s.mem.pool[0] > 0 && |s.ring| == k && s.refused == 0
  {
    if k == 0 {
      RangeOnce(0, c.pool, 0);
    } else {
      ReceptionsFill(c, k - 1);
      ReceptionQueues(c, Receptions(k - 1));
    }
  }

  lemma WrittenRefuses(c: Config)
    requires c.Valid() && c.reading == Written && c.pool > 0
    ensures Run(c, Receptions(c.capacity) + [RxCheck] + [RxBurst([0])] + [RxBulk]).refused == 1
  {
    var h := Receptions(c.capacity);
    ReceptionsFill(c, c.capacity);
    AlwaysHeld(c, h);
    RunThree(c, h, RxCheck, RxBurst([0]), RxBulk);
    RefusedWhenFull(c, Run(c, h));
  }

  lemma RefusedWhenFull(c: Config, s: State)
    requires !s.stop && s.rxPc == RxAtLoop && s.mem.pool[0] > 0 && |s.ring| == c.capacity && s.refused == 0
    ensures AfterEnqueue(c, AfterReceive(AfterRxCheck(s), [0])).refused == 1
  {
    assert multiset([0]) <= s.mem.pool;
  }

  lemma {:induction false} EmptyPoolNeverRefused(c: Config, schedule: seq<Action>)
    requires c.Valid() && c.pool == 0
    ensures Run(c, schedule).refused == 0
  {
    if schedule != [] {
      var p := schedule[..|schedule| - 1];
      EmptyPoolNeverRefused(c, p);
      AlwaysBarren(c, p);
      AlwaysHeld(c, p);
    }
  }

  // ---------------------------------------------------------------- both

  /** No interleaving ever has a bulk enqueue refused iff, in the commented reading, the whole pool fits
      the ring; in the written one, iff there is no pool at all. */
  lemma NeverRefusedIff(c: Config)
    requires c.Valid()
    ensures (forall schedule :: Run(c, schedule).refused == 0) <==>
            if c.reading == Commented then c.pool <= c.capacity else c.pool == 0
  {
    if c.reading == Commented && c.pool <= c.capacity {
      forall schedule
        ensures Run(c, schedule).refused == 0
      {
        SmallPoolNeverRefused(c, schedule);
      }
    } else if c.reading == Commented {
      LargePoolRefuses(c);
    } else if c.pool == 0 {
      forall schedule
        ensures Run(c, schedule).refused == 0
      {
        EmptyPoolNeverRefused(c, schedule);
      }
    } else {
      WrittenRefuses(c);
    }
  }

  lemma ConfiguredPool()
    ensures PoolBuffers(1024, 2) == 4160
  {
  }

  /** As configured, 1024 descriptors and 2 queues make 4160 buffers and a ring of size 8192 takes 8191:
      overflow is never reached as commented, but it can be reached as written. */
  lemma ConfiguredNeverRefusesIff(c: Config)
    requires c.Valid() && c.capacity == 8192 - 1 && c.pool == PoolBuffers(1024, 2)
    ensures c.pool == 4160
    ensures (forall schedule :: Run(c, schedule).refused == 0) <==> c.reading == Commented
  {
    ConfiguredPool();
    NeverRefusedIff(c);
  }
}

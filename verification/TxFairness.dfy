/** How the 16-bit round-robin counter spreads transmit bursts over the queues. */
module TxFairness {
  import opened Words
  import opened Forwarder
  import opened ForwarderProofs
  import opened ForwarderWritten

  /** The bursts among the first b that went to queue q of n. */
  function Share(n: nat, q: nat, b: nat): nat
    requires n > 0
  {
    if b == 0 then 0 else Share(n, q, b - 1) + Bit(Wrap16(b - 1) % n == q)
  }

  /** In every interleaving the counter is the burst count modulo 2^16, and each queue has its share. */
  lemma {:induction false} QueuesGetShares(c: Config, schedule: seq<Action>, q: nat)
    requires c.Valid() && q < c.nbTxQs
    ensures var rr := Run(c, schedule).rr;
            rr.currQ == Wrap16(rr.bursts) && rr.perQueue[q] == Share(c.nbTxQs, q, rr.bursts)
  {
    if schedule != [] {
      var p := schedule[..|schedule| - 1];
      QueuesGetShares(c, p, q);
      NextShare(Run(c, p).rr, q);
    }
  }

  lemma NextShare(rr: RoundRobin, q: nat)
    requires q < |rr.perQueue|
    requires rr.currQ == Wrap16(rr.bursts) && rr.perQueue[q] == Share(|rr.perQueue|, q, rr.bursts)
    ensures var r := rr.Next();
            r.currQ == Wrap16(r.bursts) && r.perQueue[q] == Share(|rr.perQueue|, q, r.bursts)
  {
    Wrap16Next(rr.bursts);
  }

  /** Bursts to queue q in a full turn of the counter. */
  function PerWrap(n: nat, q: nat): nat
  {
    if n == 1 then 65536 else if n == 2 then 32768 else if q == 0 then 21846 else 21845
  }

  /** The closed form: w full turns and r bursts of the next. */
  function Closed(n: nat, q: nat, w: nat, r: nat): nat
    requires q < n
  {
    w * PerWrap(n, q) + (r + n - 1 - q) / n
  }

  lemma {:induction false} ShareClosedForm(n: nat, q: nat, b: nat, w: nat, r: nat)
    requires q < n <= MAX_Q_PER_FORWARDER && r < TWO16 && b == w * TWO16 + r
    ensures Share(n, q, b) == Closed(n, q, w, r)
    decreases w, r
  {
    if r > 0 {
      ShareClosedForm(n, q, b - 1, w, r - 1);
      FollowsInTurn(n, q, b, w, r);
    } else if w > 0 {
      ShareClosedForm(n, q, b - 1, w - 1, TWO16 - 1);
      FollowsTurn(n, q, b, w);
    } else {
      ClosedStart(n, q);
    }
  }

  lemma ClosedStart(n: nat, q: nat)
    requires q < n
    ensures Closed(n, q, 0, 0) == 0
  {
    DivideIs(n - 1 - q, n, 0, n - 1 - q);
  }

  /** Burst b - 1 is number r of turn w. */
  lemma ShareStep(n: nat, q: nat, b: nat, w: nat, r: nat)
    requires n > 0 && r < TWO16 && b > 0 && b - 1 == w * TWO16 + r
    ensures Share(n, q, b) == Share(n, q, b - 1) + Bit(r % n == q)
  {
    DivideIs(b - 1, TWO16, w, r);
    assert Wrap16(b - 1) == r;
  }

  lemma ClosedStep(n: nat, q: nat, w: nat, r: nat)
    requires q < n && r > 0
    ensures Closed(n, q, w, r) == Closed(n, q, w, r - 1) + Bit((r - 1) % n == q)
  {
    PartStep(n, q, r - 1);
  }

  lemma ClosedTurn(n: nat, q: nat, w: nat)
    requires q < n <= MAX_Q_PER_FORWARDER && w > 0
    ensures Closed(n, q, w, 0) == Closed(n, q, w - 1, TWO16 - 1) + Bit((TWO16 - 1) % n == q)
  {
    PartStep(n, q, TWO16 - 1);
    TurnEnds(n, q);
    var p := PerWrap(n, q);
    assert w * p == (w - 1) * p + p;
  }

  lemma FollowsInTurn(n: nat, q: nat, b: nat, w: nat, r: nat)
    requires q < n && 0 < r < TWO16 && b == w * TWO16 + r && Share(n, q, b - 1) == Closed(n, q, w, r - 1)
    ensures Share(n, q, b) == Closed(n, q, w, r)
  {
    ShareStep(n, q, b, w, r - 1);
    ClosedStep(n, q, w, r);
  }

  lemma FollowsTurn(n: nat, q: nat, b: nat, w: nat)
    requires q < n <= MAX_Q_PER_FORWARDER && w > 0 && b == w * TWO16
    requires Share(n, q, b - 1) == Closed(n, q, w - 1, TWO16 - 1)
    ensures Share(n, q, b) == Closed(n, q, w, 0)
  {
    ShareStep(n, q, b, w - 1, TWO16 - 1);
    ClosedTurn(n, q, w);
  }

  /** One more burst of a turn adds to the part of its own queue only. */
  lemma PartStep(n: nat, q: nat, r: nat)
    requires q < n
    ensures (r + 1 + n - 1 - q) / n == (r + n - 1 - q) / n + Bit(r % n == q)
  {
    var k, t := r / n, r % n;
    assert r == n * k + t;
    assert n * (k + 1) == n * k + n;
    if t <= q {
      DivideIs(r + n - 1 - q, n, k, t + n - 1 - q);
    } else {
      DivideIs(r + n - 1 - q, n, k + 1, t - 1 - q);
    }
    if t < q {
      DivideIs(r + n - q, n, k, t + n - q);
    } else {
      DivideIs(r + n - q, n, k + 1, t - q);
    }
  }

  lemma TurnEnds(n: nat, q: nat)
    requires q < n <= MAX_Q_PER_FORWARDER
    ensures (TWO16 + n - 1 - q) / n == PerWrap(n, q) && (n - 1 - q) / n == 0
  {
    DivideIs(n - 1 - q, n, 0, n - 1 - q);
    if n == 1 {
      assert TWO16 / 1 == 65536;
    } else if n == 2 {
      assert (TWO16 + 1) / 2 == 32768 == TWO16 / 2;
    } else {
      assert n == 3;
      assert (TWO16 + 2) / 3 == 21846 && (TWO16 + 1) / 3 == 21845 == TWO16 / 3;
    }
  }

  /** Fairness after any number of bursts in any interleaving: one burst apart for one or two queues,
      for three queues one more for every completed turn of the counter, because 65536 is not a
      multiple of three. */
  lemma TransmitFairness(c: Config, schedule: seq<Action>, p: nat, q: nat)
    requires c.Valid() && p < c.nbTxQs && q < c.nbTxQs
    ensures var rr := Run(c, schedule).rr;
            rr.perQueue[p] <= rr.perQueue[q] + 1 + if c.nbTxQs == 3 then rr.bursts / TWO16 else 0
  {
    var rr, n := Run(c, schedule).rr, c.nbTxQs;
    QueuesGetShares(c, schedule, p);
    QueuesGetShares(c, schedule, q);
    var w, r := rr.bursts / TWO16, rr.bursts % TWO16;
    assert rr.bursts == w * TWO16 + r;
    ShareClosedForm(n, p, rr.bursts, w, r);
    ShareClosedForm(n, q, rr.bursts, w, r);
    SharesClose(n, p, q, w, r);
  }

  lemma SharesClose(n: nat, p: nat, q: nat, w: nat, r: nat)
    requires p < n <= MAX_Q_PER_FORWARDER && q < n && r < TWO16
    ensures Closed(n, p, w, r) <= Closed(n, q, w, r) + 1 + if n == 3 then w else 0
  {
    assert w * 21846 == w * 21845 + w;
    if n == 1 {
    } else if n == 2 {
    } else {
      assert n == 3;
    }
  }

  /** One packet on its way through, and its buffer back in the pool. */
  function Passage(): seq<Action> { Reception() + [TxCheck] + [TxDequeue] + [TxBurst(1)] + [Complete([0])] }

  function Passages(b: nat): seq<Action> { if b == 0 then [] else Passages(b - 1) + Passage() }

  predicate Through(c: Config, s: State, b: nat)
  {
    Ready(c, s) && s.txPc == TxAtLoop && s.ring == [] && s.rr.bursts == b
  }

  /** All of a passage but the return of the buffer. */
  lemma PassageDelivers(c: Config, h: seq<Action>, b: nat)
    requires c.Valid() && Through(c, Run(c, h), b)
    ensures var r := Run(c, h + Reception() + [TxCheck] + [TxDequeue] + [TxBurst(1)]);
            && !r.stop && r.rxPc == RxAtLoop && r.txPc == TxAtLoop && r.ring == [] && r.rr.bursts == b + 1
            && r.mem.wire[0] > 0
  {
    var g := h + Reception();
    ReceptionQueues(c, h);
    TakesLone(c, g);
    SendsLone(c, g + [TxCheck] + [TxDequeue]);
  }

  lemma PassageSends(c: Config, h: seq<Action>, b: nat)
    requires c.Valid() && c.capacity > 0 && Through(c, Run(c, h), b)
    ensures Through(c, Run(c, h + Passage()), b + 1)
  {
    var f := h + Reception() + [TxCheck] + [TxDequeue] + [TxBurst(1)];
    PassageDelivers(c, h, b);
    assert h + Passage() == f + [Complete([0])];
    RunOneMore(c, f, Complete([0]));
    CompleteReadies(c, Run(c, f));
  }

  lemma CompleteReadies(c: Config, s: State)
    requires c.Valid() && c.capacity > 0 && |s.rr.perQueue| == c.nbTxQs
    requires !s.stop && s.rxPc == RxAtLoop && s.txPc == TxAtLoop && s.ring == [] && s.mem.wire[0] > 0
    ensures Through(c, Step(c, s, Complete([0])), s.rr.bursts)
  {
    ReturnsOne(s.mem);
  }

  lemma ReturnsOne(b: Buffers)
    requires b.wire[0] > 0
    ensures b.Return([0]) == Buffers(b.pool + multiset{0}, b.wire - multiset{0}, b.filled)
  {
    assert multiset([0]) == multiset{0} <= b.wire;
  }

  /** With a buffer and room for it in the ring, every number of bursts is the outcome of some schedule. */
  lemma {:induction false} EveryCountAttained(c: Config, b: nat)
    requires c.Valid() && c.pool > 0 && c.capacity > 0
    ensures Through(c, Run(c, Passages(b)), b)
  {
    if b == 0 {
      RangeOnce(0, c.pool, 0);
    } else {
      EveryCountAttained(c, b - 1);
      PassageSends(c, Passages(b - 1), b - 1);
    }
  }

  /** The bound for three queues is reached: w full turns and one burst put queue 0 ahead by w + 1, and
      there is a schedule with that many bursts. */
  lemma QueueZeroLeads(c: Config, w: nat)
    requires c.Valid() && c.nbTxQs == 3 && c.pool > 0 && c.capacity > 0
    ensures var rr := Run(c, Passages(w * TWO16 + 1)).rr;
            && rr.bursts == w * TWO16 + 1
            && rr.perQueue[0] == rr.perQueue[1] + w + 1 && rr.perQueue[1] == rr.perQueue[2]
  {
    var b := w * TWO16 + 1;
    EveryCountAttained(c, b);
    forall q | 0 <= q < 3
      ensures Run(c, Passages(b)).rr.perQueue[q] == w * PerWrap(3, q) + Bit(q == 0)
    {
      QueuesGetShares(c, Passages(b), q);
      ShareClosedForm(3, q, b, w, 1);
    }
    assert w * 21846 == w * 21845 + w;
  }
}

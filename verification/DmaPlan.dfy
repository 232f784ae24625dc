/**
 * The arithmetic of the two DMA commands: how one byte range is cut over the queues of a port,
 * and which transfer each visit of a queue asks for.  Everything here is stated without the running
 * totals of the command loops; DmaTransfer proves that the loops produce exactly this plan.
 */
module DmaPlan {
  import opened Words

  const BRAM_SIZE: nat := 524288

  datatype Direction = ToDevice | FromDevice

  /** One visit of a queue: the pass of the outer loop and the queue of the inner one. */
  datatype Visit = Visit(pass: nat, queue: nat)

  /** What one visit hands to the driver. */
  datatype Xfer = Xfer(queue: nat, mm: bool, addr: nat, offset: nat, size: nat,
                       ldSize: nat, numDesc: nat, zbyte: bool)

  /** Descriptors of `buff` bytes needed for `q` bytes; an empty transfer still takes one. */
  function DescCount(q: nat, buff: nat): nat
    requires buff > 0
  {
    if q == 0 then 1 else (q - 1) / buff + 1
  }

  /** The last-descriptor size is only assigned when the transfer does not fill its descriptors. */
  function NextLd(ld: nat, q: nat, buff: nat): nat
    requires buff > 0
  {
    if q >= buff && q % buff == 0 then ld else q % buff
  }

  /** A command whose arguments passed every check. */
  datatype Job = Job(dir: Direction, base: nat, input: nat, n: nat, loops: int,
                     buff: nat, st: nat, loopback: bool)
  {
    predicate Valid() { n > 0 && buff > 0 }

    function Share(): nat
      requires Valid()
    {
      input / n
    }

    function Rest(): nat
      requires Valid()
    {
      input % n
    }

    /** The outer loop is a do-while: it always runs once. */
    function Passes(): nat { if loops > 1 then loops else 1 }

    function Offset(i: nat): nat
      requires Valid()
    {
      Share() * i
    }

    /** Bytes given to queue i. */
    function Size(i: nat): nat
      requires Valid()
    {
      if n <= input then if i == n - 1 then Share() + Rest() else Share()
      else if i == 0 && input > 0 then input
      else if dir == ToDevice then buff
      else 0
    }

    function Sum(k: nat): nat
      requires Valid()
    {
      if k == 0 then 0 else Sum(k - 1) + Size(k - 1)
    }

    /** Device address of queue i: advanced by each transfer and reduced modulo the BRAM. */
    function Addr(i: nat): nat
      requires Valid()
    {
      if i == 0 then base % BRAM_SIZE else (Addr(i - 1) + Size(i - 1)) % BRAM_SIZE
    }

    /** The last-descriptor size on entry to a visit, carried over queues and passes. */
    function Carried(pass: nat, i: nat): nat
      requires Valid()
      decreases pass, i
    {
      if i > 0 then NextLd(Carried(pass, i - 1), Size(i - 1), buff)
      else if pass > 0 then Carried(pass - 1, n)
      else 0
    }

    function Ld(pass: nat, i: nat): nat
      requires Valid()
    {
      NextLd(Carried(pass, i), Size(i), buff)
    }

    function FileOffset(i: nat): nat
      requires Valid()
    {
      if dir == ToDevice && i < st && !loopback then 0 else Offset(i)
    }

    function Transfer(pass: nat, i: nat): Xfer
      requires Valid()
    {
      Xfer(i, i >= st, Addr(i), FileOffset(i), Size(i), Ld(pass, i), DescCount(Size(i), buff),
           dir == ToDevice && input == 0)
    }

    /** All transfers asked for before visit (pass, i). */
    function Plan(pass: nat, i: nat): seq<Xfer>
      requires Valid()
      decreases pass, i
    {
      if i > 0 then Plan(pass, i - 1) + [Transfer(pass, i - 1)]
      else if pass > 0 then Plan(pass - 1, n)
      else []
    }
  }

  lemma ShareBounds(job: Job)
    requires job.Valid()
    ensures job.input == job.n * job.Share() + job.Rest() && job.Rest() < job.n
    ensures job.n <= job.input <==> job.Share() >= 1
  {
    assert job.input == job.n * job.Share() + job.Rest();
    if job.Share() == 0 {
      assert job.n * job.Share() == 0;
    } else {
      assert job.n * job.Share() >= job.n;
    }
  }

  // ---------------------------------------------------------------- partition

  lemma MulStep(a: int, k: int)
    ensures a * (k + 1) == a * k + a
  {
  }

  /** Below the last queue every queue of a large enough job carries one share. */
  lemma {:induction false} SumOfShares(job: Job, k: nat)
    requires job.Valid() && job.n <= job.input && k < job.n
    ensures job.Sum(k) == job.Offset(k)
  {
    if k > 0 {
      SumOfShares(job, k - 1);
      MulStep(job.Share(), k - 1);
    }
  }

  /** A job with fewer bytes than queues sends all of them first. */
  lemma {:induction false} SumOfSmall(job: Job, k: nat)
    requires job.Valid() && job.n > job.input && 0 < k <= job.n
    ensures job.Sum(k) == if job.dir == FromDevice then job.input
                          else if job.input == 0 then job.buff * k
                          else job.input + job.buff * (k - 1)
  {
    if k > 1 {
      SumOfSmall(job, k - 1);
      MulStep(job.buff, k - 1);
      MulStep(job.buff, k - 2);
    }
  }

  /** Where the k-th queue starts, counted in bytes already dealt out. */
  lemma SumBefore(job: Job, k: nat)
    requires job.Valid() && job.n <= job.input && k <= job.n
    ensures job.Sum(k) == if k == job.n then job.input else job.Offset(k)
  {
    if k == job.n {
      ShareBounds(job);
      SumOfShares(job, k - 1);
      MulStep(job.Share(), k - 1);
    } else {
      SumOfShares(job, k);
    }
  }

  /** The transfers of one pass carry exactly the requested bytes iff the command reads from the device
      or has at least one byte for each queue; otherwise every further queue sends a whole buffer. */
  lemma PassTotal(job: Job)
    requires job.Valid()
    ensures job.Sum(job.n) == job.input <==> job.dir == FromDevice || job.n <= job.input
    ensures job.dir == ToDevice && 0 < job.input < job.n ==>
              job.Sum(job.n) == job.input + job.buff * (job.n - 1)
    ensures job.dir == ToDevice && job.input == 0 ==> job.Sum(job.n) == job.buff * job.n
  {
    if job.n <= job.input {
      SumBefore(job, job.n);
    } else {
      SumOfSmall(job, job.n);
      MulStep(job.buff, job.n - 1);
      assert job.input > 0 ==> job.buff * (job.n - 1) > 0;
    }
  }

  lemma {:induction false} SumMonotone(job: Job, a: nat, b: nat)
    requires job.Valid() && a <= b
    ensures job.Sum(a) <= job.Sum(b)
    decreases b
  {
    if a < b {
      SumMonotone(job, a, b - 1);
    }
  }

  lemma QueueSpan(job: Job, i: nat)
    requires job.Valid() && job.n <= job.input && i < job.n
    ensures job.Offset(i) == job.Sum(i)
    ensures job.Sum(i) + job.Size(i) == job.Sum(i + 1) <= job.input && job.Size(i) >= 1
  {
    SumBefore(job, i);
    SumBefore(job, job.n);
    SumMonotone(job, i + 1, job.n);
    ShareBounds(job);
  }

  /** Each queue starts where its predecessor stops, in the file and on the device alike, and the
      reduction modulo the BRAM size changes no address. */
  lemma {:induction false} AddressIsOffset(job: Job, i: nat)
    requires job.Valid() && job.n <= job.input && job.base + job.input <= BRAM_SIZE && i < job.n
    ensures job.Addr(i) == job.base + job.Offset(i)
    ensures job.Offset(i) == job.Sum(i) && job.Offset(i) + job.Size(i) == job.Sum(i + 1) <= job.input
  {
    QueueSpan(job, i);
    NoWrap(job.base + job.Sum(i));
    if i > 0 {
      AddressIsOffset(job, i - 1);
      NextAddress(job, i, job.base + job.Sum(i));
    }
  }

  lemma NextAddress(job: Job, i: nat, a: nat)
    requires job.Valid() && i > 0 && job.Addr(i - 1) + job.Size(i - 1) == a < BRAM_SIZE
    ensures job.Addr(i) == a
  {
    NoWrap(a);
  }

  lemma NoWrap(x: nat)
    requires x < BRAM_SIZE
    ensures x % BRAM_SIZE == x
  {
  }

  /** Every byte of the range is carried by exactly one queue, from the same place in the file as on
      the device, so the ranges of different queues are disjoint and leave no gap. */
  lemma RangesTile(job: Job, x: nat)
    requires job.Valid() && job.n <= job.input && job.base + job.input <= BRAM_SIZE && x < job.input
    ensures exists i :: 0 <= i < job.n && Carries(job, i, x)
    ensures forall i, j :: 0 <= i < job.n && 0 <= j < job.n && Carries(job, i, x) && Carries(job, j, x) ==> i == j
    ensures forall i :: 0 <= i < job.n && Carries(job, i, x) ==>
                          job.Addr(i) <= job.base + x < job.Addr(i) + job.Size(i)
  {
    SumBefore(job, job.n);
    var k := FindCarrier(job, x, job.n);
    forall i | 0 <= i < job.n && Carries(job, i, x)
      ensures i == k && job.Addr(i) <= job.base + x < job.Addr(i) + job.Size(i)
    {
      AddressIsOffset(job, i);
      SameCarrier(job, i, k, x);
    }
  }

  lemma SameCarrier(job: Job, i: nat, j: nat, x: nat)
    requires job.Valid() && job.n <= job.input && i < job.n && j < job.n
    requires Carries(job, i, x) && Carries(job, j, x)
    ensures i == j
  {
    QueueSpan(job, i);
    QueueSpan(job, j);
    if i < j {
      SumMonotone(job, i + 1, j);
    } else if j < i {
      SumMonotone(job, j + 1, i);
    }
  }

  ghost predicate Carries(job: Job, i: nat, x: nat)
    requires job.Valid()
  {
    job.Offset(i) <= x < job.Offset(i) + job.Size(i)
  }

  lemma {:induction false} FindCarrier(job: Job, x: nat, k: nat) returns (i: nat)
    requires job.Valid() && job.n <= job.input && job.base + job.input <= BRAM_SIZE
    requires k <= job.n && x < job.Sum(k)
    ensures i < k && Carries(job, i, x)
  {
    if x >= job.Sum(k - 1) {
      i := k - 1;
      AddressIsOffset(job, i);
    } else {
      i := FindCarrier(job, x, k - 1);
    }
  }

  /** A write keeps to the requested range exactly when every queue gets a byte.  With fewer bytes
      than queues the second queue already sends a whole buffer to a place behind the range.
      (Ports have at most 4096 queues; more queues than BRAM bytes could wrap back into a range that
      is the whole BRAM.) */
  lemma StaysInRangeIff(job: Job)
    requires job.Valid() && job.dir == ToDevice && job.n <= BRAM_SIZE
    requires job.base + job.input <= BRAM_SIZE
    ensures job.n <= job.input <==> forall i :: 0 <= i < job.n ==> Inside(job, i)
  {
    if job.n <= job.input {
      forall i | 0 <= i < job.n
        ensures Inside(job, i)
      {
        AddressIsOffset(job, i);
      }
    } else if job.input == 0 {
      assert !Inside(job, 0);
    } else {
      SecondQueue(job);
      assert !Inside(job, 1);
    }
  }

  lemma SecondQueue(job: Job)
    requires job.Valid() && job.dir == ToDevice && 0 < job.input < job.n <= BRAM_SIZE
    requires job.base + job.input <= BRAM_SIZE
    ensures !Inside(job, 1)
  {
    NoWrap(job.base);
    assert job.Addr(0) == job.base && job.Size(0) == job.input;
    assert job.Size(1) == job.buff;
    var end := job.base + job.input;
    assert job.Addr(1) == end % BRAM_SIZE;
    if end < BRAM_SIZE {
      NoWrap(end);
    } else {
      assert job.base > 0 && end % BRAM_SIZE == 0;
    }
  }

  /** Queue i's bytes lie in the requested range of the device. */
  predicate Inside(job: Job, i: nat)
    requires job.Valid()
  {
    job.base <= job.Addr(i) && job.Addr(i) + job.Size(i) <= job.base + job.input
  }

  /** For instance one byte over two queues with buffers of 4096 sends 4097. */
  lemma ShortWriteExample()
    ensures Job(ToDevice, 0, 1, 2, 1, 4096, 0, false).Sum(2) == 4097
  {
    SumOfSmall(Job(ToDevice, 0, 1, 2, 1, 4096, 0, false), 2);
  }

  // ---------------------------------------------------------------- descriptors

  /** Full descriptors except possibly the last: the count is the ceiling of size over buffer size. */
  lemma DescriptorsCover(q: nat, buff: nat)
    requires buff > 0
    ensures q > 0 ==> (DescCount(q, buff) - 1) * buff < q <= DescCount(q, buff) * buff
    ensures q % buff == 0 && q > 0 ==> DescCount(q, buff) == q / buff
    ensures q % buff != 0 ==> DescCount(q, buff) == q / buff + 1
  {
    if q > 0 {
      var d, r := (q - 1) / buff, (q - 1) % buff;
      assert q - 1 == buff * d + r;
      assert (d + 1) * buff == d * buff + buff;
      if r + 1 == buff {
        DivideIs(q, buff, d + 1, 0);
      } else {
        DivideIs(q, buff, d, r + 1);
      }
    }
  }

  /** Every visit of every pass passes the true remainder as last-descriptor size. */
  ghost predicate LdExact(job: Job)
    requires job.Valid()
  {
    forall p, i :: 0 <= p < job.Passes() && 0 <= i < job.n ==> job.Ld(p, i) == job.Size(i) % job.buff
  }

  /** What a caller can check beforehand. */
  predicate LdSafe(job: Job)
    requires job.Valid()
  {
    if job.n <= job.input then
      var evenShare, evenLast := job.Share() % job.buff == 0, (job.Share() + job.Rest()) % job.buff == 0;
      job.n == 1 || evenShare == evenLast || (evenShare && job.Passes() == 1)
    else
      job.dir == FromDevice || job.input % job.buff == 0
  }

  /** While only whole buffers were sent, the carried size is still its initial zero. */
  lemma {:induction false} CarriedStaysZero(job: Job, p: nat, i: nat)
    requires job.Valid() && i <= job.n
    requires forall k :: 0 <= k < (if p > 0 then job.n else i) ==> job.Size(k) % job.buff == 0
    ensures job.Carried(p, i) == 0
    decreases p, i
  {
    if i > 0 {
      CarriedStaysZero(job, p, i - 1);
    } else if p > 0 {
      CarriedStaysZero(job, p - 1, job.n);
    }
  }

  lemma MultipleOfItself(b: nat)
    requires b > 0
    ensures b % b == 0 && 0 % b == 0
  {
  }

  lemma {:induction false} LdSafeSuffices(job: Job)
    requires job.Valid() && LdSafe(job)
    ensures LdExact(job)
  {
    MultipleOfItself(job.buff);
    forall p, i | 0 <= p < job.Passes() && 0 <= i < job.n
      ensures job.Ld(p, i) == job.Size(i) % job.buff
    {
      if job.Size(i) % job.buff == 0 && job.Size(i) >= job.buff {
        if job.n > job.input && job.dir == FromDevice && p > 0 {
          // the preceding queue moved nothing and cleared the carried size
          assert i == 0 && job.n > 1 && job.Size(job.n - 1) == 0;
          assert job.Carried(p, 0) == job.Carried(p - 1, job.n) == 0;
        } else {
          CarriedStaysZero(job, p, i);
        }
      }
    }
  }

  lemma {:induction false} LdSafeNeeded(job: Job)
    requires job.Valid() && LdExact(job)
    ensures LdSafe(job)
  {
    if !LdSafe(job) {
      var n := job.n;
      assert n > 1;
      if n > job.input {
        MultipleOfItself(job.buff);
        assert job.Ld(0, 0) == job.Size(0) % job.buff;
        StaleTail(job, 0, 1);
      } else if job.Share() % job.buff == 0 {
        // the short last queue of the first pass leaves its size to the first queue of the second
        assert job.Ld(0, n - 1) == job.Size(n - 1) % job.buff;
        assert job.Carried(1, 0) == job.Carried(0, n) == job.Ld(0, n - 1);
        ShareBounds(job);
        StaleTail(job, 1, 0);
      } else {
        assert job.Ld(0, n - 2) == job.Size(n - 2) % job.buff;
        ShareBounds(job);
        StaleTail(job, 0, n - 1);
      }
    }
  }

  /** A transfer that fills its descriptors repeats whatever size the visit before it left. */
  lemma StaleTail(job: Job, p: nat, i: nat)
    requires job.Valid() && job.Carried(p, i) != 0
    requires job.Size(i) > 0 && job.Size(i) % job.buff == 0
    ensures job.Ld(p, i) != job.Size(i) % job.buff
  {
    if job.Size(i) < job.buff {
      DivideIs(job.Size(i), job.buff, 0, job.Size(i));
    }
  }

  /** The loop-carried last-descriptor size is right at every visit of every pass exactly when the
      condition holds: otherwise some full transfer is announced with a stale short tail. */
  lemma LdExactIff(job: Job)
    requires job.Valid()
    ensures LdExact(job) <==> LdSafe(job)
  {
    if LdSafe(job) {
      LdSafeSuffices(job);
    }
    if LdExact(job) {
      LdSafeNeeded(job);
    }
  }

  /** For instance 8193 bytes over two queues, twice: the last queue of the first pass leaves its one
      byte to the full transfer that opens the second. */
  lemma StaleTailExample()
    ensures !LdExact(Job(ToDevice, 0, 8193, 2, 2, 4096, 0, false))
  {
    LdExactIff(Job(ToDevice, 0, 8193, 2, 2, 4096, 0, false));
  }

  // ---------------------------------------------------------------- the calls of a run

  predicate Before(q: nat, j: nat, p: nat, i: nat) { q < p || (q == p && j < i) }

  /** The calls of an earlier visit come first, and then its own. */
  lemma {:induction false} PlanGrows(job: Job, q: nat, j: nat, p: nat, i: nat)
    requires job.Valid() && j < job.n && i <= job.n && Before(q, j, p, i)
    ensures var k := |job.Plan(q, j)|;
            && k < |job.Plan(p, i)|
            && job.Plan(p, i)[..k] == job.Plan(q, j)
            && job.Plan(p, i)[k] == job.Transfer(q, j)
    decreases p, i
  {
    if i > 0 {
      if q != p || j != i - 1 {
        PlanGrows(job, q, j, p, i - 1);
      }
    } else {
      PlanGrows(job, q, j, p - 1, job.n);
    }
  }

  lemma {:induction false} PlanLength(job: Job, p: nat, i: nat)
    requires job.Valid() && i <= job.n
    ensures |job.Plan(p, i)| == p * job.n + i
    decreases p, i
  {
    if i > 0 {
      PlanLength(job, p, i - 1);
    } else if p > 0 {
      PlanLength(job, p - 1, job.n);
      MulStep(job.n, p - 1);
    }
  }

  /** Call number k is a visit of queue k % n. */
  lemma VisitOf(n: nat, p: nat, i: nat, k: nat) returns (q: nat, j: nat)
    requires n > 0 && i <= n && k < p * n + i
    ensures k == q * n + j && j == k % n && j < n && Before(q, j, p, i)
  {
    q, j := k / n, k % n;
    assert k == n * q + j;
    var ahead := q - p;
    assert n * q == p * n + n * ahead && n * q == q * n;
    if ahead > 0 {
      NonzeroMultiple(n, ahead);
    }
  }

  lemma CallAt(job: Job, p: nat, i: nat, k: nat) returns (q: nat, j: nat)
    requires job.Valid() && i <= job.n && k < |job.Plan(p, i)|
    ensures j < job.n && Before(q, j, p, i) && k == |job.Plan(q, j)|
    ensures job.Plan(p, i)[..k] == job.Plan(q, j)
    ensures job.Plan(p, i)[k] == job.Transfer(q, j) && j == job.Plan(p, i)[k].queue == k % job.n
  {
    PlanLength(job, p, i);
    q, j := VisitOf(job.n, p, i, k);
    PlanLength(job, q, j);
    PlanGrows(job, q, j, p, i);
  }

  /** Each pass addresses the queues 0 to n - 1 once and in order.  Memory-mapped queues come after the
      streaming ones.  The descriptors hold the transfer and none of them is superfluous, but an empty
      transfer has one too.  Exactly the calls of a zero-length write say so. */
  lemma CallsAreVisits(job: Job, p: nat, i: nat, k: nat)
    requires job.Valid() && i <= job.n && k < |job.Plan(p, i)|
    ensures |job.Plan(p, i)| == p * job.n + i
    ensures var x := job.Plan(p, i)[k];
            && x.queue == k % job.n
            && (x.mm <==> x.queue >= job.st)
            && (x.zbyte <==> job.dir == ToDevice && job.input == 0)
            && (if x.size == 0 then x.numDesc == 1
                else (x.numDesc - 1) * job.buff < x.size <= x.numDesc * job.buff)
  {
    PlanLength(job, p, i);
    var q, j := CallAt(job, p, i, k);
    DescriptorsCover(job.Size(j), job.buff);
  }

  /** All queues but the last get the same share, as large as n such shares allow, and the last the rest;
      with fewer bytes than queues the first gets them all, and each further queue of a write a whole
      buffer.  The device address is the requested one plus the bytes dealt out before in the pass,
      modulo the BRAM, whatever the sizes. */
  lemma CallsDealBytes(job: Job, p: nat, i: nat, k: nat)
    requires job.Valid() && i <= job.n && k < |job.Plan(p, i)|
    ensures var x := job.Plan(p, i)[k];
            && x.addr == (job.base + job.Sum(x.queue)) % 524288
            && if job.n > job.input then
                 x.size == if x.queue == 0 && job.input > 0 then job.input
                           else if job.dir == ToDevice then job.buff
                           else 0
               else if x.queue == job.n - 1 then job.Sum(x.queue) + x.size == job.input
               else x.size * job.n <= job.input < x.size * job.n + job.n
  {
    var q, j := CallAt(job, p, i, k);
    AddressWraps(job, j);
    if job.n <= job.input {
      SharesDealt(job, j);
    }
  }

  lemma SharesDealt(job: Job, i: nat)
    requires job.Valid() && job.n <= job.input && i < job.n
    ensures var size := job.Size(i);
            if i == job.n - 1 then job.Sum(i) + size == job.input
            else size * job.n <= job.input < size * job.n + job.n
  {
    ShareBounds(job);
    SumBefore(job, job.n);
    assert job.n * job.Share() == job.Share() * job.n;
  }

  lemma {:induction false} AddressWraps(job: Job, i: nat)
    requires job.Valid()
    ensures job.Addr(i) == (job.base + job.Sum(i)) % BRAM_SIZE
  {
    if i > 0 {
      AddressWraps(job, i - 1);
      WrapBram(job.base + job.Sum(i - 1), job.Size(i - 1));
    }
  }

  lemma WrapBram(x: nat, y: nat)
    ensures (x % BRAM_SIZE + y) % BRAM_SIZE == (x + y) % BRAM_SIZE
  {
  }

  /** Where in the file a queue begins: at the bytes dealt out before, but at the start of the file for
      every streaming queue of a write without loopback, and if there are fewer bytes than queues. */
  lemma CallsStartInFile(job: Job, p: nat, i: nat, k: nat)
    requires job.Valid() && i <= job.n && k < |job.Plan(p, i)|
    ensures var x := job.Plan(p, i)[k];
            if (job.dir == ToDevice && x.queue < job.st && !job.loopback) || job.n > job.input then x.offset == 0
            else x.offset == job.Sum(x.queue)
  {
    var q, j := CallAt(job, p, i, k);
    ShareBounds(job);
    if job.n <= job.input {
      SumOfShares(job, j);
    } else {
      assert job.Offset(j) == 0;
    }
  }

  // ---------------------------------------------------------------- what the carried size is

  predicate Fills(x: Xfer, buff: nat)
    requires buff > 0
  {
    x.size > 0 && x.size % buff == 0
  }

  lemma {:induction false} CarriedFromLast(job: Job, p: nat, i: nat)
    requires job.Valid() && i <= job.n
    ensures var calls := job.Plan(p, i);
            job.Carried(p, i) == if calls == [] then 0 else calls[|calls| - 1].ldSize
    decreases p, i
  {
    if i == 0 && p > 0 {
      CarriedFromLast(job, p - 1, job.n);
    }
  }

  lemma NextLdIs(ld: nat, q: nat, buff: nat)
    requires buff > 0
    ensures NextLd(ld, q, buff) == if q > 0 && q % buff == 0 then ld else q % buff
  {
    if 0 < q < buff {
      DivideIs(q, buff, 0, q);
    }
  }

  lemma LdStep(job: Job, p: nat, i: nat, k: nat)
    requires job.Valid() && i <= job.n && k < |job.Plan(p, i)|
    ensures var calls := job.Plan(p, i);
            calls[k].ldSize == if !Fills(calls[k], job.buff) then calls[k].size % job.buff
                               else if k == 0 then 0
                               else calls[k - 1].ldSize
  {
    var q, j := CallAt(job, p, i, k);
    CarriedFromLast(job, q, j);
    NextLdIs(job.Carried(q, j), job.Size(j), job.buff);
    assert k > 0 ==> job.Plan(p, i)[..k][k - 1] == job.Plan(p, i)[k - 1];
  }

  /** The last-descriptor size of every call, over all queues and passes: the remainder of the latest
      transfer, itself included, that did not fill its descriptors, and zero before the first of these. */
  lemma {:induction false} LdIsLatestRemainder(job: Job, p: nat, i: nat, j: nat, k: nat)
    requires job.Valid() && i <= job.n && j <= k < |job.Plan(p, i)|
    requires forall m :: j < m <= k ==> Fills(job.Plan(p, i)[m], job.buff)
    ensures var calls := job.Plan(p, i);
            && (!Fills(calls[j], job.buff) ==> calls[k].ldSize == calls[j].size % job.buff)
            && (j == 0 && Fills(calls[j], job.buff) ==> calls[k].ldSize == 0)
    decreases k
  {
    LdStep(job, p, i, k);
    if j < k {
      LdIsLatestRemainder(job, p, i, j, k - 1);
    }
  }

  predicate TellRemainders(calls: seq<Xfer>, buff: nat)
    requires buff > 0
  {
    forall k :: 0 <= k < |calls| ==> calls[k].ldSize == calls[k].size % buff
  }

  /** In terms of the calls of a whole run: all of them pass the true remainder iff the condition holds. */
  lemma CallsLdExactIff(job: Job)
    requires job.Valid()
    ensures TellRemainders(job.Plan(job.Passes(), 0), job.buff) <==> LdSafe(job)
  {
    var calls := job.Plan(job.Passes(), 0);
    LdExactIff(job);
    if LdExact(job) {
      forall k | 0 <= k < |calls|
        ensures calls[k].ldSize == calls[k].size % job.buff
      {
        var q, j := CallAt(job, job.Passes(), 0, k);
        assert job.Ld(q, j) == job.Size(j) % job.buff;
      }
    }
    if TellRemainders(calls, job.buff) {
      forall p, i | 0 <= p < job.Passes() && 0 <= i < job.n
        ensures job.Ld(p, i) == job.Size(i) % job.buff
      {
        PlanGrows(job, p, i, job.Passes(), 0);
        assert calls[|job.Plan(p, i)|].ldSize == calls[|job.Plan(p, i)|].size % job.buff;
      }
      assert LdExact(job);
    }
  }
}

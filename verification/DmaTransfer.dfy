/**
 * The DMA commands at work: the argument checks, the pass and queue loops, the transfers they issue
 * and what these do to the device and to the host file.
 */
module DmaTransfer {
  import opened Words
  import opened DmaPlan

  type byte = bv8

  datatype Port = Port(numQueues: nat, stQueues: nat, buffSize: nat)

  datatype Request = Request(portId: nat, queues: nat, size: nat, addr: nat, loops: int)

  datatype Refusal = BadPort | TooManyQueues | NoQueues | OutsideBram | ZeroLengthNeedsStreaming

  /** The argument checks shared by both commands, in the order in which they are made. */
  function Admit(dir: Direction, ports: seq<Port>, req: Request, loopback: bool): Result<Job, Refusal>
  {
    if req.portId >= |ports| then Err(BadPort)
    else
      var port := ports[req.portId];
      if req.queues > port.numQueues then Err(TooManyQueues)
      else if req.queues == 0 then Err(NoQueues)
      else if req.addr + req.size > BRAM_SIZE then Err(OutsideBram)
      else if req.size == 0 && req.queues > port.stQueues then Err(ZeroLengthNeedsStreaming)
      else Ok(Job(dir, req.addr, req.size, req.queues, req.loops, port.buffSize, port.stQueues, loopback))
  }

  /** What a request has to meet. */
  predicate Acceptable(ports: seq<Port>, req: Request)
  {
    && req.portId < |ports|
    && 0 < req.queues <= ports[req.portId].numQueues
    && req.addr + req.size <= 524288
    && (req.size == 0 ==> req.queues <= ports[req.portId].stQueues)
  }

  /** A request is let through iff it meets all of this, with its own figures and those of its port; the
      objection is to the first thing that is wrong with it. */
  lemma AdmitIff(dir: Direction, ports: seq<Port>, req: Request, loopback: bool)
    ensures var a := Admit(dir, ports, req, loopback);
            && (a.Ok? <==> Acceptable(ports, req))
            && (a.Ok? ==>
                  var job, port := a.value, ports[req.portId];
                  && job.dir == dir && job.base == req.addr && job.input == req.size && job.n == req.queues
                  && job.loops == req.loops && job.loopback == loopback
                  && job.buff == port.buffSize && job.st == port.stQueues)
            && (a == Err(BadPort) <==> req.portId >= |ports|)
            && (req.portId < |ports| ==>
                  var tooMany, outside := req.queues > ports[req.portId].numQueues, req.addr + req.size > 524288;
                  && (a == Err(TooManyQueues) <==> tooMany)
                  && (a == Err(NoQueues) <==> !tooMany && req.queues == 0)
                  && (a == Err(OutsideBram) <==> !tooMany && req.queues > 0 && outside)
                  && (a == Err(ZeroLengthNeedsStreaming) <==>
                        !tooMany && req.queues > 0 && !outside
                        && req.size == 0 && req.queues > ports[req.portId].stQueues))
  {
  }

  // ---------------------------------------------------------------- effects on values

  /** Device memory, the bytes streamed to the device and those it has waiting for the host. */
  datatype DeviceState = DeviceState(bram: seq<byte>, h2c: seq<byte>, c2h: seq<byte>)

  function Splice(m: seq<byte>, at: nat, data: seq<byte>): (r: seq<byte>)
    requires at + |data| <= |m|
    ensures |r| == |m|
  {
    m[..at] + data + m[at + |data|..]
  }

  /** A transfer moves exactly its size or is refused. */
  predicate CanSend(d: DeviceState, file: seq<byte>, x: Xfer)
  {
    x.offset + x.size <= |file| && (x.mm ==> x.addr + x.size <= |d.bram|)
  }

  function Send(d: DeviceState, file: seq<byte>, x: Xfer): (r: DeviceState)
    requires CanSend(d, file, x)
  {
    var data := file[x.offset..x.offset + x.size];
    if x.mm then d.(bram := Splice(d.bram, x.addr, data)) else d.(h2c := d.h2c + data)
  }

  function SendAll(d: DeviceState, file: seq<byte>, calls: seq<Xfer>): (r: DeviceState)
    ensures |r.bram| == |d.bram| && r.c2h == d.c2h
  {
    if calls == [] then d
    else
      var r := SendAll(d, file, calls[..|calls| - 1]);
      var x := calls[|calls| - 1];
      if CanSend(r, file, x) then Send(r, file, x) else r
  }

  /** Writing at a position of a file: a gap before it reads as zero, what lies behind it stays. */
  function WriteAt(f: seq<byte>, off: nat, data: seq<byte>): seq<byte>
  {
    if data == [] then f
    else if off > |f| then f + seq(off - |f|, _ => 0) + data
    else f[..off] + data + if off + |data| < |f| then f[off + |data|..] else []
  }

  predicate CanReceive(d: DeviceState, x: Xfer)
  {
    if x.mm then x.addr + x.size <= |d.bram| else x.size <= |d.c2h|
  }

  /** The host side of a receive: the output file and the stream bytes still waiting. */
  datatype Sink = Sink(file: seq<byte>, device: DeviceState)

  function Receive(s: Sink, x: Xfer): Sink
    requires CanReceive(s.device, x)
  {
    if x.mm then
      s.(file := WriteAt(s.file, x.offset, s.device.bram[x.addr..x.addr + x.size]))
    else
      Sink(WriteAt(s.file, x.offset, s.device.c2h[..x.size]),
           s.device.(c2h := s.device.c2h[x.size..]))
  }

  function ReceiveAll(s: Sink, calls: seq<Xfer>): (r: Sink)
    ensures r.device.bram == s.device.bram && r.device.h2c == s.device.h2c
  {
    if calls == [] then s
    else
      var r := ReceiveAll(s, calls[..|calls| - 1]);
      var x := calls[|calls| - 1];
      if CanReceive(r.device, x) then Receive(r, x) else r
  }

  /** No device call made before visit (p, i) fails, and each of those transfers is possible. */
  ghost predicate Unhindered(job: Job, d: DeviceState, file: seq<byte>, fault: Option<Visit>, p: nat, i: nat)
    requires job.Valid()
    decreases p, i
  {
    if i > 0 then
      && Unhindered(job, d, file, fault, p, i - 1)
      && fault != Some(Visit(p, i - 1))
      && CanSend(SendAll(d, file, job.Plan(p, i - 1)), file, job.Transfer(p, i - 1))
    else p > 0 ==> Unhindered(job, d, file, fault, p - 1, job.n)
  }

  ghost predicate ReadUnhindered(job: Job, d: DeviceState, fault: Option<Visit>, p: nat, i: nat)
    requires job.Valid()
    decreases p, i
  {
    if i > 0 then
      && ReadUnhindered(job, d, fault, p, i - 1)
      && fault != Some(Visit(p, i - 1))
      && CanReceive(ReceiveAll(Sink([], d), job.Plan(p, i - 1)).device, job.Transfer(p, i - 1))
    else p > 0 ==> ReadUnhindered(job, d, fault, p - 1, job.n)
  }

  // ---------------------------------------------------------------- what whole plans do

  lemma SendOneMore(d: DeviceState, file: seq<byte>, calls: seq<Xfer>, x: Xfer)
    ensures SendAll(d, file, calls + [x]) ==
            var r := SendAll(d, file, calls); if CanSend(r, file, x) then Send(r, file, x) else r
  {
    assert (calls + [x])[..|calls|] == calls;
  }

  lemma ReceiveOneMore(s: Sink, calls: seq<Xfer>, x: Xfer)
    ensures ReceiveAll(s, calls + [x]) ==
            var r := ReceiveAll(s, calls); if CanReceive(r.device, x) then Receive(r, x) else r
  {
    assert (calls + [x])[..|calls|] == calls;
  }

  /** Bytes of the range covered before a visit: all of them from the second pass on. */
  function Reach(job: Job, p: nat, i: nat): nat
    requires job.Valid()
  {
    if p == 0 then job.Sum(i) else job.input
  }

  /** A memory-mapped write job that the checks let through and that has a byte for every queue. */
  predicate WritesMemory(job: Job, d: DeviceState, file: seq<byte>)
  {
    job.Valid() && job.dir == ToDevice && job.st == 0 && job.n <= job.input
    && job.base + job.input <= BRAM_SIZE == |d.bram| && job.input <= |file|
  }

  lemma SpliceAt(m: seq<byte>, at: nat, data: seq<byte>, k: nat)
    requires at + |data| <= |m| && k < |m|
    ensures Splice(m, at, data)[k] == if at <= k < at + |data| then data[k - at] else m[k]
  {
  }

  /** Copying a further or an already copied piece of the file keeps an image of its bytes from lo on. */
  lemma SpliceAgain(m: seq<byte>, base: nat, file: seq<byte>, lo: nat, done: nat, off: nat, size: nat,
                    to: nat)
    requires lo <= off <= done <= |file| && off + size <= |file| && to == Max(done, off + size)
    requires base + done <= |m| && base + off + size <= |m|
    ensures Splice(Splice(m, base + lo, file[lo..done]), base + off, file[off..off + size])
            == Splice(m, base + lo, file[lo..to])
  {
    var once := Splice(m, base + lo, file[lo..done]);
    var twice := Splice(once, base + off, file[off..off + size]);
    var whole := Splice(m, base + lo, file[lo..to]);
    forall k | 0 <= k < |m|
      ensures twice[k] == whole[k]
    {
      SpliceAt(m, base + lo, file[lo..done], k);
      SpliceAt(once, base + off, file[off..off + size], k);
      SpliceAt(m, base + lo, file[lo..to], k);
    }
    assert twice == whole;
  }

  function Max(a: nat, b: nat): nat { if a < b then b else a }

  /** The device once the first `done` bytes of the file are in place. */
  function Image(job: Job, d: DeviceState, file: seq<byte>, done: nat): DeviceState
    requires WritesMemory(job, d, file) && done <= job.input
  {
    d.(bram := Splice(d.bram, job.base, file[..done]))
  }

  /** A transfer whose place in the file and on the device agree. */
  predicate InStep(x: Xfer, base: nat, from: nat)
  {
    x.mm && x.addr == base + from && x.offset == from
  }

  lemma WritePlace(job: Job, p: nat, i: nat)
    requires job.Valid() && job.dir == ToDevice && job.st == 0 && job.n <= job.input
    requires job.base + job.input <= BRAM_SIZE && i < job.n
    ensures var x := job.Transfer(p, i);
            InStep(x, job.base, job.Sum(i)) && job.Sum(i) + x.size == job.Sum(i + 1) <= job.input
  {
    AddressIsOffset(job, i);
  }

  lemma MapOne(r: DeviceState, file: seq<byte>, x: Xfer, at: nat, from: nat, to: nat)
    requires x.mm && x.addr == at && x.offset == from && from + x.size == to <= |file|
    requires at + x.size <= |r.bram|
    ensures CanSend(r, file, x) && Send(r, file, x) == r.(bram := Splice(r.bram, at, file[from..to]))
  {
  }

  lemma SpliceFront(m: seq<byte>, base: nat, file: seq<byte>, done: nat, off: nat, size: nat, to: nat)
    requires off <= done <= |file| && off + size <= |file| && to == Max(done, off + size)
    requires base + done <= |m| && base + off + size <= |m|
    ensures Splice(Splice(m, base, file[..done]), base + off, file[off..off + size]) == Splice(m, base, file[..to])
  {
    SpliceAgain(m, base, file, 0, done, off, size, to);
    assert file[0..done] == file[..done] && file[0..to] == file[..to];
  }

  lemma SendPiece(job: Job, d: DeviceState, file: seq<byte>, done: nat, x: Xfer, from: nat,
                  to: nat)
    requires WritesMemory(job, d, file) && from <= done <= job.input && to == Max(done, from + x.size)
    requires InStep(x, job.base, from) && from + x.size <= job.input
    ensures CanSend(Image(job, d, file, done), file, x)
    ensures Send(Image(job, d, file, done), file, x) == Image(job, d, file, to)
  {
    MapOne(Image(job, d, file, done), file, x, job.base + from, from, from + x.size);
    SpliceFront(d.bram, job.base, file, done, from, x.size, to);
  }

  lemma SendNext(job: Job, d: DeviceState, file: seq<byte>, calls: seq<Xfer>, done: nat, p: nat, i: nat)
    requires WritesMemory(job, d, file) && i < job.n && job.Sum(i) <= done <= job.input
    requires SendAll(d, file, calls) == Image(job, d, file, done)
    ensures job.Sum(i + 1) <= job.input
    ensures CanSend(Image(job, d, file, done), file, job.Transfer(p, i))
    ensures SendAll(d, file, calls + [job.Transfer(p, i)]) == Image(job, d, file, Max(done, job.Sum(i + 1)))
  {
    WritePlace(job, p, i);
    SendPiece(job, d, file, done, job.Transfer(p, i), job.Sum(i), Max(done, job.Sum(i + 1)));
    SendOneMore(d, file, calls, job.Transfer(p, i));
  }

  lemma SumsWritten(job: Job, i: nat)
    requires job.Valid() && job.n <= job.input && i <= job.n
    ensures job.Sum(i) <= job.input == job.Sum(job.n)
  {
    SumBefore(job, job.n);
    SumMonotone(job, i, job.n);
  }

  lemma PlanNext(job: Job, p: nat, i: nat)
    requires job.Valid()
    ensures job.Plan(p, i + 1) == job.Plan(p, i) + [job.Transfer(p, i)]
    ensures job.Sum(i) <= job.Sum(i + 1) == job.Sum(i) + job.Transfer(p, i).size
  {
  }

  lemma {:induction false} FirstPassWrites(job: Job, d: DeviceState, file: seq<byte>, i: nat)
    requires WritesMemory(job, d, file) && i <= job.n
    ensures job.Sum(i) <= job.input
    ensures SendAll(d, file, job.Plan(0, i)) == Image(job, d, file, job.Sum(i))
  {
    SumsWritten(job, i);
    if i > 0 {
      var k := i - 1;
      FirstPassWrites(job, d, file, k);
      PlanNext(job, 0, k);
      SendNext(job, d, file, job.Plan(0, k), job.Sum(k), 0, k);
    } else {
      assert Image(job, d, file, 0).bram == d.bram;
    }
  }

  lemma {:induction false} LaterPassesRewrite(job: Job, d: DeviceState, file: seq<byte>, p: nat, i: nat)
    requires WritesMemory(job, d, file) && i <= job.n && p > 0
    ensures SendAll(d, file, job.Plan(p, i)) == Image(job, d, file, job.input)
    decreases p, i
  {
    if i > 0 {
      LaterPassesRewrite(job, d, file, p, i - 1);
      SumsWritten(job, i - 1);
      SendNext(job, d, file, job.Plan(p, i - 1), job.input, p, i - 1);
    } else if p > 1 {
      LaterPassesRewrite(job, d, file, p - 1, job.n);
    } else {
      FirstPassWrites(job, d, file, job.n);
      SumsWritten(job, job.n);
    }
  }

  /** Interrupted or not, the visits made so far have put an exact copy of the front of the file at
      the requested address and touched nothing else. */
  lemma PlanWritesImage(job: Job, d: DeviceState, file: seq<byte>, p: nat, i: nat)
    requires WritesMemory(job, d, file) && i <= job.n
    ensures job.Sum(i) <= Reach(job, p, i) <= job.input
    ensures SendAll(d, file, job.Plan(p, i)) == Image(job, d, file, Reach(job, p, i))
  {
    SumsWritten(job, i);
    if p == 0 {
      FirstPassWrites(job, d, file, i);
    } else {
      LaterPassesRewrite(job, d, file, p, i);
    }
  }

  /** No transfer of such a job is impossible. */
  lemma {:induction false} WritesUnhindered(job: Job, d: DeviceState, file: seq<byte>, p: nat, i: nat)
    requires WritesMemory(job, d, file) && i <= job.n
    ensures Unhindered(job, d, file, None, p, i)
    decreases p, i
  {
    if i > 0 {
      WritesUnhindered(job, d, file, p, i - 1);
      PlanWritesImage(job, d, file, p, i - 1);
      SendNext(job, d, file, job.Plan(p, i - 1), Reach(job, p, i - 1), p, i - 1);
    } else if p > 0 {
      WritesUnhindered(job, d, file, p - 1, job.n);
    }
  }

  predicate ReadsMemory(job: Job, d: DeviceState)
  {
    job.Valid() && job.dir == FromDevice && job.st == 0 && job.input > 0
    && job.base + job.input <= BRAM_SIZE == |d.bram|
  }

  /** A queue that moves bytes moves them from the place its file offset names. */
  lemma {:induction false} ReadPlace(job: Job, i: nat)
    requires job.Valid() && job.dir == FromDevice && job.input > 0 && i <= job.n
    requires job.base + job.input <= BRAM_SIZE
    ensures job.Sum(i) <= job.input && job.Sum(job.n) == job.input
    ensures i < job.n ==> job.Addr(i) + job.Size(i) <= BRAM_SIZE
    ensures i < job.n && job.Size(i) > 0 ==>
              job.Offset(i) == job.Sum(i) && job.Addr(i) == job.base + job.Sum(i)
    ensures i < job.n ==> job.Sum(i) + job.Size(i) == job.Sum(i + 1) <= job.input
  {
    SumMonotone(job, i, job.n);
    if i < job.n {
      SumMonotone(job, i + 1, job.n);
    }
    if job.n <= job.input {
      SumBefore(job, job.n);
      if i < job.n {
        AddressIsOffset(job, i);
      }
    } else {
      SumOfSmall(job, job.n);
      NoWrap(job.base);
    }
  }

  lemma SumsRead(job: Job, i: nat)
    requires job.Valid() && job.dir == FromDevice && job.input > 0 && i <= job.n
    requires job.base + job.input <= BRAM_SIZE
    ensures job.Sum(i) <= job.input == job.Sum(job.n)
  {
    ReadPlace(job, i);
  }

  function Copied(job: Job, d: DeviceState, done: nat): Sink
    requires ReadsMemory(job, d) && done <= job.input
  {
    Sink(d.bram[job.base..job.base + done], d)
  }

  /** Appending the next piece, or rewriting an earlier one, keeps a file that copies a front. */
  lemma WriteKeepsFront(w: seq<byte>, done: nat, off: nat, size: nat)
    requires off <= done <= |w| && off + size <= |w|
    ensures WriteAt(w[..done], off, w[off..off + size]) == w[..Max(done, off + size)]
  {
    if size == 0 {
      assert w[off..off + size] == [];
    } else {
      var f, data := w[..done], w[off..off + size];
      assert f[..off] + data == w[..off + size];
      if off + size < done {
        assert w[..off + size] + f[off + size..] == w[..done];
      }
    }
  }

  lemma WriteExtends(m: seq<byte>, base: nat, done: nat, off: nat, size: nat)
    requires off <= done && base + done <= |m| && base + off + size <= |m|
    ensures WriteAt(m[base..base + done], off, m[base + off..base + off + size])
            == m[base..base + Max(done, off + size)]
  {
    var w := m[base..];
    assert w[..done] == m[base..base + done];
    assert w[off..off + size] == m[base + off..base + off + size];
    assert w[..Max(done, off + size)] == m[base..base + Max(done, off + size)];
    WriteKeepsFront(w, done, off, size);
  }

  lemma ReceivePiece(job: Job, d: DeviceState, done: nat, x: Xfer, from: nat, to: nat)
    requires ReadsMemory(job, d) && from <= done <= job.input
    requires to == if x.size > 0 then Max(done, from + x.size) else done
    requires x.mm && x.addr + x.size <= BRAM_SIZE
    requires x.size > 0 ==> InStep(x, job.base, from) && from + x.size <= job.input
    ensures CanReceive(d, x)
    ensures Receive(Copied(job, d, done), x) == Copied(job, d, to)
  {
    if x.size > 0 {
      WriteExtends(d.bram, job.base, done, from, x.size);
    } else {
      assert d.bram[x.addr..x.addr + x.size] == [];
    }
  }

  lemma ReceiveNext(job: Job, d: DeviceState, calls: seq<Xfer>, done: nat, p: nat, i: nat)
    requires ReadsMemory(job, d) && i < job.n && job.Sum(i) <= done <= job.input
    requires ReceiveAll(Sink([], d), calls) == Copied(job, d, done)
    ensures job.Sum(i + 1) <= job.input
    ensures CanReceive(d, job.Transfer(p, i))
    ensures ReceiveAll(Sink([], d), calls + [job.Transfer(p, i)]) == Copied(job, d, Max(done, job.Sum(i + 1)))
  {
    ReadPlace(job, i);
    ReceivePiece(job, d, done, job.Transfer(p, i), job.Sum(i), Max(done, job.Sum(i + 1)));
    ReceiveOneMore(Sink([], d), calls, job.Transfer(p, i));
  }

  /** Reading works for any number of queues, even more queues than bytes. */
  lemma {:induction false} PlanReadsImage(job: Job, d: DeviceState, p: nat, i: nat)
    requires ReadsMemory(job, d) && i <= job.n
    ensures job.Sum(i) <= Reach(job, p, i) <= job.input
    ensures ReceiveAll(Sink([], d), job.Plan(p, i)) == Copied(job, d, Reach(job, p, i))
    ensures ReadUnhindered(job, d, None, p, i)
    decreases p, i
  {
    SumsRead(job, i);
    if i > 0 {
      PlanReadsImage(job, d, p, i - 1);
      ReceiveNext(job, d, job.Plan(p, i - 1), Reach(job, p, i - 1), p, i - 1);
      SumMonotone(job, i - 1, i);
      assert Reach(job, p, i) == Max(Reach(job, p, i - 1), job.Sum(i));
    } else if p > 0 {
      PlanReadsImage(job, d, p - 1, job.n);
      assert Reach(job, p - 1, job.n) == job.input;
    } else {
      assert Copied(job, d, 0).file == [];
    }
  }

  /** Sending a file over n memory-mapped queues and reading the same range back over any m queues
      returns its first input bytes, leaves every other byte of the device alone, and does so for any
      number of passes on either side. */
  lemma RoundTrip(tx: Job, rx: Job, d: DeviceState, file: seq<byte>)
    requires WritesMemory(tx, d, file)
    requires rx.Valid() && rx.dir == FromDevice && rx.st == 0
    requires rx.base == tx.base && rx.input == tx.input
    ensures var sent := SendAll(d, file, tx.Plan(tx.Passes(), 0));
            && sent == d.(bram := Splice(d.bram, tx.base, file[..tx.input]))
            && ReceiveAll(Sink([], sent), rx.Plan(rx.Passes(), 0)) == Sink(file[..tx.input], sent)
  {
    PlanWritesImage(tx, d, file, tx.Passes(), 0);
    var sent := SendAll(d, file, tx.Plan(tx.Passes(), 0));
    PlanReadsImage(rx, sent, rx.Passes(), 0);
  }

  // ---------------------------------------------------------------- ports with both kinds of queues

  /** A write over any mixture of queues that has a byte for each. */
  predicate WritesMixed(job: Job, d: DeviceState, file: seq<byte>)
  {
    job.Valid() && job.dir == ToDevice && job.n <= job.input
    && job.base + job.input <= BRAM_SIZE == |d.bram| && job.input <= |file|
  }

  /** Where the memory-mapped queues begin: they are the last ones. */
  function FirstMapped(job: Job): nat
    requires job.Valid()
  {
    job.Sum(if job.st < job.n then job.st else job.n)
  }

  /** The memory with bytes lo to hi of the file at their places. */
  function Stretch(job: Job, d: DeviceState, file: seq<byte>, lo: nat, hi: nat): seq<byte>
    requires WritesMixed(job, d, file) && lo <= hi <= job.input
  {
    Splice(d.bram, job.base + lo, file[lo..hi])
  }

  lemma MixedPlace(job: Job, d: DeviceState, file: seq<byte>, p: nat, i: nat)
    requires WritesMixed(job, d, file) && i < job.n
    ensures var x := job.Transfer(p, i);
            && x.mm == (i >= job.st) && job.Sum(i) + x.size == job.Sum(i + 1) <= job.input
            && x.offset + x.size <= job.input
            && (x.mm ==> InStep(x, job.base, job.Sum(i)) && FirstMapped(job) <= job.Sum(i))
            && (!x.mm ==> job.Sum(i + 1) <= FirstMapped(job))
  {
    AddressIsOffset(job, i);
    if i >= job.st {
      SumMonotone(job, job.st, i);
    } else {
      SumMonotone(job, i + 1, if job.st < job.n then job.st else job.n);
    }
  }

  lemma MappedPiece(job: Job, d: DeviceState, file: seq<byte>, r: DeviceState, lo: nat, done: nat,
                    x: Xfer, from: nat, to: nat)
    requires WritesMixed(job, d, file) && lo <= from <= done <= job.input && to == Max(done, from + x.size)
    requires InStep(x, job.base, from) && from + x.size <= job.input
    requires r.bram == Stretch(job, d, file, lo, done)
    ensures CanSend(r, file, x)
    ensures Send(r, file, x).bram == Stretch(job, d, file, lo, to)
  {
    MapOne(r, file, x, job.base + from, from, from + x.size);
    SpliceAgain(d.bram, job.base, file, lo, done, from, x.size, to);
  }

  /** One transfer of such a job, from whatever has been streamed before. */
  lemma MixedNext(job: Job, d: DeviceState, file: seq<byte>, calls: seq<Xfer>, done: nat, p: nat, i: nat)
    requires WritesMixed(job, d, file) && i < job.n
    requires FirstMapped(job) <= done <= job.input && (i >= job.st ==> job.Sum(i) <= done)
    requires SendAll(d, file, calls).bram == Stretch(job, d, file, FirstMapped(job), done)
    ensures job.Sum(i + 1) <= job.input
    ensures SendAll(d, file, calls + [job.Transfer(p, i)]).bram ==
            Stretch(job, d, file, FirstMapped(job), Max(done, job.Sum(i + 1)))
    ensures CanSend(SendAll(d, file, calls), file, job.Transfer(p, i))
  {
    MixedPlace(job, d, file, p, i);
    SendOneMore(d, file, calls, job.Transfer(p, i));
    if i >= job.st {
      MappedPiece(job, d, file, SendAll(d, file, calls), FirstMapped(job), done, job.Transfer(p, i), job.Sum(i),
                  Max(done, job.Sum(i + 1)));
    }
  }

  lemma FirstMappedFits(job: Job, i: nat)
    requires job.Valid() && job.n <= job.input && i <= job.n
    ensures job.Sum(i) <= job.input == job.Sum(job.n) && FirstMapped(job) <= job.input
  {
    SumsWritten(job, i);
    SumsWritten(job, if job.st < job.n then job.st else job.n);
  }

  lemma MixedFirstStep(job: Job, d: DeviceState, file: seq<byte>, i: nat)
    requires WritesMixed(job, d, file) && i < job.n
    requires FirstMapped(job) <= Max(FirstMapped(job), job.Sum(i)) <= job.input
    requires SendAll(d, file, job.Plan(0, i)).bram ==
             Stretch(job, d, file, FirstMapped(job), Max(FirstMapped(job), job.Sum(i)))
    ensures job.Sum(i + 1) <= job.input
    ensures SendAll(d, file, job.Plan(0, i + 1)).bram ==
            Stretch(job, d, file, FirstMapped(job), Max(FirstMapped(job), job.Sum(i + 1)))
  {
    PlanNext(job, 0, i);
    MixedNext(job, d, file, job.Plan(0, i), Max(FirstMapped(job), job.Sum(i)), 0, i);
  }

  lemma {:induction false} MixedFirstPass(job: Job, d: DeviceState, file: seq<byte>, i: nat)
    requires WritesMixed(job, d, file) && i <= job.n
    ensures FirstMapped(job) <= Max(FirstMapped(job), job.Sum(i)) <= job.input
    ensures SendAll(d, file, job.Plan(0, i)).bram ==
            Stretch(job, d, file, FirstMapped(job), Max(FirstMapped(job), job.Sum(i)))
  {
    FirstMappedFits(job, i);
    if i > 0 {
      MixedFirstPass(job, d, file, i - 1);
      MixedFirstStep(job, d, file, i - 1);
    } else {
      NothingMapped(job, d, file, FirstMapped(job));
    }
  }

  lemma NothingMapped(job: Job, d: DeviceState, file: seq<byte>, lo: nat)
    requires WritesMixed(job, d, file) && lo <= job.input
    ensures Stretch(job, d, file, lo, lo) == d.bram
  {
    assert file[lo..lo] == [];
  }

  lemma {:induction false} MixedLaterPasses(job: Job, d: DeviceState, file: seq<byte>, p: nat, i: nat)
    requires WritesMixed(job, d, file) && i <= job.n && p > 0
    ensures FirstMapped(job) <= job.input
    ensures SendAll(d, file, job.Plan(p, i)).bram == Stretch(job, d, file, FirstMapped(job), job.input)
    decreases p, i
  {
    FirstMappedFits(job, i);
    if i > 0 {
      MixedLaterPasses(job, d, file, p, i - 1);
      FirstMappedFits(job, i - 1);
      PlanNext(job, p, i - 1);
      MixedNext(job, d, file, job.Plan(p, i - 1), job.input, p, i - 1);
    } else if p > 1 {
      MixedLaterPasses(job, d, file, p - 1, job.n);
    } else {
      MixedFirstPass(job, d, file, job.n);
      FirstMappedFits(job, job.n);
    }
  }

  /** On any port, the memory-mapped queues of a write put exactly their own ranges of the file at their
      places, in the first pass queue by queue and from the second on all of them again; nothing else
      in the memory changes, however many queues stream. */
  lemma MixedWritesOwnRanges(job: Job, d: DeviceState, file: seq<byte>, p: nat, i: nat)
    requires WritesMixed(job, d, file) && i <= job.n
    ensures FirstMapped(job) <= Max(FirstMapped(job), Reach(job, p, i)) <= job.input
    ensures SendAll(d, file, job.Plan(p, i)).bram ==
            Stretch(job, d, file, FirstMapped(job), Max(FirstMapped(job), Reach(job, p, i)))
  {
    FirstMappedFits(job, i);
    if p == 0 {
      MixedFirstPass(job, d, file, i);
    } else {
      MixedLaterPasses(job, d, file, p, i);
    }
  }

  // ---------------------------------------------------------------- streaming queues

  /** A write job over streaming queues only, with the device looping the stream back. */
  predicate Streams(job: Job, file: seq<byte>)
  {
    job.Valid() && job.dir == ToDevice && job.n <= job.st && job.loopback
    && job.n <= job.input <= |file|
  }

  function Streamed(d: DeviceState, file: seq<byte>, done: nat): DeviceState
    requires done <= |file|
  {
    d.(h2c := d.h2c + file[..done])
  }

  lemma SendPlace(job: Job, file: seq<byte>, i: nat)
    requires Streams(job, file) && i < job.n
    ensures var x := job.Transfer(0, i);
            !x.mm && x.offset == job.Sum(i) && job.Sum(i) + x.size == job.Sum(i + 1) <= job.input
  {
    QueueSpan(job, i);
  }

  lemma StreamOne(r: DeviceState, file: seq<byte>, x: Xfer, from: nat, to: nat)
    requires !x.mm && x.offset == from && from + x.size == to <= |file|
    ensures CanSend(r, file, x) && Send(r, file, x) == r.(h2c := r.h2c + file[from..to])
  {
  }

  lemma StreamMore(d: DeviceState, file: seq<byte>, calls: seq<Xfer>, from: nat, x: Xfer, to: nat)
    requires !x.mm && x.offset == from && from + x.size == to <= |file|
    requires SendAll(d, file, calls) == Streamed(d, file, from)
    ensures SendAll(d, file, calls + [x]) == Streamed(d, file, to)
  {
    StreamOne(Streamed(d, file, from), file, x, from, to);
    StreamPiece(d.h2c, file, from, x.size);
  }

  lemma StreamPiece(h: seq<byte>, file: seq<byte>, from: nat, size: nat)
    requires from + size <= |file|
    ensures h + file[..from] + file[from..from + size] == h + file[..from + size]
  {
    assert file[..from + size] == file[..from] + file[from..from + size];
  }

  lemma StreamStep(job: Job, d: DeviceState, file: seq<byte>, i: nat)
    requires Streams(job, file) && i < job.n && job.Sum(i) <= job.input
    requires SendAll(d, file, job.Plan(0, i)) == Streamed(d, file, job.Sum(i))
    ensures job.Sum(i + 1) <= job.input
    ensures SendAll(d, file, job.Plan(0, i + 1)) == Streamed(d, file, job.Sum(i + 1))
  {
    PlanNext(job, 0, i);
    SendPlace(job, file, i);
    StreamMore(d, file, job.Plan(0, i), job.Sum(i), job.Transfer(0, i), job.Sum(i + 1));
  }

  /** In its first pass such a job streams the file in order and leaves the memory alone. */
  lemma {:induction false} StreamsInOrder(job: Job, d: DeviceState, file: seq<byte>, i: nat)
    requires Streams(job, file) && i <= job.n
    ensures job.Sum(i) <= job.input
    ensures SendAll(d, file, job.Plan(0, i)) == Streamed(d, file, job.Sum(i))
  {
    if i > 0 {
      StreamsInOrder(job, d, file, i - 1);
      StreamStep(job, d, file, i - 1);
    } else {
      assert d.h2c + [] == d.h2c;
    }
  }

  /** A read job over streaming queues only, for no more bytes than are waiting. */
  predicate ReadsStream(job: Job, d: DeviceState)
  {
    job.Valid() && job.dir == FromDevice && job.n <= job.st
    && 0 < job.input <= |d.c2h| && job.base + job.input <= BRAM_SIZE
  }

  lemma StreamPlace(job: Job, d: DeviceState, i: nat)
    requires ReadsStream(job, d) && i < job.n
    ensures var x := job.Transfer(0, i);
            !x.mm && job.Sum(i) + x.size == job.Sum(i + 1) <= job.input
            && (x.size > 0 ==> x.offset == job.Sum(i))
  {
    ReadPlace(job, i);
  }

  function Taken(d: DeviceState, done: nat): Sink
    requires done <= |d.c2h|
  {
    Sink(d.c2h[..done], d.(c2h := d.c2h[done..]))
  }

  /** The transfers to the first i queues have put the front of the waiting bytes into the file, in order. */
  ghost predicate TookFront(job: Job, d: DeviceState, i: nat)
    requires ReadsStream(job, d)
  {
    job.Sum(i) <= job.input && ReceiveAll(Sink([], d), job.Plan(0, i)) == Taken(d, job.Sum(i))
  }

  lemma NothingTaken(d: DeviceState)
    ensures Taken(d, 0) == Sink([], d)
  {
    assert d.c2h[0..] == d.c2h;
  }

  lemma StreamReadStep(job: Job, d: DeviceState, i: nat)
    requires ReadsStream(job, d) && i < job.n && TookFront(job, d, i)
    ensures TookFront(job, d, i + 1)
  {
    PlanNext(job, 0, i);
    StreamPlace(job, d, i);
    StreamNext(d, job.Plan(0, i), job.Sum(i), job.Transfer(0, i), job.Sum(i + 1));
  }

  /** A read job over streaming queues takes the waiting bytes in order, over any number of queues. */
  lemma {:induction false} StreamReadsInOrder(job: Job, d: DeviceState, i: nat)
    requires ReadsStream(job, d) && i <= job.n
    ensures TookFront(job, d, i)
  {
    if i > 0 {
      StreamReadsInOrder(job, d, i - 1);
      StreamReadStep(job, d, i - 1);
    } else {
      NothingTaken(d);
    }
  }

  lemma StreamNext(d: DeviceState, calls: seq<Xfer>, from: nat, x: Xfer, to: nat)
    requires !x.mm && from + x.size == to <= |d.c2h| && (x.size > 0 ==> x.offset == from)
    requires ReceiveAll(Sink([], d), calls) == Taken(d, from)
    ensures ReceiveAll(Sink([], d), calls + [x]) == Taken(d, to)
  {
    ReceiveOneMore(Sink([], d), calls, x);
    TakeNext(d, from, x);
  }

  lemma TakeNext(d: DeviceState, from: nat, x: Xfer)
    requires !x.mm && from + x.size <= |d.c2h| && (x.size > 0 ==> x.offset == from)
    ensures CanReceive(Taken(d, from).device, x)
    ensures Receive(Taken(d, from), x) == Taken(d, from + x.size)
  {
    var w := d.c2h;
    assert w[from..][..x.size] == w[from..from + x.size];
    assert w[from..][x.size..] == w[from + x.size..];
    WriteKeepsFront(w, from, from, x.size);
    if x.size == 0 {
      assert w[from..from + x.size] == [];
    }
  }

  /** Through the loopback of the streaming queues a file also comes back byte for byte, whatever the
      two queue counts. */
  lemma StreamRoundTrip(tx: Job, rx: Job, d: DeviceState, file: seq<byte>)
    requires Streams(tx, file) && tx.Passes() == 1 && d.h2c == []
    requires rx.Valid() && rx.dir == FromDevice && rx.n <= rx.st && rx.Passes() == 1
    requires rx.input == tx.input && rx.base + rx.input <= BRAM_SIZE
    ensures var sent := SendAll(d, file, tx.Plan(1, 0));
            var back := ReceiveAll(Sink([], sent.(c2h := sent.h2c)), rx.Plan(1, 0));
            back.file == file[..tx.input] && back.device.c2h == [] && back.device.bram == d.bram
  {
    StreamsInOrder(tx, d, file, tx.n);
    SumsWritten(tx, tx.n);
    var sent := SendAll(d, file, tx.Plan(1, 0));
    assert sent.h2c == file[..tx.input];
    StreamReadsInOrder(rx, sent.(c2h := sent.h2c), rx.n);
    SumsRead(rx, rx.n);
  }

  /** All bytes sent before a visit if every queue starts at the front of the file. */
  function Fronts(job: Job, file: seq<byte>, p: nat, i: nat): seq<byte>
    requires job.Valid() && forall q :: 0 <= q < job.n ==> job.Size(q) <= |file|
    requires i <= job.n
    decreases p, i
  {
    if i > 0 then Fronts(job, file, p, i - 1) + file[0..job.Size(i - 1)]
    else if p > 0 then Fronts(job, file, p - 1, job.n)
    else []
  }

  /** Without loopback every streaming queue, in every pass, sends the front of the file again, as many
      bytes of it as its share has; the memory is left alone. */
  lemma {:induction false} StreamsSendFronts(job: Job, d: DeviceState, file: seq<byte>, p: nat, i: nat)
    requires job.Valid() && job.dir == ToDevice && job.n <= job.st && !job.loopback && i <= job.n
    requires forall q :: 0 <= q < job.n ==> job.Size(q) <= |file|
    ensures SendAll(d, file, job.Plan(p, i)) == d.(h2c := d.h2c + Fronts(job, file, p, i))
    decreases p, i
  {
    if i > 0 {
      StreamsSendFronts(job, d, file, p, i - 1);
      var before, x := Fronts(job, file, p, i - 1), job.Transfer(p, i - 1);
      SendOneMore(d, file, job.Plan(p, i - 1), x);
      StreamOne(d.(h2c := d.h2c + before), file, x, 0, x.size);
      Associative(d.h2c, before, file[0..x.size]);
    } else if p > 0 {
      StreamsSendFronts(job, d, file, p - 1, job.n);
    } else {
      assert d.h2c + [] == d.h2c;
    }
  }

  lemma Associative(a: seq<byte>, b: seq<byte>, c: seq<byte>)
    ensures a + b + c == a + (b + c)
  {
  }

  // ---------------------------------------------------------------- the commands

  datatype Outcome = Refused(why: Refusal) | Aborted(at: Visit) | Completed

  /** The device behind the driver. */
  class Qdma {
    const bram: array<byte>
    var h2c: seq<byte>
    var c2h: seq<byte>

    constructor (waiting: seq<byte>)
      ensures fresh(bram) && bram.Length == BRAM_SIZE && h2c == [] && c2h == waiting
    {
      bram := new byte[BRAM_SIZE];
      h2c, c2h := [], waiting;
    }

    ghost function State(): DeviceState
      reads this, bram
    {
      DeviceState(bram[..], h2c, c2h)
    }

    method Xmit(file: seq<byte>, x: Xfer) returns (ok: bool)
      modifies this, bram
      ensures ok == CanSend(old(State()), file, x)
      ensures State() == if ok then Send(old(State()), file, x) else old(State())
    {
      ok := x.offset + x.size <= |file| && (x.mm ==> x.addr + x.size <= bram.Length);
      if ok {
        if x.mm {
          forall k | 0 <= k < x.size {
            bram[x.addr + k] := file[x.offset + k];
          }
        } else {
          h2c := h2c + file[x.offset..x.offset + x.size];
        }
      }
    }

    method Recv(out: seq<byte>, x: Xfer) returns (ok: bool, file: seq<byte>)
      modifies this`c2h
      ensures ok == CanReceive(old(State()), x)
      ensures Sink(file, State()) ==
              if ok then Receive(Sink(out, old(State())), x) else Sink(out, old(State()))
    {
      ok, file := if x.mm then x.addr + x.size <= bram.Length else x.size <= |c2h|, out;
      if ok {
        if x.mm {
          file := WriteAt(out, x.offset, bram[x.addr..x.addr + x.size]);
        } else {
          file := WriteAt(out, x.offset, c2h[..x.size]);
          c2h := c2h[x.size..];
        }
      }
    }
  }

  /** What a job has left to deal out when it comes to queue i. */
  ghost function Left(job: Job, i: nat): int
    requires job.Valid()
  {
    if i == 0 then job.input
    else if job.n <= job.input then job.input - job.Sum(i)
    else 0
  }

  /** The running total meets the size of the last share exactly at the queue that takes the rest. */
  lemma LeftMeetsLast(job: Job, i: nat)
    requires job.Valid() && i < job.n && job.n <= job.input
    ensures Left(job, i) == job.input - job.Sum(i) > 0
    ensures Left(job, i) == job.Rest() + job.Share() <==> i == job.n - 1
    ensures Left(job, i + 1) == Left(job, i) - job.Size(i)
  {
    ShareBounds(job);
    SumBefore(job, i);
    SumBefore(job, i + 1);
    SharesLeft(job.Share(), job.n, i);
  }

  /** The shares from queue i on, apart from its own, amount to nothing only for the last queue. */
  lemma SharesLeft(share: nat, n: nat, i: nat)
    requires share > 0 && i < n
    ensures share * n >= share * i + share
    ensures share * n == share * i + share <==> i == n - 1
  {
    var above := n - 1 - i;
    assert share * n == share * (above + 1 + i) == share * above + share + share * i;
    if above > 0 {
      NonzeroMultiple(share, above);
    }
  }

  /** Descriptor count and last-descriptor size of a transfer of q bytes. */
  method Descriptors(q: nat, buff: nat, ld: nat) returns (numDesc: nat, ldSize: nat)
    requires buff > 0
    ensures numDesc == DescCount(q, buff)
    ensures ldSize == NextLd(ld, q, buff)
  {
    DescriptorsCover(q, buff);
    ldSize := ld;
    if q >= buff {
      if q % buff != 0 {
        numDesc, ldSize := q / buff + 1, q % buff;
      } else {
        numDesc := q / buff;
      }
    } else {
      numDesc, ldSize := 1, q % buff;
      if q > 0 {
        DivideIs(q, buff, 0, q);
      }
    }
  }

  /** The running values a pass keeps between visits, on entry to queue i. */
  ghost predicate Running(job: Job, i: nat, total: int, addr: nat, q: nat)
    requires job.Valid()
  {
    && total == Left(job, i)
    && if i == 0 then addr == job.base && q == 0 else addr == job.Addr(i - 1) && q == job.Size(i - 1)
  }

  /** The address and the share of queue i of a write job, from the running values. */
  method NextSend(job: Job, i: nat, total0: int, addr0: nat, q0: nat)
    returns (total: int, addr: nat, q: nat)
    requires job.Valid() && job.dir == ToDevice && i < job.n && Running(job, i, total0, addr0, q0)
    ensures addr == job.Addr(i) && q == job.Size(i) && Running(job, i + 1, total, addr, q)
  {
    var size, rSize := job.input / job.n, 0;
    if job.input % job.n != 0 {
      rSize := job.input % job.n;
    }
    if job.n <= job.input {
      LeftMeetsLast(job, i);
    } else {
      ShareBounds(job);
    }
    addr := addr0 + q0;
    addr := addr % BRAM_SIZE;
    if total0 == 0 {
      total, q := total0, job.buff;
    } else if total0 == rSize + size {
      q, total := total0, 0;
    } else {
      q, total := size, total0 - size;
    }
  }

  /** The same for a read job, which has no filler for queues that come after the last byte. */
  method NextReceive(job: Job, i: nat, total0: int, addr0: nat, q0: nat)
    returns (total: int, addr: nat, q: nat)
    requires job.Valid() && job.dir == FromDevice && i < job.n && Running(job, i, total0, addr0, q0)
    ensures addr == job.Addr(i) && q == job.Size(i) && Running(job, i + 1, total, addr, q)
  {
    var size, rSize := job.input / job.n, 0;
    if job.input % job.n != 0 {
      rSize := job.input % job.n;
    }
    if job.n <= job.input {
      LeftMeetsLast(job, i);
    } else {
      ShareBounds(job);
    }
    addr := addr0 + q0;
    addr := addr % BRAM_SIZE;
    if total0 == rSize + size {
      q, total := total0, 0;
    } else {
      q, total := size, total0 - size;
    }
  }

  /** What a visit hands to the driver, once its address and share are known. */
  method Arguments(job: Job, loop: nat, i: nat, addr: nat, q: nat, ld: nat) returns (x: Xfer)
    requires job.Valid() && i < job.n && addr == job.Addr(i) && q == job.Size(i) && ld == job.Carried(loop, i)
    ensures x == job.Transfer(loop, i) && x.ldSize == job.Carried(loop, i + 1)
  {
    var numDesc, ldSize := Descriptors(q, job.buff, ld);
    var offset := job.Share() * i;
    if job.dir == ToDevice && i < job.st && !job.loopback {
      offset := 0;
    }
    x := Xfer(i, i >= job.st, addr, offset, q, ldSize, numDesc, job.dir == ToDevice && job.input == 0);
  }

  /** A write job stands before visit (p, i) with nothing having gone wrong. */
  ghost predicate SendingAt(job: Job, d0: DeviceState, file: seq<byte>, fault: Option<Visit>, p: nat, i: nat,
                            calls: seq<Xfer>, d: DeviceState)
    requires job.Valid()
  {
    calls == job.Plan(p, i) && d == SendAll(d0, file, calls) && Unhindered(job, d0, file, fault, p, i)
  }

  /** A write job ends early at a visit that a call fails or that cannot be carried out. */
  ghost predicate SendingStops(job: Job, d0: DeviceState, file: seq<byte>, fault: Option<Visit>, at: Visit,
                               calls: seq<Xfer>, d: DeviceState)
    requires job.Valid()
  {
    && at.pass < job.Passes() && at.queue < job.n
    && SendingAt(job, d0, file, fault, at.pass, at.queue, calls, d)
    && (fault == Some(at) || !CanSend(d, file, job.Transfer(at.pass, at.queue)))
  }

  /** A driver error cannot have gone unnoticed. */
  lemma {:induction false} SendingNotices(job: Job, d0: DeviceState, file: seq<byte>, fault: Visit, p: nat, i: nat)
    requires job.Valid() && i <= job.n && fault.queue < job.n
    requires Unhindered(job, d0, file, Some(fault), p, i)
    ensures !Before(fault.pass, fault.queue, p, i)
    decreases p, i
  {
    if i > 0 {
      SendingNotices(job, d0, file, fault, p, i - 1);
    } else if p > 0 {
      SendingNotices(job, d0, file, fault, p - 1, job.n);
    }
  }

  lemma {:induction false} ReceivingNotices(job: Job, d0: DeviceState, fault: Visit, p: nat, i: nat)
    requires job.Valid() && i <= job.n && fault.queue < job.n
    requires ReadUnhindered(job, d0, Some(fault), p, i)
    ensures !Before(fault.pass, fault.queue, p, i)
    decreases p, i
  {
    if i > 0 {
      ReceivingNotices(job, d0, fault, p, i - 1);
    } else if p > 0 {
      ReceivingNotices(job, d0, fault, p - 1, job.n);
    }
  }

  /** How a command ends and after how many calls: refused without any, complete after all passes over all
      queues, or cut short at the first visit that goes wrong. */
  predicate Accounted(ports: seq<Port>, req: Request, fault: Option<Visit>, outcome: Outcome, made: nat)
  {
    var passes := if req.loops > 1 then req.loops else 1;
    match outcome
    case Refused(_) => !Acceptable(ports, req) && made == 0
    case Completed =>
      && Acceptable(ports, req) && made == passes * req.queues
      && (fault.Some? ==> fault.value.pass >= passes || fault.value.queue >= req.queues)
    case Aborted(at) =>
      && Acceptable(ports, req) && at.pass < passes && at.queue < req.queues
      && made == at.pass * req.queues + at.queue
      && (fault.Some? && fault.value.queue < req.queues ==>
            !Before(fault.value.pass, fault.value.queue, at.pass, at.queue))
  }

  /** A write command cut short by a driver error has put an exact front of the file in place, all of it
      from the second pass on, and has touched nothing else; only a driver error can cut it short. */
  lemma CutShortLeavesFront(job: Job, d0: DeviceState, file: seq<byte>, fault: Option<Visit>, at: Visit,
                            calls: seq<Xfer>, d: DeviceState)
    requires WritesMemory(job, d0, file) && SendingStops(job, d0, file, fault, at, calls, d)
    ensures fault == Some(at)
    ensures var done := Reach(job, at.pass, at.queue);
            done <= job.input && d.bram == Splice(d0.bram, job.base, file[..done])
            && d.h2c == d0.h2c && d.c2h == d0.c2h
  {
    PlanWritesImage(job, d0, file, at.pass, at.queue);
    SendNext(job, d0, file, calls, Reach(job, at.pass, at.queue), at.pass, at.queue);
  }

  lemma SendingAdvances(job: Job, d0: DeviceState, file: seq<byte>, fault: Option<Visit>, p: nat, i: nat,
                        calls: seq<Xfer>, d: DeviceState)
    requires job.Valid() && i < job.n
    requires SendingAt(job, d0, file, fault, p, i, calls, d)
    requires fault != Some(Visit(p, i)) && CanSend(d, file, job.Transfer(p, i))
    ensures SendingAt(job, d0, file, fault, p, i + 1, calls + [job.Transfer(p, i)],
                      Send(d, file, job.Transfer(p, i)))
  {
    SendOneMore(d0, file, calls, job.Transfer(p, i));
  }

  /** One pass over the queues of a write job. */
  method SendPass(job: Job, file: seq<byte>, dev: Qdma, fault: Option<Visit>, loop: nat, carried: nat,
                  before: seq<Xfer>, ghost d0: DeviceState)
    returns (stopped: Option<Visit>, ldSize: nat, calls: seq<Xfer>)
    requires job.Valid() && job.dir == ToDevice && loop < job.Passes() && carried == job.Carried(loop, 0)
    requires SendingAt(job, d0, file, fault, loop, 0, before, dev.State())
    modifies dev, dev.bram
    ensures stopped.None? ==>
              && ldSize == job.Carried(loop, job.n)
              && SendingAt(job, d0, file, fault, loop, job.n, calls, dev.State())
    ensures stopped.Some? ==> SendingStops(job, d0, file, fault, stopped.value, calls, dev.State())
  {
    var total, addr, q, i := job.input, job.base, 0, 0;
    ldSize, calls := carried, before;
    while i < job.n
      invariant 0 <= i <= job.n
      invariant Running(job, i, total, addr, q) && ldSize == job.Carried(loop, i)
      invariant SendingAt(job, d0, file, fault, loop, i, calls, dev.State())
    {
      total, addr, q := NextSend(job, i, total, addr, q);
      var x := Arguments(job, loop, i, addr, q, ldSize);
      if fault == Some(Visit(loop, i)) {
        return Some(Visit(loop, i)), ldSize, calls;
      }
      ghost var d := dev.State();
      var ok := dev.Xmit(file, x);
      if !ok {
        return Some(Visit(loop, i)), ldSize, calls;
      }
      SendingAdvances(job, d0, file, fault, loop, i, calls, d);
      ldSize, calls, i := x.ldSize, calls + [x], i + 1;
    }
    stopped := None;
  }

  /** dma_to_device: the checks, then the do-while over passes.  `fault` is the visit, if any, at
      which one of the driver or file calls reports an error. */
  method DmaToDevice(ports: seq<Port>, req: Request, loopback: bool, file: seq<byte>, dev: Qdma,
                     fault: Option<Visit>)
    returns (outcome: Outcome, calls: seq<Xfer>)
    requires forall p | p in ports :: p.buffSize > 0
    modifies dev, dev.bram
    ensures match Admit(ToDevice, ports, req, loopback)
            case Err(why) => outcome == Refused(why) && calls == [] && dev.State() == old(dev.State())
            case Ok(job) =>
              && job.Valid()
              && match outcome
                 case Refused(_) => false
                 case Completed =>
                   SendingAt(job, old(dev.State()), file, fault, job.Passes(), 0, calls, dev.State())
                 case Aborted(at) =>
                   SendingStops(job, old(dev.State()), file, fault, at, calls, dev.State())
    ensures Accounted(ports, req, fault, outcome, |calls|)
  {
    calls := [];
    AdmitIff(ToDevice, ports, req, loopback);
    var admitted := Admit(ToDevice, ports, req, loopback);
    if admitted.Err? {
      return Refused(admitted.error), calls;
    }
    var job := admitted.value;
    var ldSize, loop := 0, 0;
    ghost var d0 := dev.State();
    while loop == 0 || loop < job.loops
      invariant 0 <= loop <= job.Passes() && ldSize == job.Carried(loop, 0)
      invariant SendingAt(job, d0, file, fault, loop, 0, calls, dev.State())
      decreases job.Passes() - loop
    {
      var stopped;
      stopped, ldSize, calls := SendPass(job, file, dev, fault, loop, ldSize, calls, d0);
      if stopped.Some? {
        PlanLength(job, stopped.value.pass, stopped.value.queue);
        if fault.Some? && fault.value.queue < job.n {
          SendingNotices(job, d0, file, fault.value, stopped.value.pass, stopped.value.queue);
        }
        return Aborted(stopped.value), calls;
      }
      loop := loop + 1;
    }
    PlanLength(job, loop, 0);
    if fault.Some? && fault.value.queue < job.n {
      SendingNotices(job, d0, file, fault.value, loop, 0);
    }
    outcome := Completed;
  }

  /** A read job stands before visit (p, i) with nothing having gone wrong. */
  ghost predicate ReceivingAt(job: Job, d0: DeviceState, fault: Option<Visit>, p: nat, i: nat,
                              calls: seq<Xfer>, s: Sink)
    requires job.Valid()
  {
    calls == job.Plan(p, i) && s == ReceiveAll(Sink([], d0), calls) && ReadUnhindered(job, d0, fault, p, i)
  }

  ghost predicate ReceivingStops(job: Job, d0: DeviceState, fault: Option<Visit>, at: Visit,
                                 calls: seq<Xfer>, s: Sink)
    requires job.Valid()
  {
    && at.pass < job.Passes() && at.queue < job.n
    && ReceivingAt(job, d0, fault, at.pass, at.queue, calls, s)
    && (fault == Some(at) || !CanReceive(s.device, job.Transfer(at.pass, at.queue)))
  }

  lemma ReceivingAdvances(job: Job, d0: DeviceState, fault: Option<Visit>, p: nat, i: nat,
                          calls: seq<Xfer>, s: Sink)
    requires job.Valid() && i < job.n
    requires ReceivingAt(job, d0, fault, p, i, calls, s)
    requires fault != Some(Visit(p, i)) && CanReceive(s.device, job.Transfer(p, i))
    ensures ReceivingAt(job, d0, fault, p, i + 1, calls + [job.Transfer(p, i)], Receive(s, job.Transfer(p, i)))
  {
    ReceiveOneMore(Sink([], d0), calls, job.Transfer(p, i));
  }

  /** One pass over the queues of a read job, which extends the output file. */
  method ReceivePass(job: Job, out: seq<byte>, dev: Qdma, fault: Option<Visit>, loop: nat, carried: nat,
                     before: seq<Xfer>, ghost d0: DeviceState)
    returns (stopped: Option<Visit>, ldSize: nat, calls: seq<Xfer>, file: seq<byte>)
    requires job.Valid() && job.dir == FromDevice && loop < job.Passes() && carried == job.Carried(loop, 0)
    requires ReceivingAt(job, d0, fault, loop, 0, before, Sink(out, dev.State()))
    modifies dev
    ensures stopped.None? ==>
              && ldSize == job.Carried(loop, job.n)
              && ReceivingAt(job, d0, fault, loop, job.n, calls, Sink(file, dev.State()))
    ensures stopped.Some? ==> ReceivingStops(job, d0, fault, stopped.value, calls, Sink(file, dev.State()))
  {
    var total, addr, q, i := job.input, job.base, 0, 0;
    ldSize, calls, file := carried, before, out;
    while i < job.n
      invariant 0 <= i <= job.n
      invariant Running(job, i, total, addr, q) && ldSize == job.Carried(loop, i)
      invariant ReceivingAt(job, d0, fault, loop, i, calls, Sink(file, dev.State()))
    {
      total, addr, q := NextReceive(job, i, total, addr, q);
      var x := Arguments(job, loop, i, addr, q, ldSize);
      if fault == Some(Visit(loop, i)) {
        return Some(Visit(loop, i)), ldSize, calls, file;
      }
      ghost var s := Sink(file, dev.State());
      var ok;
      ok, file := dev.Recv(file, x);
      if !ok {
        return Some(Visit(loop, i)), ldSize, calls, file;
      }
      ReceivingAdvances(job, d0, fault, loop, i, calls, s);
      ldSize, calls, i := x.ldSize, calls + [x], i + 1;
    }
    stopped := None;
  }

  /** dma_from_device, into a file that the command has just truncated. */
  method DmaFromDevice(ports: seq<Port>, req: Request, dev: Qdma, fault: Option<Visit>)
    returns (outcome: Outcome, calls: seq<Xfer>, file: seq<byte>)
    requires forall p | p in ports :: p.buffSize > 0
    modifies dev
    ensures match Admit(FromDevice, ports, req, false)
            case Err(why) =>
              outcome == Refused(why) && calls == [] && file == [] && dev.State() == old(dev.State())
            case Ok(job) =>
              && job.Valid()
              && match outcome
                 case Refused(_) => false
                 case Completed =>
                   ReceivingAt(job, old(dev.State()), fault, job.Passes(), 0, calls, Sink(file, dev.State()))
                 case Aborted(at) =>
                   ReceivingStops(job, old(dev.State()), fault, at, calls, Sink(file, dev.State()))
    ensures Accounted(ports, req, fault, outcome, |calls|)
  {
    calls, file := [], [];
    AdmitIff(FromDevice, ports, req, false);
    var admitted := Admit(FromDevice, ports, req, false);
    if admitted.Err? {
      return Refused(admitted.error), calls, file;
    }
    var job := admitted.value;
    var ldSize, loop := 0, 0;
    ghost var d0 := dev.State();
    while loop == 0 || loop < job.loops
      invariant 0 <= loop <= job.Passes() && ldSize == job.Carried(loop, 0)
      invariant ReceivingAt(job, d0, fault, loop, 0, calls, Sink(file, dev.State()))
      decreases job.Passes() - loop
    {
      var stopped;
      stopped, ldSize, calls, file := ReceivePass(job, file, dev, fault, loop, ldSize, calls, d0);
      if stopped.Some? {
        PlanLength(job, stopped.value.pass, stopped.value.queue);
        if fault.Some? && fault.value.queue < job.n {
          ReceivingNotices(job, d0, fault.value, stopped.value.pass, stopped.value.queue);
        }
        return Aborted(stopped.value), calls, file;
      }
      loop := loop + 1;
    }
    PlanLength(job, loop, 0);
    if fault.Some? && fault.value.queue < job.n {
      ReceivingNotices(job, d0, fault.value, loop, 0);
    }
    outcome := Completed;
  }

  /** Both commands in sequence, on requests that name the same range: if the first has a byte for
      each of its queues and the file is long enough, neither can be refused or stopped by the
      transfers themselves, and the host gets its bytes back. */
  method WriteThenRead(ports: seq<Port>, tx: Request, rx: Request, file: seq<byte>, dev: Qdma)
    returns (back: seq<byte>)
    requires forall p | p in ports :: p.buffSize > 0 && p.stQueues == 0
    requires tx.portId < |ports| && 0 < tx.queues <= ports[tx.portId].numQueues
    requires rx.portId < |ports| && 0 < rx.queues <= ports[rx.portId].numQueues
    requires tx.addr == rx.addr && tx.size == rx.size && tx.addr + tx.size <= 524288
    requires tx.queues <= tx.size <= |file|
    requires dev.bram.Length == BRAM_SIZE
    modifies dev, dev.bram
    ensures back == file[..tx.size]
    ensures dev.bram[..] == Splice(old(dev.bram[..]), tx.addr, file[..tx.size])
    ensures dev.h2c == old(dev.h2c) && dev.c2h == old(dev.c2h)
  {
    AdmitIff(ToDevice, ports, tx, false);
    AdmitIff(FromDevice, ports, rx, false);
    ghost var d0 := dev.State();
    ghost var w, r := Admit(ToDevice, ports, tx, false).value, Admit(FromDevice, ports, rx, false).value;
    var outcome, calls := DmaToDevice(ports, tx, false, file, dev, None);
    if outcome.Aborted? {
      WritesUnhindered(w, d0, file, outcome.at.pass, outcome.at.queue + 1);
    }
    RoundTrip(w, r, d0, file);
    ghost var d1 := dev.State();
    outcome, calls, back := DmaFromDevice(ports, rx, dev, None);
    if outcome.Aborted? {
      PlanReadsImage(r, d1, outcome.at.pass, outcome.at.queue + 1);
    }
  }
}

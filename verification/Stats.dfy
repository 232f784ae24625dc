/**
 * Software time: TSC gaps reported in nanoseconds, and per-hop latencies computed from the
 * (nb_sync, curr_tick) pairs that the packets bring back.
 */
module Stats {
  import opened Words

  const NS_PER_S: nat := 1_000_000_000
  const LEN_NB_SYNC_NS: nat := 1000
  const LEN_TIME_TICK_NS: nat := 4

  // ---------------------------------------------------------------- TSC gaps

  /** uint64 arithmetic throughout: the subtraction and the product may both wrap. */
  function TscDeltaNs(oldTime: u64, currTime: u64, hz: u64): u64
    requires hz > 0
  {
    Wrap64(Wrap64(currTime - oldTime) * NS_PER_S) / hz
  }

  /** The counter as read `t` cycles after it started. */
  function Tsc(t: nat): u64 { Wrap64(t) }

  /** The counter may wrap between the readings without disturbing their difference. */
  lemma GapSurvivesWrap(t0: nat, t1: nat)
    requires t0 <= t1 && t1 - t0 < TWO64
    ensures Wrap64(Tsc(t1) - Tsc(t0)) == t1 - t0
  {
  }

  lemma DivGap(a: nat, b: nat, hz: nat)
    requires 0 < hz <= b - a
    ensures a / hz < b / hz
  {
    assert a + hz == hz * (a / hz + 1) + a % hz;
    DivideIs(a + hz, hz, a / hz + 1, a % hz);
    DivMonotone(a + hz, b, hz);
  }

  /** One report is the exact gap rounded down precisely when the gap is at most 18446744073 cycles;
      beyond that the product wraps and the report is too small. */
  lemma DeltaExactIff(t0: nat, t1: nat, hz: u64)
    requires hz > 0 && t0 <= t1 && t1 - t0 < TWO64
    ensures TscDeltaNs(Tsc(t0), Tsc(t1), hz) == (t1 - t0) * NS_PER_S / hz <==> t1 - t0 <= 18446744073
    ensures TscDeltaNs(Tsc(t0), Tsc(t1), hz) <= (t1 - t0) * NS_PER_S / hz
  {
    var gap := t1 - t0;
    var x := gap * NS_PER_S;
    assert TscDeltaNs(Tsc(t0), Tsc(t1), hz) == Wrap64(x) / hz by {
      GapSurvivesWrap(t0, t1);
    }
    WrapFits(x);
    if gap > 18446744073 {
      DivGap(Wrap64(x), x, hz);
    }
  }

  /** The sum of what the producer reports for a series of true reading times. */
  function Reported(times: seq<nat>, hz: u64): nat
    requires hz > 0
  {
    if |times| < 2 then 0
    else
      var k := |times| - 1;
      Reported(times[..k], hz) + TscDeltaNs(Tsc(times[k - 1]), Tsc(times[k]), hz)
  }

  predicate ShortGaps(times: seq<nat>)
  {
    forall i {:trigger times[i]} :: 0 < i < |times| ==> times[i - 1] <= times[i] <= times[i - 1] + 18446744073
  }

  /** Rounding never accumulates upwards: m reports together stay at or below the whole interval and
      fall short of it by less than m nanoseconds. */
  lemma {:induction false} RoundingDrift(times: seq<nat>, hz: u64)
    requires hz > 0 && |times| >= 1 && ShortGaps(times)
    ensures var m, sum, whole := |times| - 1, Reported(times, hz), (times[|times| - 1] - times[0]) * NS_PER_S;
            && times[0] <= times[|times| - 1]
            && sum * hz <= whole
            && (m > 0 ==> whole < (sum + m) * hz)
  {
    var k := |times| - 1;
    if k > 0 {
      var p := times[..k];
      RoundingDrift(p, hz);
      assert p[0] == times[0] && p[k - 1] == times[k - 1];
      var whole, x := (times[k - 1] - times[0]) * NS_PER_S, (times[k] - times[k - 1]) * NS_PER_S;
      assert TscDeltaNs(Tsc(times[k - 1]), Tsc(times[k]), hz) == x / hz by {
        DeltaExactIff(times[k - 1], times[k], hz);
      }
      assert (times[k] - times[0]) * NS_PER_S == whole + x;
      AddRounded(Reported(p, hz), k - 1, whole, x, hz);
    }
  }

  lemma AddRounded(sum: nat, m: nat, whole: nat, x: nat, hz: nat)
    requires hz > 0 && sum * hz <= whole && if m == 0 then whole == 0 else whole < (sum + m) * hz
    ensures (sum + x / hz) * hz <= whole + x < (sum + x / hz + (m + 1)) * hz
  {
    var q := x / hz;
    assert hz * q <= x < hz * q + hz;
    assert (sum + q) * hz == sum * hz + hz * q;
    assert (sum + q + (m + 1)) * hz == (sum + m) * hz + hz * q + hz;
  }

  // ---------------------------------------------------------------- the producer loop

  /** One round of the producer: whether the two statistics reads succeed, and the TSC it then reads. */
  datatype Round = Round(rxOk: bool, txOk: bool, tsc: u64)

  predicate Good(r: Round) { r.rxOk && r.txOk }

  /** What old_time holds after the rounds. */
  function LastTsc(oldTime: u64, rounds: seq<Round>): u64
  {
    if rounds == [] then oldTime else rounds[|rounds| - 1].tsc
  }

  function Reports(oldTime: u64, rounds: seq<Round>, hz: u64): (r: seq<u64>)
    requires hz > 0
    ensures |r| == |rounds|
  {
    if rounds == [] then []
    else
      var before := rounds[..|rounds| - 1];
      Reports(oldTime, before, hz) + [TscDeltaNs(LastTsc(oldTime, before), rounds[|rounds| - 1].tsc, hz)]
  }

  class StatsLog {
    const hz: u64
    var oldTime: u64
    var currTime: u64

    constructor (hz: u64)
      ensures this.hz == hz && oldTime == 0 && currTime == 0
    {
      this.hz := hz;
      oldTime, currTime := 0, 0;
    }

    /** Runs until the rounds end (stop flag) or a read fails; `deltas` are the DELTA_NS fields sent. */
    method RunStatsProducer(rounds: seq<Round>) returns (ret: int, deltas: seq<u64>)
      requires hz > 0
      modifies this
      ensures |deltas| <= |rounds| && forall k :: 0 <= k < |deltas| ==> Good(rounds[k])
      ensures deltas == Reports(old(oldTime), rounds[..|deltas|], hz)
      ensures oldTime == LastTsc(old(oldTime), rounds[..|deltas|])
      ensures if |deltas| == |rounds| then ret == 0 else ret == -1 && !Good(rounds[|deltas|])
    {
      deltas := [];
      var i := 0;
      while i < |rounds|
        invariant 0 <= i == |deltas| <= |rounds|
        invariant forall k :: 0 <= k < i ==> Good(rounds[k])
        invariant deltas == Reports(old(oldTime), rounds[..i], hz)
        invariant oldTime == LastTsc(old(oldTime), rounds[..i])
      {
        if !rounds[i].rxOk || !rounds[i].txOk {
          return -1, deltas;
        }
        currTime := rounds[i].tsc;
        var deltaNs := TscDeltaNs(oldTime, currTime, hz);
        oldTime := currTime;
        deltas := deltas + [deltaNs];
        assert rounds[..i + 1][..i] == rounds[..i];
        i := i + 1;
      }
      ret := 0;
    }
  }

  /** The drift bound is about what the loop sends: with old_time read at times[0], the reports for the
      later readings add up to Reported. */
  lemma {:induction false} ReportsAddUp(times: seq<nat>, rounds: seq<Round>, hz: u64)
    requires hz > 0 && |times| == |rounds| + 1
    requires forall i :: 0 <= i < |rounds| ==> rounds[i].tsc == Tsc(times[i + 1])
    ensures SumOf(Reports(Tsc(times[0]), rounds, hz), |rounds|) == Reported(times, hz)
  {
    var k := |rounds|;
    if k > 0 {
      var before := rounds[..k - 1];
      ReportsAddUp(times[..k], before, hz);
      SumOfPrefix(Reports(Tsc(times[0]), rounds, hz), Reports(Tsc(times[0]), before, hz), k - 1);
    }
  }

  lemma {:induction false} SumOfPrefix(s: seq<u64>, p: seq<u64>, k: nat)
    requires k <= |p| <= |s| && s[..|p|] == p
    ensures SumOf(s, k) == SumOf(p, k)
  {
    if k > 0 {
      SumOfPrefix(s, p, k - 1);
      assert s[k - 1] == s[..|p|][k - 1];
    }
  }

  /** Each report of its own: the gap since the previous reading, exact and rounded down for short gaps. */
  lemma {:induction false} EachReportIsItsGap(times: seq<nat>, rounds: seq<Round>, hz: u64, k: nat)
    requires hz > 0 && |times| == |rounds| + 1 && k < |rounds| && ShortGaps(times)
    requires forall i :: 0 <= i < |rounds| ==> rounds[i].tsc == Tsc(times[i + 1])
    ensures times[k] <= times[k + 1]
    ensures Reports(Tsc(times[0]), rounds, hz)[k] == (times[k + 1] - times[k]) * 1_000_000_000 / hz
  {
    var last := |rounds| - 1;
    assert times[k + 1] >= times[k];
    if k == last {
      DeltaExactIff(times[k], times[k + 1], hz);
      assert LastTsc(Tsc(times[0]), rounds[..last]) == Tsc(times[k]);
    } else {
      EachReportIsItsGap(times[..last + 1], rounds[..last], hz, k);
    }
  }

  /** A producer starts with old_time = 0, so its first report measures from TSC zero and is only
      right on a machine whose counter has run for at most 18446744073 cycles. */
  lemma FirstReport(t: nat, hz: u64)
    requires hz > 0 && t < TWO64
    ensures Reports(0, [Round(true, true, Tsc(t))], hz)[0] == t * NS_PER_S / hz <==> t <= 18446744073
  {
    DeltaExactIff(0, t, hz);
  }

  // ---------------------------------------------------------------- hop latencies

  /** A time pair in nanoseconds, on unbounded integers. */
  function TimeNs(nbSync: nat, currTick: nat): nat
  {
    nbSync * LEN_NB_SYNC_NS + currTick * LEN_TIME_TICK_NS
  }

  function Latency(nb0: u64, tick0: u64, nb1: u64, tick1: u64): u64
  {
    Wrap64(Wrap64(Wrap64(nb0 - nb1) * LEN_NB_SYNC_NS) + Wrap64(Wrap64(tick0 - tick1) * LEN_TIME_TICK_NS))
  }

  /** Converted time at hop i minus that at hop j, as an unsigned word. */
  function Difference(nbSync: seq<u64>, currTick: seq<u64>, i: nat, j: nat): u64
    requires i < |nbSync| == |currTick| && j < |nbSync|
  {
    Wrap64(TimeNs(nbSync[i], currTick[i]) - TimeNs(nbSync[j], currTick[j]))
  }

  method CalcHopLatencies(nbSync: seq<u64>, currTick: seq<u64>) returns (latencies: seq<u64>)
    requires |nbSync| == |currTick| >= 1
    ensures |latencies| == |nbSync| - 1
    ensures forall i :: 0 <= i < |latencies| ==> latencies[i] == Difference(nbSync, currTick, i, i + 1)
  {
    latencies := [];
    var i := 0;
    while i < |nbSync| - 1
      invariant 0 <= i == |latencies| <= |nbSync| - 1
      invariant forall k :: 0 <= k < i ==> latencies[k] == Difference(nbSync, currTick, k, k + 1)
    {
      LatencyIsDifference(nbSync[i], currTick[i], nbSync[i + 1], currTick[i + 1]);
      latencies := latencies + [Latency(nbSync[i], currTick[i], nbSync[i + 1], currTick[i + 1])];
      i := i + 1;
    }
  }

  /** A latency is the difference of the converted times modulo 2^64, and so the true difference
      exactly when that is neither negative nor too large, whatever the two subtractions did. */
  lemma LatencyIsDifference(nb0: u64, tick0: u64, nb1: u64, tick1: u64)
    ensures var d := TimeNs(nb0, tick0) - TimeNs(nb1, tick1);
            && Latency(nb0, tick0, nb1, tick1) == Wrap64(d)
            && (Latency(nb0, tick0, nb1, tick1) == d <==> 0 <= d < TWO64)
  {
    var a, b := (nb0 - nb1) * LEN_NB_SYNC_NS, (tick0 - tick1) * LEN_TIME_TICK_NS;
    assert Latency(nb0, tick0, nb1, tick1) == Wrap64(Wrap64(a) + Wrap64(b)) by {
      WrapScale(nb0 - nb1, LEN_NB_SYNC_NS);
      WrapScale(tick0 - tick1, LEN_TIME_TICK_NS);
    }
    WrapSum(a, b);
    assert a + b == TimeNs(nb0, tick0) - TimeNs(nb1, tick1);
    WrapFits(a + b);
  }

  lemma WrapScale(x: int, c: int)
    ensures Wrap64(Wrap64(x) * c) == Wrap64(x * c)
  {
    var k := x / TWO64;
    assert x == TWO64 * k + Wrap64(x);
    assert x * c == Wrap64(x) * c + TWO64 * (k * c);
    WrapShift(Wrap64(x) * c, k * c);
  }

  function SumOf(s: seq<u64>, k: nat): nat
    requires k <= |s|
  {
    if k == 0 then 0 else SumOf(s, k - 1) + s[k - 1]
  }

  /** Over any number of hops the latencies telescope to first minus last time, modulo 2^64. */
  lemma {:induction false} LatenciesTelescope(nbSync: seq<u64>, currTick: seq<u64>, latencies: seq<u64>, k: nat)
    requires |nbSync| == |currTick| == |latencies| + 1 && k <= |latencies|
    requires forall i :: 0 <= i < |latencies| ==> latencies[i] == Difference(nbSync, currTick, i, i + 1)
    ensures Wrap64(SumOf(latencies, k)) == Difference(nbSync, currTick, 0, k)
  {
    if k > 0 {
      LatenciesTelescope(nbSync, currTick, latencies, k - 1);
      AppendDifference(SumOf(latencies, k - 1), latencies[k - 1], TimeNs(nbSync[0], currTick[0]),
                       TimeNs(nbSync[k - 1], currTick[k - 1]), TimeNs(nbSync[k], currTick[k]));
    }
  }

  lemma AppendDifference(sum: nat, last: u64, a: int, b: int, c: int)
    requires Wrap64(sum) == Wrap64(a - b) && last == Wrap64(b - c)
    ensures Wrap64(sum + last) == Wrap64(a - c)
  {
    WrapSum(sum, last);
    WrapSum(a - b, b - c);
  }
}

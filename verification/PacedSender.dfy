/** The paced sender of synchronisation packets: one attempt a period, caught up when late. */
module PacedSender {
  import opened Words

  /** One turn of the endless loop: the clock it reads, whether a clone can be had, whether the NIC
      takes it. */
  datatype Turn = Turn(clock: u64, cloned: bool, taken: bool)

  datatype State = State(nextTsc: u64, count: u64, attempts: nat, clones: nat, sent: nat, freed: nat)

  function After(period: u64, s: State, t: Turn): State
  {
    if t.clock < s.nextTsc then s
    else
      var due := s.(nextTsc := Wrap64(s.nextTsc + period), attempts := s.attempts + 1);
      if !t.cloned then due
      else
        due.(clones := s.clones + 1, count := Wrap64(s.count + 1),
             sent := s.sent + Bit(t.taken), freed := s.freed + Bit(!t.taken))
  }

  function Start(t0: u64): State { State(t0, 0, 0, 0, 0, 0) }

  function Run(period: u64, s: State, turns: seq<Turn>): State
  {
    if turns == [] then s
    else After(period, Run(period, s, turns[..|turns| - 1]), turns[|turns| - 1])
  }

  lemma RunOneMore(period: u64, s: State, turns: seq<Turn>, i: nat)
    requires i < |turns|
    ensures Run(period, s, turns[..i + 1]) == After(period, Run(period, s, turns[..i]), turns[i])
  {
    assert turns[..i + 1][..i] == turns[..i];
  }

  class Sender {
    const period: u64
    var nextTsc: u64
    var count: u64
    var attempts: nat
    var clones: nat
    var sent: nat
    var freed: nat

    constructor (period: u64, now: u64)
      ensures this.period == period && Abs() == Start(now)
    {
      this.period, nextTsc := period, now;
      count, attempts, clones, sent, freed := 0, 0, 0, 0, 0;
    }

    function Abs(): State
      reads this
    {
      State(nextTsc, count, attempts, clones, sent, freed)
    }

    /** The loop body over a series of turns; each `continue` ends a turn early. */
    method Loop(turns: seq<Turn>)
      modifies this
      ensures Abs() == Run(period, old(Abs()), turns)
    {
      var i := 0;
      while i < |turns|
        invariant 0 <= i <= |turns|
        invariant Abs() == Run(period, old(Abs()), turns[..i])
      {
        var cur := turns[i].clock;
        RunOneMore(period, old(Abs()), turns, i);
        i := i + 1;
        if cur < nextTsc {
          continue;
        }
        nextTsc, attempts := Wrap64(nextTsc + period), attempts + 1;
        if !turns[i - 1].cloned {
          continue;
        }
        clones := clones + 1;
        if turns[i - 1].taken {
          sent := sent + 1;
        } else {
          freed := freed + 1;
        }
        count := Wrap64(count + 1);
      }
      assert turns[..i] == turns;
    }
  }

  // ---------------------------------------------------------------- which turns do what

  /** The attempts among the turns: one at each clock reading at or past the start plus a period for every
      attempt before it, modulo 2^64. */
  function Made(t0: u64, period: u64, turns: seq<Turn>): nat
    decreases |turns|, 1
  {
    if turns == [] then 0
    else
      var p := turns[..|turns| - 1];
      Made(t0, period, p) + Bit(Due(t0, period, p, turns[|turns| - 1]))
  }

  predicate Due(t0: u64, period: u64, before: seq<Turn>, t: Turn)
    decreases |before|, 2
  {
    t.clock >= Wrap64(t0 + Made(t0, period, before) * period)
  }

  /** The attempts of one kind. */
  function Tally(t0: u64, period: u64, turns: seq<Turn>, kind: Turn -> bool): nat
  {
    if turns == [] then 0
    else
      var p, t := turns[..|turns| - 1], turns[|turns| - 1];
      Tally(t0, period, p, kind) + Bit(Due(t0, period, p, t) && kind(t))
  }

  predicate Cloned(t: Turn) { t.cloned }

  predicate Taken(t: Turn) { t.cloned && t.taken }

  predicate Refused(t: Turn) { t.cloned && !t.taken }

  /** From the turns alone, also across a wrap of the counter: every due turn is an attempt; of the
      attempts with a clone, those that the NIC takes are sent and those that it refuses are freed. */
  lemma {:induction false} TurnsDecide(t0: u64, period: u64, turns: seq<Turn>)
    ensures var s := Run(period, Start(t0), turns);
            && s.attempts == Made(t0, period, turns)
            && s.nextTsc == Wrap64(t0 + s.attempts * period)
            && s.clones == Tally(t0, period, turns, Cloned)
            && s.sent == Tally(t0, period, turns, Taken)
            && s.freed == Tally(t0, period, turns, Refused)
  {
    if turns != [] {
      var p := turns[..|turns| - 1];
      TurnsDecide(t0, period, p);
      NextDeadline(t0, period, Made(t0, period, p));
    }
  }

  lemma NextDeadline(t0: u64, period: u64, attempts: nat)
    ensures Wrap64(Wrap64(t0 + attempts * period) + period) == Wrap64(t0 + (attempts + 1) * period)
  {
    var x := t0 + attempts * period;
    OnePeriodMore(attempts, period);
    assert t0 + (attempts + 1) * period == x + period;
    Wrap64Later(x, period);
  }

  // ---------------------------------------------------------------- pacing

  /** The clock of the turns never steps back and started at t0. */
  predicate Monotone(t0: u64, turns: seq<Turn>)
  {
    && (forall i :: 0 <= i < |turns| ==> t0 <= turns[i].clock)
    && forall i, j :: 0 <= i < j < |turns| ==> turns[i].clock <= turns[j].clock
  }

  /** Up to the end of the 64-bit counter: even one more attempt would not wrap the deadline. */
  predicate NoWrap(period: u64, turns: seq<Turn>)
  {
    forall i :: 0 <= i < |turns| ==> turns[i].clock + period < TWO64
  }

  /** Turn i makes attempt number k (counted from zero). */
  predicate Attempts(t0: u64, period: u64, turns: seq<Turn>, i: nat, k: nat)
    requires i < |turns|
  {
    var s := Run(period, Start(t0), turns[..i]);
    turns[i].clock >= s.nextTsc && s.attempts == k
  }

  /** The deadline counts attempts, and the last of them was due by `now`. */
  predicate OnTime(t0: u64, period: u64, s: State, now: int)
  {
    && s.nextTsc == t0 + s.attempts * period
    && (s.attempts > 0 ==> s.nextTsc - period <= now)
  }

  lemma OnePeriodMore(attempts: nat, period: nat)
    ensures (attempts + 1) * period == attempts * period + period
  {
  }

  lemma OnTimeNext(t0: u64, period: u64, s: State, now: int, t: Turn)
    requires OnTime(t0, period, s, now) && now <= t.clock && t.clock + period < TWO64
    ensures OnTime(t0, period, After(period, s, t), t.clock)
  {
    if t.clock >= s.nextTsc {
      OnePeriodMore(s.attempts, period);
      WrapFits(s.nextTsc + period);
      assert After(period, s, t).nextTsc == s.nextTsc + period;
    }
  }

  function LastClock(t0: u64, turns: seq<Turn>): u64
  {
    if turns == [] then t0 else turns[|turns| - 1].clock
  }

  /** The deadline is t0 plus one period for each attempt, and no attempt runs ahead of it. */
  lemma {:induction false} Deadline(t0: u64, period: u64, turns: seq<Turn>)
    requires NoWrap(period, turns) && Monotone(t0, turns)
    ensures OnTime(t0, period, Run(period, Start(t0), turns), LastClock(t0, turns))
  {
    if turns != [] {
      var k := |turns| - 1;
      var p := turns[..k];
      Deadline(t0, period, p);
      assert k > 0 ==> p[k - 1] == turns[k - 1];
      OnTimeNext(t0, period, Run(period, Start(t0), p), LastClock(t0, p), turns[k]);
    }
  }

  /** Short of a wrap every turn at or past t0 + attempts * period makes one attempt, and no other does. */
  lemma DueTurnsAttempt(t0: u64, period: u64, turns: seq<Turn>, t: Turn)
    requires NoWrap(period, turns + [t]) && Monotone(t0, turns + [t])
    ensures var a := Run(period, Start(t0), turns).attempts;
            Run(period, Start(t0), turns + [t]).attempts == a + Bit(t.clock >= t0 + a * period)
  {
    var all := turns + [t];
    assert all[..|turns|] == turns && all[|turns|] == t;
    forall i | 0 <= i < |turns|
      ensures turns[i] == all[i]
    {
    }
    Deadline(t0, period, turns);
  }

  /** Attempt k is never made before t0 + k periods. */
  lemma NeverEarly(t0: u64, period: u64, turns: seq<Turn>, i: nat, k: nat)
    requires NoWrap(period, turns) && Monotone(t0, turns) && i < |turns|
    requires Attempts(t0, period, turns, i, k)
    ensures turns[i].clock >= t0 + k * period
  {
    Deadline(t0, period, turns[..i]);
  }

  /** By clock time T at most (T - t0) / period + 1 attempts have been made, and with a turn at T that
      finds nothing due, exactly that many. */
  lemma RateBound(t0: u64, period: u64, turns: seq<Turn>)
    requires NoWrap(period, turns) && Monotone(t0, turns) && turns != [] && period > 0
    ensures var s, elapsed := Run(period, Start(t0), turns), turns[|turns| - 1].clock - t0;
            && s.attempts <= elapsed / period + 1
            && (turns[|turns| - 1].clock < s.nextTsc ==> s.attempts == elapsed / period + 1)
  {
    Deadline(t0, period, turns);
    var s, elapsed := Run(period, Start(t0), turns), turns[|turns| - 1].clock - t0;
    Compare(period, s.attempts, s.nextTsc - t0, elapsed);
  }

  lemma Compare(period: nat, a: nat, ahead: nat, elapsed: nat)
    requires period > 0 && ahead == a * period && (a > 0 ==> ahead - period <= elapsed)
    ensures a <= elapsed / period + 1
    ensures elapsed < ahead ==> a == elapsed / period + 1
  {
    var q := elapsed / period;
    assert period * q <= elapsed < period * q + period;
    assert period * (a - 1 - q) == ahead - period - period * q;
    assert period * (a - q) == ahead - period * q;
    if a - 1 - q != 0 {
      NonzeroMultiple(period, a - 1 - q);
    }
    if a - q != 0 {
      NonzeroMultiple(period, a - q);
    }
  }

  /** Every clone is sent or freed, and count, modulo 2^64, is the number of clones: attempts without a
      clone advance the deadline but not the count. */
  lemma {:induction false} ClonesAccounted(t0: u64, period: u64, turns: seq<Turn>)
    ensures var s := Run(period, Start(t0), turns);
            s.sent + s.freed == s.clones <= s.attempts && s.count == Wrap64(s.clones)
  {
    if turns != [] {
      ClonesAccounted(t0, period, turns[..|turns| - 1]);
      var s := Run(period, Start(t0), turns[..|turns| - 1]);
      WrapSum(s.clones, 1);
    }
  }
}

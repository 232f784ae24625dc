/** The injector: the slot search over the payload of a first beat and the 64-bit splice. */
module TimestampInject {
  import opened Words
  import opened PacketDetect

  const PAYLOAD_OFFSET: nat := 144
  const TIMESTAMP_SIZE: nat := 64
  const SLOTS: nat := 5
  const EMPTY_TIMESTAMP: nat := 0xDEADBEEF
  const UPPER_WORD: nat := 0xABCD

  function SlotBit(k: nat): nat { PAYLOAD_OFFSET + TIMESTAMP_SIZE * k }

  function LowWord(d: Beat, k: nat): (r: seq<bool>)
    requires k < SLOTS
    ensures |r| == 32
  {
    d[SlotBit(k)..SlotBit(k) + 32]
  }

  /** The slot's low word holds anything but the marker. */
  predicate Open(d: Beat, k: nat)
    requires k < SLOTS
  {
    Number(LowWord(d, k)) != EMPTY_TIMESTAMP
  }

  function FirstOpen(d: Beat, k: nat): (r: nat)
    requires k <= SLOTS
    ensures k <= r <= SLOTS && (r < SLOTS ==> Open(d, r)) && forall j :: k <= j < r ==> !Open(d, j)
    decreases SLOTS - k
  {
    if k == SLOTS || Open(d, k) then k else FirstOpen(d, k + 1)
  }

  /** Where the splice goes: the first open slot, or bit 0 when there is none. */
  function InsertIndex(d: Beat): (r: nat)
    ensures r + TIMESTAMP_SIZE <= WIDTH
  {
    var k := FirstOpen(d, 0);
    if k < SLOTS then SlotBit(k) else 0
  }

  method GetTimestampIdx(d: Beat) returns (found: bool, idx: nat)
    ensures found == (FirstOpen(d, 0) < SLOTS)
    ensures idx == InsertIndex(d)
  {
    found, idx := false, 0;
    var j := PAYLOAD_OFFSET;
    ghost var k, first := 0, FirstOpen(d, 0);
    while j < WIDTH - TIMESTAMP_SIZE
      invariant 0 <= k <= SLOTS && j == SlotBit(k)
      invariant if found then first < k && idx == SlotBit(first) else k <= first && idx == 0
    {
      if !found {
        assert d[j..j + 32] == LowWord(d, k);
        if Number(d[j..j + 32]) != EMPTY_TIMESTAMP {
          found := true;
          idx := j;
        }
      }
      j := j + TIMESTAMP_SIZE;
      k := k + 1;
    }
  }

  /** The low `w` bits of v, least significant first. */
  function Bits(v: nat, w: nat): (r: seq<bool>)
    ensures |r| == w
    decreases v, w
  {
    if w == 0 then [] else [v % 2 == 1] + Bits(v / 2, w - 1)
  }

  /** The tick in the low word and a 31-bit constant above it; the top bit stays clear. */
  function Stamp(tick: u32): (r: seq<bool>)
    ensures |r| == TIMESTAMP_SIZE
  {
    Bits(UPPER_WORD * TWO32 + tick, TIMESTAMP_SIZE)
  }

  function Overwrite(d: Beat, idx: nat, stamp: seq<bool>): Beat
    requires |stamp| == TIMESTAMP_SIZE && idx + TIMESTAMP_SIZE <= WIDTH
  {
    d[..idx] + stamp + d[idx + TIMESTAMP_SIZE..]
  }

  function Inject(d: Beat, tick: u32): Beat { Overwrite(d, InsertIndex(d), Stamp(tick)) }

  /** o_axis_tdata, with packet_detect's verdict and the current tick as inputs. */
  method InsertTimestamp(d: Beat, syncDetected: bool, tick: u32) returns (o: Beat)
    ensures o == if syncDetected then Inject(d, tick) else d
  {
    o := d;
    var found, idx := GetTimestampIdx(d);
    if syncDetected {
      o := Overwrite(d, idx, Stamp(tick));
    }
  }

  function Pow2(w: nat): (r: nat)
    ensures r > 0
  {
    if w == 0 then 1 else 2 * Pow2(w - 1)
  }

  lemma HalfMod(v: nat, m: nat)
    requires m > 0
    ensures v % (2 * m) == v % 2 + 2 * ((v / 2) % m)
  {
    var h := v / 2;
    assert h == m * (h / m) + h % m;
    DivideIs(v, 2 * m, h / m, v % 2 + 2 * (h % m));
  }

  /** The first k bits of a number written out stand for its remainder modulo 2^k. */
  lemma {:induction false} LowBits(v: nat, w: nat, k: nat)
    requires k <= w
    ensures Number(Bits(v, w)[..k]) == v % Pow2(k)
    decreases w
  {
    if k > 0 {
      var low := Bits(v, w)[..k];
      assert low[1..] == Bits(v / 2, w - 1)[..k - 1];
      LowBits(v / 2, w - 1, k - 1);
      HalfMod(v, Pow2(k - 1));
    }
  }

  lemma {:induction false} Pow2Sum(a: nat, b: nat)
    ensures Pow2(a + b) == Pow2(a) * Pow2(b)
  {
    if b > 0 {
      Pow2Sum(a, b - 1);
    }
  }

  lemma PowersOfTwo()
    ensures Pow2(32) == TWO32 && Pow2(64) == TWO64
  {
    assert Pow2(8) == 256;
    Pow2Sum(8, 8);
    Pow2Sum(16, 16);
    Pow2Sum(32, 32);
  }

  /** Read as a number a stamp is the constant above the tick, and its low word is the tick. */
  lemma StampReads(tick: u32)
    ensures Number(Stamp(tick)) == 0xABCD_0000_0000 + tick
    ensures Number(Stamp(tick)[..32]) == tick
  {
    PowersOfTwo();
    var v, w := UPPER_WORD * TWO32 + tick, TIMESTAMP_SIZE;
    LowBits(v, w, w);
    assert Bits(v, w)[..w] == Bits(v, w);
    LowBits(v, w, 32);
    DivideIs(v, TWO32, UPPER_WORD, tick);
  }

  // ---------------------------------------------------------------- one injection

  lemma OverwriteKeeps(d: Beat, idx: nat, stamp: seq<bool>, a: nat, b: nat)
    requires |stamp| == TIMESTAMP_SIZE && idx + TIMESTAMP_SIZE <= WIDTH && a <= b <= WIDTH
    requires b <= idx || idx + TIMESTAMP_SIZE <= a
    ensures Overwrite(d, idx, stamp)[a..b] == d[a..b]
  {
  }

  lemma OverwriteHits(d: Beat, idx: nat, stamp: seq<bool>, w: nat)
    requires |stamp| == TIMESTAMP_SIZE && idx + TIMESTAMP_SIZE <= WIDTH && w <= TIMESTAMP_SIZE
    ensures Overwrite(d, idx, stamp)[idx..idx + w] == stamp[..w]
  {
  }

  lemma OverwriteTwice(d: Beat, idx: nat, s: seq<bool>, t: seq<bool>)
    requires |s| == |t| == TIMESTAMP_SIZE && idx + TIMESTAMP_SIZE <= WIDTH
    ensures Overwrite(Overwrite(d, idx, s), idx, t) == Overwrite(d, idx, t)
  {
  }

  /** The fields the detector matches on lie below the payload and above the first 64 bits. */
  lemma MatchSurvives(d: Beat, tick: u32)
    ensures VlanMatch(Inject(d, tick)) == VlanMatch(d)
  {
    OverwriteKeeps(d, InsertIndex(d), Stamp(tick), ETH_TYPE_OFFSET, ETH_TYPE_OFFSET + 16);
    OverwriteKeeps(d, InsertIndex(d), Stamp(tick), VLAN_ID_OFFSET, VLAN_ID_OFFSET + 12);
  }

  /** The k-th of the five 64-bit fields behind the inner EtherType has the marker in its lower half. */
  predicate Marked(d: Beat, k: nat)
    requires k < 5
  {
    Number(d[144 + 64 * k..176 + 64 * k]) == 0xDEADBEEF
  }

  /** Where the stamp goes: to the first of these fields without the marker, or to bit 0 if all have it. */
  lemma InsertedAt(d: Beat, k: nat)
    requires k < 5
    ensures InsertIndex(d) == 144 + 64 * k <==> !Marked(d, k) && forall j :: 0 <= j < k ==> Marked(d, j)
    ensures InsertIndex(d) == 0 <==> forall j :: 0 <= j < 5 ==> Marked(d, j)
  {
    var first := FirstOpen(d, 0);
    forall j | 0 <= j < 5
      ensures Open(d, j) <==> !Marked(d, j)
    {
    }
    assert first < 5 ==> Open(d, first);
    assert forall j :: 0 <= j < first ==> !Open(d, j);
  }

  /** Exactly one 64-bit field changes: a slot if one is open, and then neither the header nor the tail
      nor any other slot; otherwise the first 64 bits, although nothing was found. */
  lemma InjectionIsLocal(d: Beat, tick: u32, a: nat, b: nat)
    requires a <= b <= WIDTH
    ensures var i := InsertIndex(d);
            && i + 64 <= WIDTH && Inject(d, tick)[i..i + 64] == Stamp(tick)
            && (b <= i || i + 64 <= a ==> Inject(d, tick)[a..b] == d[a..b])
    ensures (exists k :: 0 <= k < 5 && !Marked(d, k)) ==>
              (b <= 144 || 464 <= a ==> Inject(d, tick)[a..b] == d[a..b])
    ensures (forall k :: 0 <= k < 5 ==> Marked(d, k)) ==> Inject(d, tick)[..64] == Stamp(tick)
  {
    var i := InsertIndex(d);
    InsertedAt(d, 0);
    OverwriteHits(d, i, Stamp(tick), TIMESTAMP_SIZE);
    if b <= i || i + TIMESTAMP_SIZE <= a {
      OverwriteKeeps(d, i, Stamp(tick), a, b);
    }
  }

  lemma LowWordKept(d: Beat, tick: u32, j: nat)
    requires j < SLOTS && j != FirstOpen(d, 0)
    ensures LowWord(Inject(d, tick), j) == LowWord(d, j)
  {
    OverwriteKeeps(d, InsertIndex(d), Stamp(tick), SlotBit(j), SlotBit(j) + 32);
  }

  lemma LowWordIsTick(d: Beat, tick: u32)
    requires FirstOpen(d, 0) < SLOTS
    ensures Number(LowWord(Inject(d, tick), FirstOpen(d, 0))) == tick
  {
    StampReads(tick);
    OverwriteHits(d, InsertIndex(d), Stamp(tick), 32);
  }

  lemma SameSlotsOpen(d: Beat, o: Beat)
    requires forall j :: 0 <= j < SLOTS ==> Open(o, j) == Open(d, j)
    ensures FirstOpen(o, 0) == FirstOpen(d, 0)
  {
    var a, b := FirstOpen(o, 0), FirstOpen(d, 0);
    assert a < SLOTS ==> Open(d, a);
    assert b < SLOTS ==> Open(o, b);
  }

  lemma SlotStaysOpen(d: Beat, tick: u32, j: nat)
    requires j < SLOTS && tick != EMPTY_TIMESTAMP
    ensures Open(Inject(d, tick), j) == Open(d, j)
  {
    if j == FirstOpen(d, 0) {
      LowWordIsTick(d, tick);
    } else {
      LowWordKept(d, tick, j);
    }
  }

  /** After an injection of anything but the marker the next one goes to the same place. */
  lemma SamePlaceAgain(d: Beat, tick: u32)
    requires tick != EMPTY_TIMESTAMP
    ensures InsertIndex(Inject(d, tick)) == InsertIndex(d)
  {
    forall j | 0 <= j < SLOTS
      ensures Open(Inject(d, tick), j) == Open(d, j)
    {
      SlotStaysOpen(d, tick, j);
    }
    SameSlotsOpen(d, Inject(d, tick));
  }

  // ---------------------------------------------------------------- chains of hops

  /** One hop sees the beat as the first of its packet. */
  function Hop(d: Beat, tick: u32): Beat { if VlanMatch(d) then Inject(d, tick) else d }

  function Hops(d: Beat, ticks: seq<u32>): Beat
  {
    if ticks == [] then d else Hop(Hops(d, ticks[..|ticks| - 1]), ticks[|ticks| - 1])
  }

  /** The detector's verdict is the same at every hop. */
  lemma {:induction false} MatchSurvivesChain(d: Beat, ticks: seq<u32>)
    ensures VlanMatch(Hops(d, ticks)) == VlanMatch(d)
  {
    if ticks != [] {
      var p := ticks[..|ticks| - 1];
      MatchSurvivesChain(d, p);
      MatchSurvives(Hops(d, p), ticks[|ticks| - 1]);
    }
  }

  /** No tick but possibly the last is the marker. */
  predicate OnlyLastMayMark(ticks: seq<u32>)
  {
    forall i :: 0 <= i < |ticks| - 1 ==> ticks[i] != EMPTY_TIMESTAMP
  }

  /** Then a chain of hops leaves what its last hop alone would have written, open slot or not. */
  lemma {:induction false} ChainIsLastHop(d: Beat, ticks: seq<u32>)
    requires ticks != [] && OnlyLastMayMark(ticks) && VlanMatch(d)
    ensures Hops(d, ticks) == Inject(d, ticks[|ticks| - 1])
  {
    var k := |ticks| - 1;
    var p := ticks[..k];
    MatchSurvivesChain(d, p);
    if p != [] {
      ChainIsLastHop(d, p);
      SamePlaceAgain(d, p[k - 1]);
      OverwriteTwice(d, InsertIndex(d), Stamp(p[k - 1]), Stamp(ticks[k]));
    }
  }

  // ---------------------------------------------------------------- when the last hop does not win

  lemma MarkerCloses(d: Beat)
    requires FirstOpen(d, 0) < SLOTS
    ensures !Open(Inject(d, EMPTY_TIMESTAMP), FirstOpen(d, 0))
  {
    LowWordIsTick(d, EMPTY_TIMESTAMP);
  }

  /** No hop ever reopens a slot. */
  lemma {:induction false} ClosedForGood(d: Beat, ticks: seq<u32>, n: nat, j: nat)
    requires n <= |ticks| && j < SLOTS && !Open(Hops(d, ticks[..n]), j)
    ensures !Open(Hops(d, ticks), j)
  {
    if n == |ticks| {
      assert ticks[..n] == ticks;
    } else {
      var p := ticks[..|ticks| - 1];
      assert p[..n] == ticks[..n];
      ClosedForGood(d, p, n, j);
      if VlanMatch(Hops(d, p)) {
        LowWordKept(Hops(d, p), ticks[|ticks| - 1], j);
      }
    }
  }

  function FirstMark(ticks: seq<u32>, i: nat): (r: nat)
    requires i <= |ticks|
    ensures i <= r <= |ticks| && (r < |ticks| ==> ticks[r] == EMPTY_TIMESTAMP)
    ensures forall j :: i <= j < r ==> ticks[j] != EMPTY_TIMESTAMP
    decreases |ticks| - i
  {
    if i == |ticks| || ticks[i] == EMPTY_TIMESTAMP then i else FirstMark(ticks, i + 1)
  }

  /** A marker written before the last hop closes the first open slot and sends the later hops on. */
  lemma MarkedChainMovesOn(d: Beat, ticks: seq<u32>, a: nat, b: nat)
    requires VlanMatch(d) && !OnlyLastMayMark(ticks)
    requires a == FirstOpen(d, 0) && a < SLOTS && b == FirstOpen(d, a + 1) && b < SLOTS
    ensures Hops(d, ticks) != Inject(d, ticks[|ticks| - 1])
  {
    var k := |ticks| - 1;
    var e, last := Hops(d, ticks[..k]), ticks[k];
    ClosedUpTo(d, ticks, a, b);
    MatchSurvivesChain(d, ticks[..k]);
    LowWordKept(e, last, a);
    LowWordIsTick(d, last);
    if last == EMPTY_TIMESTAMP {
      // the marker ends up in slot b too, which a single injection leaves alone
      LowWordKept(d, last, b);
      if Open(e, b) {
        assert FirstOpen(e, 0) == b;
        LowWordIsTick(e, last);
      } else {
        LowWordKept(e, last, b);
      }
    }
  }

  /** Before the last hop every slot below b is closed: a by the marker, the others all along. */
  lemma ClosedUpTo(d: Beat, ticks: seq<u32>, a: nat, b: nat)
    requires VlanMatch(d) && !OnlyLastMayMark(ticks)
    requires a == FirstOpen(d, 0) && a < SLOTS && b == FirstOpen(d, a + 1) && b < SLOTS
    ensures var e := Hops(d, ticks[..|ticks| - 1]); forall j :: 0 <= j < b ==> !Open(e, j)
  {
    var m, before := FirstMark(ticks, 0), ticks[..|ticks| - 1];
    assert m < |before|;
    var marked := ticks[..m + 1];
    ChainIsLastHop(d, marked);
    MarkerCloses(d);
    assert before[..m + 1] == marked && before[..0] == [];
    var e := Hops(d, before);
    forall j | 0 <= j < b
      ensures !Open(e, j)
    {
      ClosedForGood(d, before, if j == a then m + 1 else 0, j);
    }
  }

  // ---------------------------------------------------------------- the exact condition

  predicate NoneOpen(d: Beat) { FirstOpen(d, 0) == SLOTS }

  /** Exactly one slot is open. */
  predicate SoleOpen(d: Beat)
  {
    var a := FirstOpen(d, 0); a < SLOTS && FirstOpen(d, a + 1) == SLOTS
  }

  lemma {:induction false} HopsAppend(d: Beat, p: seq<u32>, q: seq<u32>)
    ensures Hops(d, p + q) == Hops(Hops(d, p), q)
  {
    if q == [] {
      assert p + q == p;
    } else {
      assert (p + q)[..|p + q| - 1] == p + q[..|q| - 1];
      HopsAppend(d, p, q[..|q| - 1]);
    }
  }

  lemma AllClosed(d: Beat)
    requires forall j :: 0 <= j < SLOTS ==> !Open(d, j)
    ensures NoneOpen(d)
  {
    var first := FirstOpen(d, 0);
  }

  lemma StaysNoneOpen(d: Beat, tick: u32)
    requires NoneOpen(d)
    ensures NoneOpen(Inject(d, tick))
  {
    var o := Inject(d, tick);
    forall j | 0 <= j < SLOTS
      ensures !Open(o, j)
    {
      LowWordKept(d, tick, j);
    }
    AllClosed(o);
  }

  /** Without an open slot every hop overwrites the first 64 bits, and the last one wins. */
  lemma {:induction false} ClosedChainIsLastHop(d: Beat, ticks: seq<u32>)
    requires ticks != [] && VlanMatch(d) && NoneOpen(d)
    ensures Hops(d, ticks) == Inject(d, ticks[|ticks| - 1])
  {
    var k := |ticks| - 1;
    var p := ticks[..k];
    MatchSurvivesChain(d, p);
    if p != [] {
      ClosedChainIsLastHop(d, p);
      StaysNoneOpen(d, p[k - 1]);
      OverwriteTwice(d, 0, Stamp(p[k - 1]), Stamp(ticks[k]));
    }
  }

  /** A marker in the sole open slot closes it. */
  lemma SoleMarked(d: Beat)
    requires SoleOpen(d)
    ensures NoneOpen(Inject(d, EMPTY_TIMESTAMP))
  {
    var o, a := Inject(d, EMPTY_TIMESTAMP), FirstOpen(d, 0);
    MarkerCloses(d);
    forall j | 0 <= j < SLOTS
      ensures !Open(o, j)
    {
      if j != a {
        LowWordKept(d, EMPTY_TIMESTAMP, j);
      }
    }
    AllClosed(o);
  }

  /** Then the later hops overwrite the header: marker in the slot, last stamp in front. */
  lemma SoleMarkedChain(d: Beat, ticks: seq<u32>)
    requires VlanMatch(d) && SoleOpen(d) && !OnlyLastMayMark(ticks)
    ensures Hops(d, ticks) == Inject(Inject(d, EMPTY_TIMESTAMP), ticks[|ticks| - 1])
  {
    var p, q := MarkedFront(ticks);
    HopsAppend(d, p, q);
    ChainIsLastHop(d, p);
    SoleMarked(d);
    MatchSurvives(d, EMPTY_TIMESTAMP);
    ClosedChainIsLastHop(Inject(d, EMPTY_TIMESTAMP), q);
  }

  lemma MarkedFront(ticks: seq<u32>) returns (p: seq<u32>, q: seq<u32>)
    requires !OnlyLastMayMark(ticks)
    ensures ticks == p + q && p != [] && q != [] && q[|q| - 1] == ticks[|ticks| - 1]
    ensures OnlyLastMayMark(p) && p[|p| - 1] == EMPTY_TIMESTAMP
  {
    var m := FirstMark(ticks, 0);
    p, q := ticks[..m + 1], ticks[m + 1..];
  }

  lemma StampsDiffer(a: u32, b: u32)
    ensures Stamp(a) == Stamp(b) <==> a == b
  {
    StampReads(a);
    StampReads(b);
  }

  /** Two stamps at different places agree with one stamp at the second iff both do. */
  lemma TwoStamps(d: Beat, idx: nat, s: seq<bool>, t: seq<bool>)
    requires |s| == |t| == TIMESTAMP_SIZE <= idx && idx + TIMESTAMP_SIZE <= WIDTH
    ensures Overwrite(Overwrite(d, idx, s), 0, t) == Overwrite(d, idx, t) <==> s == t && d[..TIMESTAMP_SIZE] == t
  {
    var two, one := Overwrite(Overwrite(d, idx, s), 0, t), Overwrite(d, idx, t);
    OverwriteHits(d, idx, t, TIMESTAMP_SIZE);
    OverwriteHits(d, idx, s, TIMESTAMP_SIZE);
    OverwriteKeeps(Overwrite(d, idx, s), 0, t, idx, idx + TIMESTAMP_SIZE);
    OverwriteKeeps(d, idx, t, 0, TIMESTAMP_SIZE);
    OverwriteHits(Overwrite(d, idx, s), 0, t, TIMESTAMP_SIZE);
    assert two[idx..idx + TIMESTAMP_SIZE] == s && one[idx..idx + TIMESTAMP_SIZE] == t;
    assert two[0..TIMESTAMP_SIZE] == t && one[0..TIMESTAMP_SIZE] == d[0..TIMESTAMP_SIZE];
    if s == t && d[..TIMESTAMP_SIZE] == t {
      assert Overwrite(one, 0, t) == one;
    }
  }

  lemma SoleOpenIff(d: Beat, ticks: seq<u32>)
    requires VlanMatch(d) && SoleOpen(d) && !OnlyLastMayMark(ticks)
    ensures var last := ticks[|ticks| - 1];
            Hops(d, ticks) == Inject(d, last) <==>
            last == EMPTY_TIMESTAMP && d[..TIMESTAMP_SIZE] == Stamp(EMPTY_TIMESTAMP)
  {
    var last := ticks[|ticks| - 1];
    SoleMarkedChain(d, ticks);
    SoleMarked(d);
    TwoStamps(d, InsertIndex(d), Stamp(EMPTY_TIMESTAMP), Stamp(last));
    StampsDiffer(last, EMPTY_TIMESTAMP);
  }

  /** For every beat and every non-empty chain: the last hop alone decides iff the beat is not matched,
      no earlier tick is the marker, no slot is open, or the sole open slot and the header would hold the
      marker's stamp anyway. */
  lemma ChainIsLastHopIff(d: Beat, ticks: seq<u32>)
    requires ticks != []
    ensures var last := ticks[|ticks| - 1];
            Hops(d, ticks) == Hop(d, last) <==>
            || !VlanMatch(d)
            || OnlyLastMayMark(ticks)
            || NoneOpen(d)
            || (SoleOpen(d) && last == EMPTY_TIMESTAMP && d[..TIMESTAMP_SIZE] == Stamp(EMPTY_TIMESTAMP))
  {
    if !VlanMatch(d) {
      UnmatchedPasses(d, ticks);
    } else if OnlyLastMayMark(ticks) {
      ChainIsLastHop(d, ticks);
    } else if NoneOpen(d) {
      ClosedChainIsLastHop(d, ticks);
    } else if SoleOpen(d) {
      SoleOpenIff(d, ticks);
    } else {
      MarkedChainMovesOn(d, ticks, FirstOpen(d, 0), FirstOpen(d, FirstOpen(d, 0) + 1));
    }
  }

  lemma {:induction false} UnmatchedPasses(d: Beat, ticks: seq<u32>)
    requires !VlanMatch(d)
    ensures Hops(d, ticks) == d
  {
    if ticks != [] {
      UnmatchedPasses(d, ticks[..|ticks| - 1]);
    }
  }
}

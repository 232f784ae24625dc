/**
 * Start-of-packet detection on an AXI4-Stream lane (handshake of section 2.2 of ARM IHI 0051A) and the
 * match on the VLAN TCI (section 9.6 of IEEE 802.1Q-2018), per clock cycle.
 */
module PacketDetect {
  import opened Words

  const WIDTH: nat := 512
  const ETH_TYPE_OFFSET: nat := 96
  const VLAN_ID_OFFSET: nat := 116

  /** A data beat, least significant bit first. */
  type Beat = s: seq<bool> | |s| == WIDTH witness seq(WIDTH, _ => false)

  /** The number a bit slice stands for. */
  function Number(b: seq<bool>): nat
  {
    if b == [] then 0 else Bit(b[0]) + 2 * Number(b[1..])
  }

  predicate VlanMatch(d: Beat)
  {
    && Number(d[ETH_TYPE_OFFSET..ETH_TYPE_OFFSET + 16]) == 0x8100
    && Number(d[VLAN_ID_OFFSET..VLAN_ID_OFFSET + 12]) == 0xABC
  }

  /** What a lane shows during one cycle; `rstn` low is the asynchronous reset. */
  datatype Cycle = Cycle(rstn: bool, valid: bool, ready: bool, last: bool, data: Beat)
  {
    predicate Accepted() { valid && ready }
  }

  /** in_packet as it is during a cycle: the reset acts at once. */
  predicate Holding(inPacket: bool, c: Cycle) { c.rstn && inPacket }

  predicate NextInPacket(inPacket: bool, c: Cycle)
  {
    c.rstn && (if c.Accepted() then !c.last else inPacket)
  }

  predicate FirstBeat(inPacket: bool, c: Cycle) { c.Accepted() && !Holding(inPacket, c) }

  predicate SyncDetected(inPacket: bool, c: Cycle) { FirstBeat(inPacket, c) && VlanMatch(c.data) }

  class PacketDetector {
    var inPacket: bool

    constructor ()
      ensures !inPacket
    {
      inPacket := false;
    }

    /** One cycle and the edge that ends it. */
    method Clock(c: Cycle) returns (syncDetected: bool)
      modifies this
      ensures syncDetected == SyncDetected(old(inPacket), c)
      ensures inPacket == NextInPacket(old(inPacket), c)
    {
      if !c.rstn {
        inPacket := false;
      }
      var firstBeat := c.valid && c.ready && !inPacket;
      syncDetected := firstBeat && VlanMatch(c.data);
      if c.rstn {
        if c.valid && c.ready {
          if c.last {
            inPacket := false;
          } else if !inPacket {
            inPacket := true;
          }
        }
      }
    }
  }

  /** in_packet after a history, from a given start. */
  predicate After(inPacket: bool, h: seq<Cycle>)
    decreases h
  {
    if h == [] then inPacket else NextInPacket(After(inPacket, h[..|h| - 1]), h[|h| - 1])
  }

  /** in_packet after a history that began idle. */
  predicate InPacket(h: seq<Cycle>) { After(false, h) }

  // ---------------------------------------------------------------- what first_beat means

  /** Beat u was accepted, did not end its packet, and nothing since has been accepted or reset. */
  ghost predicate OpenSince(h: seq<Cycle>, u: nat)
    requires u < |h|
  {
    && h[u].Accepted() && !h[u].last
    && (forall w :: u <= w < |h| ==> h[w].rstn)
    && (forall w :: u < w < |h| ==> !h[w].Accepted())
  }

  lemma {:induction false} InPacketMeansOpen(h: seq<Cycle>)
    ensures InPacket(h) <==> exists u :: 0 <= u < |h| && OpenSince(h, u)
  {
    if h != [] {
      var k := |h| - 1;
      var p := h[..k];
      InPacketMeansOpen(p);
      if InPacket(h) {
        if h[k].Accepted() {
          assert OpenSince(h, k);
        } else {
          var u :| 0 <= u < |p| && OpenSince(p, u);
          assert OpenSince(h, u);
        }
      }
      if u :| 0 <= u < |h| && OpenSince(h, u) {
        if u < k {
          assert OpenSince(p, u);
        }
      }
    }
  }

  /** A packet starts with an accepted beat before which no packet is open: since the last accepted
      beat, if it did not carry tlast, there has been a reset. */
  ghost predicate StartsPacket(h: seq<Cycle>, t: nat)
    requires t < |h|
  {
    && h[t].Accepted()
    && forall u :: 0 <= u < t && h[u].Accepted() && (forall w :: u < w < t ==> !h[w].Accepted()) ==>
                     h[u].last || exists w :: u <= w <= t && !h[w].rstn
  }

  /** first_beat fires exactly on the beats that start a packet. */
  lemma FirstBeatIff(h: seq<Cycle>, t: nat)
    requires t < |h|
    ensures FirstBeat(InPacket(h[..t]), h[t]) <==> StartsPacket(h, t)
  {
    var p := h[..t];
    InPacketMeansOpen(p);
    if h[t].Accepted() && Holding(InPacket(p), h[t]) {
      var u :| 0 <= u < t && OpenSince(p, u);
      assert forall w :: u < w < t ==> h[w] == p[w];
      assert forall w :: u <= w <= t ==> h[w].rstn by {
        assert forall w :: u <= w < t ==> h[w] == p[w];
      }
    }
    if h[t].Accepted() && !StartsPacket(h, t) {
      var u :| 0 <= u < t && h[u].Accepted() && (forall w :: u < w < t ==> !h[w].Accepted())
                && !h[u].last && (forall w :: u <= w <= t ==> h[w].rstn);
      assert OpenSince(p, u);
    }
  }

  // ---------------------------------------------------------------- packets counted

  function Firings(inPacket: bool, h: seq<Cycle>): nat
    decreases h
  {
    if h == [] then 0
    else
      var p, c := h[..|h| - 1], h[|h| - 1];
      Firings(inPacket, p) + Bit(FirstBeat(After(inPacket, p), c))
  }

  function Ends(h: seq<Cycle>): nat
  {
    if h == [] then 0
    else Ends(h[..|h| - 1]) + Bit(h[|h| - 1].Accepted() && h[|h| - 1].last)
  }

  /** Out of reset, packets started, and the one open at first, are packets ended and the one still open. */
  lemma {:induction false} StartsBalanceEnds(inPacket: bool, h: seq<Cycle>)
    requires forall c | c in h :: c.rstn
    ensures Firings(inPacket, h) + Bit(inPacket) == Ends(h) + Bit(After(inPacket, h))
    decreases h
  {
    if h != [] {
      assert h[|h| - 1] in h;
      StartsBalanceEnds(inPacket, h[..|h| - 1]);
    }
  }

  /** The accepted beats of a history. */
  function Accepts(h: seq<Cycle>): seq<Cycle>
  {
    if h == [] then []
    else Accepts(h[..|h| - 1]) + if h[|h| - 1].Accepted() then [h[|h| - 1]] else []
  }

  /** Held in reset, the detector takes every accepted beat for the first of a packet. */
  lemma {:induction false} InResetEveryBeatIsFirst(inPacket: bool, h: seq<Cycle>)
    requires forall c | c in h :: !c.rstn
    ensures Firings(inPacket, h) == |Accepts(h)|
    decreases h
  {
    if h != [] {
      assert h[|h| - 1] in h;
      InResetEveryBeatIsFirst(inPacket, h[..|h| - 1]);
    }
  }

  /** For each accepted beat, whether it is detected. */
  function Detections(inPacket: bool, h: seq<Cycle>): seq<bool>
    decreases h
  {
    if h == [] then []
    else
      var p, c := h[..|h| - 1], h[|h| - 1];
      Detections(inPacket, p) + if c.Accepted() then [SyncDetected(After(inPacket, p), c)] else []
  }

  lemma {:induction false} StallsDropOut(inPacket: bool, h: seq<Cycle>)
    requires forall c | c in h :: c.rstn
    ensures Detections(inPacket, h) == Detections(inPacket, Accepts(h))
    ensures After(inPacket, h) == After(inPacket, Accepts(h))
    decreases h
  {
    if h != [] {
      var p, c := h[..|h| - 1], h[|h| - 1];
      assert c in h;
      StallsDropOut(inPacket, p);
      if c.Accepted() {
        assert Accepts(h)[..|Accepts(p)|] == Accepts(p);
      } else {
        assert Accepts(h) == Accepts(p);
      }
    }
  }

  /** Stalled cycles, however many are put in or taken out, change no beat's detection. */
  lemma StallsDoNotMatter(inPacket: bool, h: seq<Cycle>, g: seq<Cycle>)
    requires forall c | c in h + g :: c.rstn
    requires Accepts(h) == Accepts(g)
    ensures Detections(inPacket, h) == Detections(inPacket, g) && After(inPacket, h) == After(inPacket, g)
  {
    assert forall c | c in h :: c in h + g;
    assert forall c | c in g :: c in h + g;
    StallsDropOut(inPacket, h);
    StallsDropOut(inPacket, g);
  }
}

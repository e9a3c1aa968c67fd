/**
 What the two sides of a connection may conclude from the numbers the fast path sends and
 accepts: windows, acknowledgements, the FIN, and the counters of application bumps.
 */
module FlowControl {
  import opened Common
  import opened Ring
  import opened FastPath
  import opened StreamTransfer
  import opened FlowRuns

  // ----- the receive window -----

  lemma InOrderConserves(h: Helpers, s: Flow, payload: seq<Byte>)
    requires HelpersOk(h) && Shape(s) && |payload| <= s.rxAvail
    ensures var (t, bump) := InOrderData(h, s, payload);
            bump <= s.rxAvail && t.rxAvail == s.rxAvail - bump && t.rxFin == s.rxFin
  {
    hide HelpersOk, Add32, Sub32, Write;
    if |payload| > 0 {
      var s1 := Deliver(s, payload);
      TrimmedFits(h, s1);
      TrimContract(h, s1);
    }
  }

  lemma ReceiveConserves(h: Helpers, s: Flow, p: Packet)
    requires HelpersOk(h) && Shape(s)
    ensures var r := Receive(h, s, p); r.rxBump <= s.rxAvail && r.s.rxAvail == s.rxAvail - r.rxBump
  {
    hide HelpersOk, Add32, Sub32, Write, InOrderData, SeqPosition;
    ArrivalContract(h, s, p);
    var r := h.trimRxBuf(s.rxNextSeq, s.rxAvail, p.sq, |p.payload|);
    if r.Some? {
      var payload := p.payload[r.value.0..|p.payload| - r.value.1];
      var sq := Add32(p.sq, r.value.0);
      if sq == s.rxNextSeq {
        OffsetZero(sq);
        var s1 := s.(rxRemoteAvail := p.wnd);
        SameRxShape(s, s1);
        InOrderConserves(h, s1, payload);
      }
    }
  }

  /** The window shrinks by exactly the bytes announced to the application, for any packet. */
  lemma WindowConserved(h: Helpers, s: Flow, p: Packet)
    requires HelpersOk(h) && Shape(s)
    ensures var o := ProcessPacket(h, s, p);
            && o.rxBump <= s.rxAvail && o.s.rxAvail == s.rxAvail - o.rxBump
            && o.txBump <= s.txSent
  {
    hide HelpersOk, Receive, Add32, Sub32, ResetRetransmit;
    AckContract(h, s, p);
    AckKeepsShape(h, s, p);
    ReceiveConserves(h, ProcessAck(h, s, p).s, p);
  }

  /** A segment acknowledges exactly the bytes received, plus the FIN once it has been, and
      never advertises more window than is free. */
  lemma AcknowledgesReceived(w: World, h: Helpers, s: Flow, y: History)
    requires HelpersOk(h) && Inv(w, s, y) && SendSegment(h, s).Some?
    ensures var g := SendSegment(h, s).value;
            && g.ack == (w.irs + y.rx + FinCount(s)) % U32
            && g.wnd <= s.rxAvail && (g.wnd < s.rxAvail ==> g.wnd == 0xFFFF)
  {
    hide HelpersOk, TxInv, Read, Slot, Holds, SendLength;
  }

  // ----- the FIN -----

  lemma FinAccepted(s: Flow, p: Packet)
    requires ProcessFin(s, p).1
    ensures var t := ProcessFin(s, p).0;
            !s.rxFin && t.rxFin && s.rxNextSeq == Add32(p.sq, |p.payload|) && t.rxNextSeq == Add32(s.rxNextSeq, 1)
  {
  }

  lemma FinFromReceive(h: Helpers, s: Flow, p: Packet)
    requires HelpersOk(h) && Shape(s) && Receive(h, s, p).finBump
    ensures var t := Receive(h, s, p).s; t.rxFin && t.rxNextSeq == Add32(Add32(p.sq, |p.payload|), 1)
  {
    hide HelpersOk, Add32, Sub32, InOrderData, OutOfOrder, ProcessFin;
    ArrivalContract(h, s, p);
    var r := h.trimRxBuf(s.rxNextSeq, s.rxAvail, p.sq, |p.payload|);
    var payload := p.payload[r.value.0..|p.payload| - r.value.1];
    OffsetZero(s.rxNextSeq);
    var s1 := s.(rxRemoteAvail := p.wnd);
    SameRxShape(s, s1);
    FinAccepted(InOrderData(h, s1, payload).0, p);
  }

  lemma EndOfStream(irs: nat, at: int, n: nat, rx: nat, sq: nat)
    requires sq == (irs + at) % U32 && -U32 < at + n - rx < U32
    requires Add32(Add32(sq, n), 1) == (irs + rx + 1) % U32
    ensures at + n == rx
  {
    AddMod(irs + at, n);
    AddMod(irs + at + n, 1);
    NearbyEqual(irs + at + n + 1, irs + rx + 1);
  }

  lemma ReceivedSeq(w: World, s: Flow, y: History)
    requires Inv(w, s, y)
    ensures Shape(s) && s.rxLen < U32 / 2 && s.rxAvail <= s.rxLen && s.rxNextSeq == (w.irs + y.rx + FinCount(s)) % U32
  {
  }

  /** A FIN is announced only when every byte before it has been: the bytes received end where the
      segment with the FIN ends. */
  lemma FinMeansAllReceived(w: World, h: Helpers, s: Flow, y: History, p: Packet, at: int)
    requires HelpersOk(h) && Inv(w, s, y) && Genuine(w, s, y, Arrive(p, at))
    requires ProcessPacket(h, s, p).finBump
    ensures at + |p.payload| == y.rx + ProcessPacket(h, s, p).rxBump
  {
    hide HelpersOk, Inv, Receive, ProcessAck, Shape;
    ReceivedSeq(w, s, y);
    var o := ProcessPacket(h, s, p);
    var y' := NextHistory(h, s, y, Arrive(p, at));
    ArriveKeepsInv(w, h, s, y, p, at);
    WindowConserved(h, s, p);
    AckKeepsShape(h, s, p);
    FinFromReceive(h, ProcessAck(h, s, p).s, p);
    ReceivedSeq(w, o.s, y');
    hide Add32;
    EndOfStream(w.irs, at, |p.payload|, y'.rx, p.sq);
  }

  // ----- duplicate acknowledgements -----

  /** An ack without payload that acknowledges nothing new. */
  predicate IsDuplicate(h: Helpers, s: Flow, p: Packet) {
    && !s.slowpath && !p.isSyn && !p.oddFlags && p.isAck && p.payload == []
    && h.validRxAck(s.txNextSeq, s.txSent, p.ack) == Some(0)
  }

  /** A packet without payload leaves the transmit ring alone, and the receive ring but for a FIN. */
  lemma BareReceive(h: Helpers, s: Flow, p: Packet)
    requires HelpersOk(h) && Shape(s) && p.payload == []
    ensures var r := Receive(h, s, p);
            && Shape(r.s) && SameTx(s, r.s) && r.s.rxDupackCnt == s.rxDupackCnt && r.s.slowpath == s.slowpath
            && r.rxBump == 0 && (!p.isFin ==> SameRx(s, r.s))
  {
    hide HelpersOk, Add32, Sub32, TxShape, RxShape;
    ArrivalContract(h, s, p);
    ReceiveKeepsTx(h, s, p);
    SameTxShape(s, Receive(h, s, p).s);
    SameRxShape(s, s.(rxRemoteAvail := p.wnd));
    FinKeepsShape(s.(rxRemoteAvail := p.wnd), p);
  }

  /** A duplicate is counted and changes neither ring but for a FIN, unless it is the third; what
      else was a duplicate still is one. */
  lemma DuplicateCounted(h: Helpers, s: Flow, p: Packet)
    requires HelpersOk(h) && Shape(s) && IsDuplicate(h, s, p) && s.rxDupackCnt < 2
    ensures var o := ProcessPacket(h, s, p);
            && Shape(o.s) && SameTx(s, o.s) && (!p.isFin ==> SameRx(s, o.s))
            && (forall q :: IsDuplicate(h, s, q) ==> IsDuplicate(h, o.s, q))
            && o.s.rxDupackCnt == s.rxDupackCnt + 1 && o.rxBump == 0 && o.txBump == 0
  {
    hide HelpersOk, Receive, Add32, Sub32, ResetRetransmit, RxShape, TxShape;
    AckKeepsShape(h, s, p);
    BareReceive(h, ProcessAck(h, s, p).s, p);
  }

  lemma DuplicateRewinds(h: Helpers, s: Flow, p: Packet)
    requires HelpersOk(h) && Shape(s) && IsDuplicate(h, s, p) && s.rxDupackCnt == 2
    ensures ProcessPacket(h, s, p) == PacketOut(ResetRetransmit(s), 0, 0, false, 0)
  {
    hide HelpersOk, Receive, Add32, Sub32, RxShape, TxShape;
    AckContract(h, s, p);
  }

  /** Any three duplicates in a row, and no fewer, rewind transmission. */
  lemma ThirdDuplicateRewinds(h: Helpers, s: Flow, p1: Packet, p2: Packet, p3: Packet)
    requires HelpersOk(h) && Shape(s) && s.rxDupackCnt == 0
    requires IsDuplicate(h, s, p1) && IsDuplicate(h, s, p2) && IsDuplicate(h, s, p3)
    ensures var s1 := ProcessPacket(h, s, p1).s;
            Shape(s1) &&
            var s2 := ProcessPacket(h, s1, p2).s;
            Shape(s2) &&
            var s3 := ProcessPacket(h, s2, p3).s;
            && SameTx(s, s1) && SameTx(s, s2)
            && s3.txSent == 0 && s3.txAvail == Add32(s.txAvail, s.txSent) && s3.txNextSeq == Sub32(s.txNextSeq, s.txSent)
            && s3.rxDupackCnt == 0
  {
    hide HelpersOk, Add32, Sub32, RxShape, TxShape, Receive, ProcessPacket, IsDuplicate;
    DuplicateCounted(h, s, p1);
    var s1 := ProcessPacket(h, s, p1).s;
    DuplicateCounted(h, s1, p2);
    var s2 := ProcessPacket(h, s1, p2).s;
    DuplicateRewinds(h, s2, p3);
  }

  // ----- bump counters -----

  /** Bump number `d` after, or before, number `was`, in 16 bits. */
  function Ahead(was: Half, d: Half): Half {
    if was + d > UINT16_MAX then was + d - 0x1_0000 else was + d
  }

  function Behind(was: Half, d: Half): Half {
    if was < d then was + 0x1_0000 - d else was - d
  }

  /** A bump number `d` ahead is taken whatever the last one was, exactly for distances up to a
      quarter of the number space; a repeated number is taken too. */
  lemma ForwardBumpsTakenIff(d: Half)
    ensures (forall was: Half :: !StaleBump(was, Ahead(was, d))) <==> d <= 0x4000
  {
    if d > 0x4000 {
      assert StaleBump(UINT16_MAX, Ahead(UINT16_MAX, d));
    }
  }

  /** A bump number `d` behind is refused whatever the last one was, exactly for distances from 1
      to 32765. */
  lemma OldBumpsRefusedIff(d: Half)
    ensures (forall was: Half :: StaleBump(was, Behind(was, d))) <==> 1 <= d <= 32765
  {
    if d == 0 {
      assert !StaleBump(0, Behind(0, d));
    } else if d > 32765 {
      var was: Half := if d > 49149 then d else 49149;
      assert !StaleBump(was, Behind(was, d));
    }
  }
}

/**
 The flow state updated in place, one method per entry point.  Each method is tied to the
 function of `FastPath` that says what it does to the flow; what those functions guarantee
 over whole runs is proved in `FlowRuns`.
 */
module FastFlows {
  import opened Common
  import opened Ring
  import opened FastPath
  import opened StreamTransfer
  import opened FlowRuns

  // ----- copies -----

  /** `buf` with `src` from position `pos` on, without wrapping. */
  function Splice(buf: seq<Byte>, pos: nat, src: seq<Byte>): (r: seq<Byte>)
    requires pos + |src| <= |buf|
    ensures |r| == |buf|
  {
    buf[..pos] + src + buf[pos + |src|..]
  }

  /** The split write is one copy, or two around the end of the ring. */
  lemma WriteIsSplice(buf: seq<Byte>, pos: nat, src: seq<Byte>)
    requires pos < |buf| && |src| <= |buf|
    ensures if pos + |src| <= |buf| then Write(buf, pos, src) == Splice(buf, pos, src)
            else var part := |buf| - pos;
                 Write(buf, pos, src) == Splice(Splice(buf, pos, src[..part]), 0, src[part..])
  {
    if pos + |src| > |buf| {
      var part := |buf| - pos;
      var once := Splice(buf, pos, src[..part]);
      assert once == buf[..pos] + src[..part];
      assert once[|src| - part..] == buf[|src| - part..pos] + src[..part];
    }
  }

  /** The split read likewise. */
  lemma ReadIsSplice(buf: seq<Byte>, pos: nat, len: nat, dst: seq<Byte>)
    requires pos < |buf| && len <= |buf| && |dst| == len
    ensures if pos + len <= |buf| then Read(buf, pos, len) == Splice(dst, 0, buf[pos..pos + len])
            else var part := |buf| - pos;
                 Read(buf, pos, len) == Splice(Splice(dst, 0, buf[pos..pos + part]), part, buf[0..len - part])
  {
    if pos + len > |buf| {
      var part := |buf| - pos;
      assert buf[pos..pos + part] == buf[pos..] && buf[0..len - part] == buf[..len - part];
    }
  }

  method DmaRead(src: array<Byte>, pos: nat, len: nat, dst: array<Byte>, off: nat)
    requires src != dst && pos + len <= src.Length && off + len <= dst.Length
    modifies dst
    ensures dst[..] == Splice(old(dst[..]), off, src[pos..pos + len])
  {
    for i := 0 to len
      invariant forall k | 0 <= k < dst.Length :: dst[k] == if off <= k < off + i then src[pos + k - off] else old(dst[k])
    {
      dst[off + i] := src[pos + i];
    }
  }

  method DmaWrite(dst: array<Byte>, pos: nat, src: seq<Byte>)
    requires pos + |src| <= dst.Length
    modifies dst
    ensures dst[..] == Splice(old(dst[..]), pos, src)
  {
    for i := 0 to |src|
      invariant forall k | 0 <= k < dst.Length :: dst[k] == if pos <= k < pos + i then src[k - pos] else old(dst[k])
    {
      dst[pos + i] := src[i];
    }
  }

  class FlowState {
    const helpers: Helpers
    const rxLen: nat
    const txLen: nat
    const rxBuf: array<Byte>
    const txBuf: array<Byte>
    var rxNextPos: nat
    var rxNextSeq: nat
    var rxAvail: nat
    var rxOooStart: nat
    var rxOooLen: nat
    var rxRemoteAvail: nat
    var rxDupackCnt: nat
    var txNextPos: nat
    var txNextSeq: nat
    var txAvail: nat
    var txSent: nat
    var bumpSeq: nat
    var rxFin: bool
    var txFin: bool
    var slowpath: bool

    /** The state as a value. */
    ghost function Value(): Flow
      reads this, rxBuf, txBuf
    {
      Flow(rxLen, txLen, rxBuf[..], txBuf[..], rxNextPos, rxNextSeq, rxAvail, rxOooStart, rxOooLen,
           rxRemoteAvail, rxDupackCnt, txNextPos, txNextSeq, txAvail, txSent, bumpSeq, rxFin, txFin, slowpath)
    }

    ghost predicate Valid()
      reads this, rxBuf, txBuf
    {
      rxBuf != txBuf && HelpersOk(helpers) && Shape(Value())
    }

    constructor (helpers: Helpers, rxLen: nat, txLen: nat, irs: Word, iss: Word)
      requires HelpersOk(helpers) && 0 < rxLen < U32 / 2 && 0 < txLen < U32 / 2
      ensures Valid() && this.helpers == helpers && fresh(rxBuf) && fresh(txBuf)
      ensures Value() == Fresh(World(irs, iss, _ => 0), rxLen, txLen)
      ensures rxAvail == rxLen && txAvail == txSent == rxOooLen == 0 && rxNextSeq == irs && txNextSeq == iss
      ensures bumpSeq == rxDupackCnt == rxRemoteAvail == 0 && !rxFin && !txFin && !slowpath
    {
      this.helpers := helpers;
      this.rxLen, this.txLen := rxLen, txLen;
      rxBuf := new Byte[rxLen](_ => 0);
      txBuf := new Byte[txLen](_ => 0);
      rxNextPos, rxNextSeq, rxAvail, rxOooStart, rxOooLen := 0, irs, rxLen, 0, 0;
      rxRemoteAvail, rxDupackCnt := 0, 0;
      txNextPos, txNextSeq, txAvail, txSent := 0, iss, 0, 0;
      bumpSeq, rxFin, txFin, slowpath := 0, false, false, false;
    }

    // ----- split copies -----

    method FlowTxRead(pos: nat, len: nat, dst: array<Byte>)
      requires pos < txLen == txBuf.Length && len <= txLen && dst.Length == len && dst != txBuf
      modifies dst
      ensures dst[..] == Read(txBuf[..], pos, len)
    {
      hide Splice, Read;
      ReadIsSplice(txBuf[..], pos, len, dst[..]);
      if pos + len <= txLen {
        DmaRead(txBuf, pos, len, dst, 0);
      } else {
        var part := txLen - pos;
        DmaRead(txBuf, pos, part, dst, 0);
        DmaRead(txBuf, 0, len - part, dst, part);
      }
    }

    method FlowRxWrite(pos: nat, src: seq<Byte>)
      requires pos < rxLen == rxBuf.Length && |src| <= rxLen
      modifies rxBuf
      ensures rxBuf[..] == Write(old(rxBuf[..]), pos, src)
    {
      hide Splice, Write;
      WriteIsSplice(rxBuf[..], pos, src);
      if pos + |src| <= rxLen {
        DmaWrite(rxBuf, pos, src);
      } else {
        var part := rxLen - pos;
        DmaWrite(rxBuf, pos, src[..part]);
        DmaWrite(rxBuf, 0, src[part..]);
      }
    }

    /** The position assert holds for every segment that fits the window. */
    method FlowRxSeqWrite(sq: nat, src: seq<Byte>)
      requires Valid() && Fits(Value(), sq, src)
      modifies rxBuf
      ensures Value() == RxSeqWrite(old(Value()), sq, src)
    {
      var diff := Sub32(sq, rxNextSeq);
      var pos := Add32(rxNextPos, diff);
      if pos >= rxLen {
        pos := pos - rxLen;
      }
      assert pos < rxLen;
      FlowRxWrite(pos, src);
    }

    // ----- transmit side -----

    method FlowResetRetransmit()
      requires Valid()
      modifies this
      ensures Valid() && Value() == ResetRetransmit(old(Value()))
    {
      hide Add32, Sub32, Shape, HelpersOk;
      ghost var was := Value();
      ResetKeepsShape(was);
      rxDupackCnt := 0;
      txNextSeq := Sub32(txNextSeq, txSent);
      if txNextPos >= txSent {
        txNextPos := txNextPos - txSent;
      } else {
        var x := txSent - txNextPos;
        txNextPos := txLen - x;
      }
      txAvail := Add32(txAvail, txSent);
      rxRemoteAvail := Add32(rxRemoteAvail, txSent);
      txSent := 0;
    }

    method FastFlowsRetransmit()
      requires Valid()
      modifies this
      ensures Valid() && Value() == Retransmit(old(Value()))
    {
      if txSent == 0 {
        return;
      }
      FlowResetRetransmit();
    }

    /** Take the next `len` bytes into flight. */
    method TakeNext(len: nat)
      requires len <= txAvail
      modifies `txNextSeq, `txNextPos, `txSent, `txAvail
      ensures var pos := Add32(old(txNextPos), len);
              Value() == old(Value()).(txNextSeq := Add32(old(txNextSeq), len),
                                       txNextPos := if pos >= txLen then pos - txLen else pos,
                                       txSent := Add32(old(txSent), len),
                                       txAvail := old(txAvail) - len)
    {
      hide Add32;
      txNextSeq := Add32(txNextSeq, len);
      txNextPos := Add32(txNextPos, len);
      if txNextPos >= txLen {
        txNextPos := txNextPos - txLen;
      }
      txSent := Add32(txSent, len);
      txAvail := txAvail - len;
    }

    /** Send what may be sent; the length asserted positive before a FIN is. */
    method FastFlowsQman() returns (segment: Option<Segment>)
      requires Valid()
      modifies this
      ensures Valid() && Value() == SendState(helpers, old(Value()))
      ensures segment == SendSegment(helpers, old(Value()))
    {
      hide Add32, Sub32, Read, HelpersOk, RxShape;
      ghost var was := Value();
      SendContract(helpers, was);
      SendKeepsShape(helpers, was);
      var avail := helpers.txAvail(txAvail, rxRemoteAvail, txSent);
      if avail == 0 {
        return None;
      }
      var len := Min(avail, TCP_MSS);
      var txSeq, txPos, rxWnd, ack := txNextSeq, txNextPos, rxAvail, rxNextSeq;

      TakeNext(len);

      var fin := txFin && txAvail == 0;
      if fin {
        assert len > 0;
        len := len - 1;
      }
      assert Value() == SendState(helpers, was);
      var payload := new Byte[len](_ => 0);
      FlowTxRead(txPos, len, payload);
      segment := Some(Segment(txSeq, ack, Min(0xFFFF, rxWnd), payload[..], fin));
    }

    // ----- packets -----

    method AcceptAck(p: Packet) returns (txBump: nat, stop: bool)
      requires Valid()
      modifies this
      ensures Valid()
      ensures AckOut(Value(), txBump, stop) == ProcessAck(helpers, old(Value()), p)
    {
      hide HelpersOk, Shape, Add32, Sub32, ResetRetransmit;
      ghost var was := Value();
      AckKeepsShape(helpers, was, p);
      AckContract(helpers, was, p);
      txBump, stop := 0, false;
      var r := helpers.validRxAck(txNextSeq, txSent, p.ack);
      if p.isAck && r.Some? {
        txBump := r.value;
        assert txBump <= txSent;
        txSent := txSent - txBump;
        if txBump != 0 {
          rxDupackCnt := 0;
        } else if |p.payload| == 0 {
          rxDupackCnt := rxDupackCnt + 1;
          if rxDupackCnt >= 3 {
            DupackKeepsShape(was, rxDupackCnt);
            FlowResetRetransmit();
            ResetForgetsDupacks(was, was.rxDupackCnt + 1);
            stop := true;
          }
        }
      }
    }

    method StoreOutOfOrder(sq: Word, payload: seq<Byte>)
      requires Valid() && Fits(Value(), sq, payload)
      modifies this, rxBuf
      ensures Valid() && Value() == OutOfOrder(old(Value()), sq, payload)
    {
      OutOfOrderKeepsShape(Value(), sq, payload);
      if |payload| == 0 {
        return;
      }
      if rxOooLen == 0 {
        FlowRxSeqWrite(sq, payload);
        rxOooStart := sq;
        rxOooLen := |payload|;
      } else if Add32(sq, |payload|) == rxOooStart {
        FlowRxSeqWrite(sq, payload);
        rxOooStart := sq;
        rxOooLen := Add32(rxOooLen, |payload|);
      } else if Add32(rxOooStart, rxOooLen) == sq {
        FlowRxSeqWrite(sq, payload);
        rxOooLen := Add32(rxOooLen, |payload|);
      }
    }

    /** Count `n` more bytes as received; the position assert holds. */
    method Move(n: nat)
      requires n <= rxAvail <= rxLen < U32 / 2 && rxNextPos < rxLen
      modifies `rxAvail, `rxNextPos, `rxNextSeq
      ensures Value() == Advance(old(Value()), n)
    {
      rxAvail := rxAvail - n;
      rxNextPos := Add32(rxNextPos, n);
      if rxNextPos >= rxLen {
        rxNextPos := rxNextPos - rxLen;
      }
      assert rxNextPos < rxLen;
      rxNextSeq := Add32(rxNextSeq, n);
    }

    /** Bounds on the fields the absorption of the out-of-order interval works on. */
    ghost predicate Delivered()
      reads this, rxBuf, txBuf
    {
      HelpersOk(helpers) && rxAvail <= rxLen < U32 / 2 && rxNextPos < rxLen
    }

    /** Trim the out-of-order interval and, if it has been caught up with, count it as received. */
    method AbsorbOutOfOrder() returns (bump: nat)
      requires Delivered()
      modifies `rxOooStart, `rxOooLen, `rxAvail, `rxNextPos, `rxNextSeq
      ensures var t := TrimOoo(helpers, old(Value()));
              && (CaughtUp(t) ==> t.rxOooLen <= t.rxAvail)
              && Value() == AbsorbOoo(t) && bump == if CaughtUp(t) then t.rxOooLen else 0
    {
      ghost var was := Value();
      TrimmedFits(helpers, was);
      TrimContract(helpers, was);
      OffsetZero(rxNextSeq);
      hide Add32, Sub32, HelpersOk;
      bump := 0;
      if rxOooLen != 0 {
        var r := helpers.trimRxBuf(rxNextSeq, rxAvail, rxOooStart, rxOooLen);
        if r.None? {
          rxOooLen := 0;
        } else {
          rxOooStart := Add32(rxOooStart, r.value.0);
          rxOooLen := rxOooLen - (r.value.0 + r.value.1);
          if rxOooLen > 0 && rxOooStart == rxNextSeq {
            bump := rxOooLen;
            Move(rxOooLen);
            rxOooLen := 0;
          }
        }
      }
    }

    method AcceptInOrder(payload: seq<Byte>) returns (rxBump: nat)
      requires Valid() && |payload| <= rxAvail
      modifies this, rxBuf
      ensures Valid()
      ensures (Value(), rxBump) == InOrderData(helpers, old(Value()), payload)
    {
      hide Add32, Sub32, HelpersOk, Write, TrimOoo, AbsorbOoo, TxShape;
      ghost var was := Value();
      InOrderKeepsShape(helpers, was, payload);
      rxBump := 0;
      if |payload| > 0 {
        FlowRxWrite(rxNextPos, payload);
        Move(|payload|);
        assert Value() == Deliver(was, payload);
        var more := AbsorbOutOfOrder();
        rxBump := |payload| + more;
      }
    }

    method AcceptFin(p: Packet) returns (finBump: bool)
      requires Valid()
      modifies this
      ensures Valid() && (Value(), finBump) == ProcessFin(old(Value()), p)
    {
      FinKeepsShape(Value(), p);
      finBump := false;
      if p.isFin && !rxFin {
        if rxNextSeq == Add32(p.sq, |p.payload|) && rxOooLen == 0 {
          finBump := true;
          rxFin := true;
          rxNextSeq := Add32(rxNextSeq, 1);
        }
      }
    }

    method AcceptData(p: Packet) returns (rxBump: nat, finBump: bool, triggerAck: bool)
      requires Valid()
      modifies this, rxBuf
      ensures Valid()
      ensures RxOut(Value(), rxBump, finBump, triggerAck) == Receive(helpers, old(Value()), p)
    {
      hide Add32, Sub32, OutOfOrder, InOrderData, ProcessFin, HelpersOk, TxShape;
      ghost var was := Value();
      ArrivalContract(helpers, was, p);
      rxBump, finBump, triggerAck := 0, false, |p.payload| > 0;
      var r := helpers.trimRxBuf(rxNextSeq, rxAvail, p.sq, |p.payload|);
      if r.None? {
        return;
      }
      var payload := p.payload[r.value.0..|p.payload| - r.value.1];
      var sq := Add32(p.sq, r.value.0);
      if sq != rxNextSeq {
        triggerAck := true;
        StoreOutOfOrder(sq, payload);
        return;
      }
      OffsetZero(sq);
      rxRemoteAvail := p.wnd;
      assert SameRx(was, Value()) && SameTx(was, Value());
      SameRxShape(was, Value());
      SameTxShape(was, Value());
      if rxFin && |payload| > 0 {
        return;
      }
      rxBump := AcceptInOrder(payload);
      finBump := AcceptFin(p);
      if finBump {
        triggerAck := true;
      }
    }

    method FastFlowsPacket(p: Packet) returns (rxBump: nat, txBump: nat, finBump: bool, ret: int)
      requires Valid()
      modifies this, rxBuf
      ensures Valid()
      ensures PacketOut(Value(), rxBump, txBump, finBump, ret) == ProcessPacket(helpers, old(Value()), p)
    {
      rxBump, txBump, finBump, ret := 0, 0, false, -1;
      if slowpath {
        return;
      }
      if p.isSyn {
        return;
      }
      if p.oddFlags {
        slowpath := true;
        return;
      }
      var stop;
      txBump, stop := AcceptAck(p);
      if stop {
        ret := 0;
        return;
      }
      var triggerAck;
      rxBump, finBump, triggerAck := AcceptData(p);
      ret := if triggerAck then 1 else 0;
    }

    // ----- application -----

    /** The checks on a bump; a bump that is not stale leaves its number behind even if refused. */
    method CheckBump(seqNo: Half, rxBump: Word, txBump: Word, done: bool) returns (accepted: bool, newTxAvail: nat)
      modifies `bumpSeq
      ensures accepted == BumpAccepted(old(Value()), seqNo, rxBump, txBump, done)
      ensures accepted ==> newTxAvail == Add32(old(txAvail), if old(txFin) then 0 else txBump)
      ensures bumpSeq == if StaleBump(old(bumpSeq), seqNo) then old(bumpSeq) else seqNo
    {
      hide Add32;
      accepted, newTxAvail := false, 0;
      if (seqNo >= bumpSeq && seqNo - bumpSeq > UINT16_MAX / 2)
         || (seqNo < bumpSeq && (bumpSeq < (UINT16_MAX / 4) * 3 || seqNo > UINT16_MAX / 4)) {
        return;
      }
      bumpSeq := seqNo;
      var txMore: nat := txBump;
      if txFin && txMore != 0 {
        txMore := 0;
      } else if done && !txFin && txMore == 0 {
        return;
      }
      newTxAvail := Add32(txAvail, txMore);
      if txMore > txLen || newTxAvail > txLen || Add32(newTxAvail, txSent) > txLen {
        return;
      }
      if rxBump > rxLen || Add32(rxBump, rxAvail) > txLen {
        return;
      }
      accepted := true;
    }

    /** Take over what an accepted bump says. */
    method ApplyBump(newTxAvail: nat, rxBump: Word, done: bool)
      modifies `txFin, `txAvail, `rxAvail
      ensures Value() == old(Value()).(txFin := old(txFin) || done, txAvail := newTxAvail, rxAvail := Add32(old(rxAvail), rxBump))
    {
      hide Add32;
      if done && !txFin {
        txFin := true;
      }
      txAvail := newTxAvail;
      rxAvail := Add32(rxAvail, rxBump);
    }

    method FastFlowsBump(seqNo: Half, rxBump: Word, txBump: Word, done: bool) returns (segment: Option<Segment>)
      requires Valid()
      modifies this
      ensures Valid() <==> rxAvail <= rxLen
      ensures txLen <= rxLen || old(rxAvail) == 0 ==> Valid()
      ensures Value() == Bump(old(Value()), seqNo, rxBump, txBump, done)
      ensures segment == BumpSegment(helpers, old(Value()), seqNo, rxBump, txBump, done)
    {
      hide Add32, Sub32, HelpersOk, Shape, StaleBump, BumpAccepted;
      ghost var was := Value();
      BumpKeepsShape(was, seqNo, rxBump, txBump, done);
      BumpNotStale(was, seqNo, rxBump, txBump, done);
      segment := None;
      var rxAvailPrev := rxAvail;
      var accepted, newTxAvail := CheckBump(seqNo, rxBump, txBump, done);
      if !accepted {
        return;
      }
      var newAvail := helpers.txAvail(newTxAvail, rxRemoteAvail, txSent);
      ApplyBump(newTxAvail, rxBump, done);
      if newAvail == 0 && rxAvailPrev == 0 && rxAvail != 0 {
        segment := Some(Segment(txNextSeq, rxNextSeq, Min(0xFFFF, rxAvail), [], false));
      }
    }
  }

  // ----- bounds every entry point keeps, whatever arrives -----

  lemma ResetKeepsShape(s: Flow)
    requires Shape(s)
    ensures Shape(ResetRetransmit(s))
  {
    hide ResetRetransmit, RxShape, TxShape;
    ResetKeepsTx(s);
    SameRxShape(s, ResetRetransmit(s));
  }

  lemma BumpKeepsShape(s: Flow, bumpSeq: Half, rxBump: Word, txBump: Word, done: bool)
    requires Shape(s)
    ensures var t := Bump(s, bumpSeq, rxBump, txBump, done);
            && (Shape(t) <==> t.rxAvail <= t.rxLen)
            && (s.txLen <= s.rxLen || s.rxAvail == 0 ==> Shape(t))
  {
    hide Sub32, StaleBump;
  }

  lemma DupackKeepsShape(s: Flow, n: nat)
    requires Shape(s)
    ensures Shape(s.(rxDupackCnt := n))
  {
  }

  lemma ResetForgetsDupacks(s: Flow, n: nat)
    requires Shape(s)
    ensures Shape(s.(rxDupackCnt := n)) && ResetRetransmit(s.(rxDupackCnt := n)) == ResetRetransmit(s)
  {
  }

  lemma BumpNotStale(s: Flow, bumpSeq: nat, rxBump: nat, txBump: nat, done: bool)
    ensures BumpAccepted(s, bumpSeq, rxBump, txBump, done) ==> !StaleBump(s.bumpSeq, bumpSeq)
  {
  }

  lemma SendKeepsShape(h: Helpers, s: Flow)
    requires HelpersOk(h) && Shape(s)
    ensures Shape(SendState(h, s))
  {
    hide HelpersOk, SendLength, RxShape;
    SendContract(h, s);
    SameRxShape(s, SendState(h, s));
  }

  lemma OutOfOrderKeepsShape(s: Flow, sq: Word, payload: seq<Byte>)
    requires Shape(s) && Fits(s, sq, payload)
    ensures Shape(OutOfOrder(s, sq, payload))
  {
    hide Sub32, Add32, Write, SeqPosition;
    if s.rxOooLen > 0 {
      if Add32(sq, |payload|) == s.rxOooStart {
        OffsetAdd(sq, s.rxNextSeq, |payload|);
      } else if Add32(s.rxOooStart, s.rxOooLen) == sq {
        OffsetAdd(s.rxOooStart, s.rxNextSeq, s.rxOooLen);
      }
    }
  }

  /** Everything but where the out-of-order interval lies. */
  ghost predicate Bounded(s: Flow) {
    && 0 < s.rxLen < U32 / 2 && |s.rxBuf| == s.rxLen
    && s.rxNextPos < s.rxLen && s.rxNextSeq < U32 && s.rxOooStart < U32 && s.rxAvail <= s.rxLen
    && TxShape(s) && s.rxRemoteAvail < U32
  }

  lemma DeliverKeepsBounds(s: Flow, payload: seq<Byte>)
    requires Shape(s) && |payload| <= s.rxAvail
    ensures Bounded(Deliver(s, payload))
  {
    hide Write, Sub32;
  }

  lemma TrimKeepsBounds(h: Helpers, s: Flow)
    requires HelpersOk(h) && Bounded(s)
    ensures Bounded(TrimOoo(h, s))
  {
    hide HelpersOk, Sub32;
    TrimContract(h, s);
  }

  lemma AbsorbKeepsShape(s: Flow)
    requires Bounded(s) && (s.rxOooLen > 0 ==> Sub32(s.rxOooStart, s.rxNextSeq) + s.rxOooLen <= s.rxAvail)
    ensures CaughtUp(s) ==> s.rxOooLen <= s.rxAvail
    ensures Shape(AbsorbOoo(s))
  {
    hide Sub32;
  }

  lemma InOrderKeepsShape(h: Helpers, s: Flow, payload: seq<Byte>)
    requires HelpersOk(h) && Shape(s) && |payload| <= s.rxAvail
    ensures Shape(InOrderData(h, s, payload).0)
  {
    hide HelpersOk, Sub32, Deliver, TrimOoo, AbsorbOoo;
    if |payload| > 0 {
      var s1 := Deliver(s, payload);
      DeliverKeepsBounds(s, payload);
      TrimKeepsBounds(h, s1);
      TrimmedFits(h, s1);
      AbsorbKeepsShape(TrimOoo(h, s1));
    }
  }
}

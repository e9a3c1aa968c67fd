/**
 What every entry point of the fast path does to the flow, field by field, in plain arithmetic:
 how much a bump hands over, what is sent and when, what an acknowledgement, a timeout and an
 arriving segment change.  The functions of `FastPath` follow the code; these laws do not
 mention how they compute.
 */
module FlowLaws {
  import opened Common
  import opened Ring
  import opened FastPath
  import opened StreamTransfer
  import opened FlowRuns
  import opened FlowControl

  // ----- positions -----

  /** The byte `j` places after position `pos` of a ring. */
  function At(ring: seq<Byte>, pos: nat, j: nat): Byte
    requires |ring| > 0
  {
    ring[(pos + j) % |ring|]
  }

  /** `after` is `before` with `bytes` put `d` places after position `pos`, and nothing else changed. */
  ghost predicate Placed(before: seq<Byte>, after: seq<Byte>, pos: nat, d: nat, bytes: seq<Byte>) {
    && |after| == |before| > 0
    && forall j: nat | j < |before| ::
         At(after, pos, j) == if d <= j < d + |bytes| then bytes[j - d] else At(before, pos, j)
  }

  /** One conditional subtraction is a remainder. */
  lemma WrapIsMod(pos: nat, d: nat, length: nat)
    requires pos < length && d <= length
    ensures Wrap(pos + d, length) == (pos + d) % length
  {
    SlotStep(pos, d, length);
    SlotIsMod(pos + d, length);
  }

  lemma TwoWraps(pos: nat, d: nat, e: nat, length: nat)
    requires pos < length && d + e <= length
    ensures Wrap(Wrap(pos + d, length) + e, length) == (pos + d + e) % length
  {
    SlotStep(pos, d, length);
    SlotStep(pos + d, e, length);
    SlotIsMod(pos + d + e, length);
  }

  lemma Mod32(a: nat, b: nat)
    ensures Add32(a, b) == (a + b) % U32
  {
  }

  lemma WritePlaces(buf: seq<Byte>, pos: nat, d: nat, bytes: seq<Byte>)
    requires pos < |buf| && d + |bytes| <= |buf|
    ensures Wrap(pos + d, |buf|) < |buf| && Placed(buf, Write(buf, Wrap(pos + d, |buf|), bytes), pos, d, bytes)
  {
    hide Slot, Write, Wrap;
    SlotStep(pos, d, |buf|);
    SlotBelow(pos, |buf|);
    var after := Write(buf, Slot(pos + d, |buf|), bytes);
    forall j: nat | j < |buf|
      ensures At(after, pos, j) == if d <= j < d + |bytes| then bytes[j - d] else At(buf, pos, j)
    {
      SlotIsMod(pos + j, |buf|);
      ByteAfterWrite(buf, pos + d, bytes, pos, pos + j);
    }
  }

  lemma SlotBelow(k: nat, length: nat)
    requires k < length
    ensures Slot(k, length) == k
  {
  }

  // ----- timeouts and rewinding -----

  /** Everything in flight is waiting to be sent again. */
  ghost predicate Rewound(s: Flow, t: Flow)
    requires s.txSent <= s.txLen && s.txLen > 0
  {
    t == s.(rxDupackCnt := 0,
            txNextSeq := (s.txNextSeq - s.txSent) % U32,
            txNextPos := (s.txNextPos + s.txLen - s.txSent) % s.txLen,
            txAvail := s.txAvail + s.txSent,
            rxRemoteAvail := (s.rxRemoteAvail + s.txSent) % U32,
            txSent := 0)
  }

  lemma ResetIsRewound(s: Flow)
    requires Shape(s)
    ensures Rewound(s, ResetRetransmit(s))
  {
    WrapIsMod(s.txNextPos, s.txLen - s.txSent, s.txLen);
  }

  /** A timeout changes nothing if nothing is in flight, and else rewinds. */
  lemma TimeoutLaw(h: Helpers, s: Flow)
    requires HelpersOk(h) && Shape(s)
    ensures var t := NextFlow(h, s, Timeout);
            if s.txSent == 0 then t == s else Rewound(s, t)
  {
    hide HelpersOk, ResetRetransmit, Rewound;
    ResetIsRewound(s);
  }

  /** After a timeout in any run, everything from the first unacknowledged byte on waits to be sent, at its
      own sequence number and position. */
  lemma TimeoutStartsOver(w: World, h: Helpers, s: Flow, y: History)
    requires HelpersOk(h) && Inv(w, s, y)
    ensures var t := NextFlow(h, s, Timeout);
            && t.txNextSeq == (w.iss + y.una) % U32 && t.txNextPos == y.una % s.txLen
            && t.txAvail == |y.data| - y.una && t.txSent == 0
            && (s.txSent > 0 ==> t.rxDupackCnt == 0)
            && (s.txSent == 0 ==> t == s)
            && NextHistory(h, s, y, Timeout) == y
  {
    hide Slot, HelpersOk, RxInv;
    TimeoutLaw(h, s);
    TimeoutKeepsInv(w, s, y);
    SlotIsMod(y.una, s.txLen);
  }

  // ----- sending -----

  /** A segment goes out exactly if anything may be sent.  It takes what may be sent, up to one MSS, and
      carries the bytes that wait in the ring, all but the dummy byte that closes the stream. */
  lemma TransmitLaw(h: Helpers, s: Flow, y: History)
    requires HelpersOk(h) && Shape(s)
    ensures var allowed := h.txAvail(s.txAvail, s.rxRemoteAvail, s.txSent);
            var n := if allowed < 1448 then allowed else 1448;
            var t, g, y' := SendState(h, s), SendSegment(h, s), NextHistory(h, s, y, Transmit);
            && (g.Some? <==> allowed > 0)
            && (allowed == 0 ==> t == s && y' == y)
            && n <= s.txAvail
            && t == s.(txNextSeq := (s.txNextSeq + n) % U32, txNextPos := (s.txNextPos + n) % s.txLen,
                       txSent := s.txSent + n, txAvail := s.txAvail - n)
            && (g.Some? ==>
                  && |g.value.payload| + (if g.value.fin then 1 else 0) == n
                  && (g.value.fin <==> s.txFin && n == s.txAvail)
                  && g.value.sq == s.txNextSeq && g.value.ack == s.rxNextSeq
                  && g.value.wnd == (if s.rxAvail < 0xFFFF then s.rxAvail else 0xFFFF)
                  && (forall j: nat | j < |g.value.payload| :: g.value.payload[j] == At(s.txBuf, s.txNextPos, j))
                  && y' == y.(sent := y.sent + [Sent(y.una + s.txSent, n, g.value)]))
  {
    hide HelpersOk, Read, Shape, Wrap;
    SendBounds(h, s);
    var n := SendLength(h, s);
    TransmitState(h, s);
    if n == 0 {
      EmptySend(h, s);
    } else {
      TransmitBytes(h, s);
    }
  }

  lemma SendBounds(h: Helpers, s: Flow)
    requires HelpersOk(h) && Shape(s)
    ensures SendLength(h, s) <= s.txAvail <= s.txLen && s.txLen < U32 / 2 && 0 < s.txLen == |s.txBuf|
    ensures s.txNextPos < s.txLen && s.txNextSeq < U32 && s.txSent + s.txAvail <= s.txLen
    ensures h.txAvail(s.txAvail, s.rxRemoteAvail, s.txSent) <= s.txAvail
  {
    hide RxShape;
  }

  lemma TransmitState(h: Helpers, s: Flow)
    requires HelpersOk(h) && Shape(s)
    ensures var n := SendLength(h, s);
            n <= s.txAvail && s.txLen > 0 &&
            SendState(h, s) == s.(txNextSeq := (s.txNextSeq + n) % U32, txNextPos := (s.txNextPos + n) % s.txLen,
                                  txSent := s.txSent + n, txAvail := s.txAvail - n)
  {
    hide HelpersOk, Shape, SendLength;
    SendBounds(h, s);
    WrapIsMod(s.txNextPos, SendLength(h, s), s.txLen);
  }

  lemma TransmitBytes(h: Helpers, s: Flow)
    requires HelpersOk(h) && Shape(s) && SendSegment(h, s).Some?
    ensures |s.txBuf| > 0
    ensures var payload := SendSegment(h, s).value.payload;
            forall j: nat | j < |payload| :: payload[j] == At(s.txBuf, s.txNextPos, j)
  {
    hide HelpersOk, Shape, SendLength, Read, Wrap;
    SendBounds(h, s);
    var payload := SendSegment(h, s).value.payload;
    ReadSlots(s.txBuf, s.txNextPos, |payload|);
    forall j: nat | j < |payload|
      ensures payload[j] == At(s.txBuf, s.txNextPos, j)
    {
      WrapIsMod(s.txNextPos, j, s.txLen);
    }
  }

  lemma EmptySend(h: Helpers, s: Flow)
    requires HelpersOk(h) && Shape(s) && SendLength(h, s) == 0
    ensures SendState(h, s) == s
  {
    hide HelpersOk, SendLength, RxShape;
  }

  // ----- bumps -----

  /** Bump numbers of 16 bits: at most 32767 ahead without wrapping, or from the last quarter to the first. */
  lemma StaleIff(was: Half, now: Half)
    ensures StaleBump(was, now) <==> if now >= was then now > was + 32767 else was < 49149 || now > 16383
  {
  }

  /** A bump is accepted exactly if its number is in order, a close comes with its dummy byte, and what it
      hands over and frees fits; on a closed flow it hands over nothing. */
  lemma AcceptedIff(s: Flow, bumpSeq: Half, rxBump: Word, txBump: Word, done: bool)
    requires Shape(s)
    ensures BumpAccepted(s, bumpSeq, rxBump, txBump, done) <==>
              && !StaleBump(s.bumpSeq, bumpSeq)
              && (done && !s.txFin ==> txBump > 0)
              && (!s.txFin ==> s.txAvail + s.txSent + txBump <= s.txLen)
              && rxBump <= s.rxLen && s.rxAvail + rxBump <= s.txLen
  {
    hide StaleBump, RxShape;
    RxBounds(s);
  }

  lemma RxBounds(s: Flow)
    requires RxShape(s)
    ensures s.rxAvail <= s.rxLen < U32 / 2 && s.rxNextPos < s.rxLen == |s.rxBuf|
    ensures s.rxNextSeq < U32 && s.rxOooStart < U32
    ensures s.rxOooLen > 0 ==> Sub32(s.rxOooStart, s.rxNextSeq) + s.rxOooLen <= s.rxAvail
  {
  }

  /** An accepted bump adds exactly the bytes handed over, none on a closed flow, and exactly the space freed,
      whatever else it says; a refused one leaves its number unless it is stale. */
  lemma BumpLaw(s: Flow, bumpSeq: Half, rxBump: Word, txBump: Word, done: bool)
    requires Shape(s)
    ensures var t := Bump(s, bumpSeq, rxBump, txBump, done);
            if StaleBump(s.bumpSeq, bumpSeq) then t == s
            else if !BumpAccepted(s, bumpSeq, rxBump, txBump, done) then t == s.(bumpSeq := bumpSeq)
            else t == s.(bumpSeq := bumpSeq, txFin := s.txFin || done,
                         txAvail := s.txAvail + (if s.txFin then 0 else txBump), rxAvail := s.rxAvail + rxBump)
  {
    hide StaleBump, RxShape, Add32, BumpAccepted;
    RxBounds(s);
    if BumpAccepted(s, bumpSeq, rxBump, txBump, done) {
      AcceptedIff(s, bumpSeq, rxBump, txBump, done);
    } else if !StaleBump(s.bumpSeq, bumpSeq) {
    }
    AcceptedNotStale(s, bumpSeq, rxBump, txBump, done);
  }

  lemma AcceptedNotStale(s: Flow, bumpSeq: nat, rxBump: nat, txBump: nat, done: bool)
    ensures BumpAccepted(s, bumpSeq, rxBump, txBump, done) ==> !StaleBump(s.bumpSeq, bumpSeq)
  {
  }

  /** The data handed over grows by exactly that many bytes, and a close makes the last one the dummy byte. */
  lemma HandedLaw(h: Helpers, s: Flow, y: History, e: Event)
    requires HelpersOk(h) && Shape(s) && Allowed(s, e) && e.AppBump?
    ensures var y' := NextHistory(h, s, y, e);
            var accepted := BumpAccepted(s, e.bumpSeq, e.rxBump, e.txBump, e.done);
            && y.data <= y'.data && |y'.data| == |y.data| + (if accepted && !s.txFin then e.txBump else 0)
            && y'.finAt == (if accepted && e.done && !s.txFin then |y'.data| - 1 else y.finAt)
            && y'.rx == y.rx && y'.una == y.una && y'.sent == y.sent
  {
    hide StaleBump, HelpersOk, Add32, Read, Wrap;
    if BumpAccepted(s, e.bumpSeq, e.rxBump, e.txBump, e.done) {
      AcceptedFits(s, e.bumpSeq, e.rxBump, e.txBump, e.done);
    }
  }

  /** A window update goes out exactly if an accepted bump opens a closed receive window and nothing else
      may be sent that would announce it. */
  lemma WindowUpdateLaw(h: Helpers, s: Flow, bumpSeq: Half, rxBump: Word, txBump: Word, done: bool)
    requires Shape(s)
    ensures var g := BumpSegment(h, s, bumpSeq, rxBump, txBump, done);
            && (g.Some? <==>
                  && BumpAccepted(s, bumpSeq, rxBump, txBump, done) && s.rxAvail == 0 && rxBump > 0
                  && h.txAvail(s.txAvail + (if s.txFin then 0 else txBump), s.rxRemoteAvail, s.txSent) == 0)
            && (g.Some? ==>
                  g.value == Segment(s.txNextSeq, s.rxNextSeq, if rxBump < 0xFFFF then rxBump else 0xFFFF, [], false))
  {
    hide StaleBump, Bump, BumpAccepted, Shape;
    BumpLaw(s, bumpSeq, rxBump, txBump, done);
    AcceptedNotStale(s, bumpSeq, rxBump, txBump, done);
  }

  /** What the application writes lies where it was told to, counted from the end of what it handed over. */
  lemma FillLaw(s: Flow, off: nat, bytes: seq<Byte>)
    requires Shape(s) && Allowed(s, Fill(off, bytes))
    ensures var t := AppWrite(s, off, bytes);
            && t == s.(txBuf := t.txBuf)
            && Placed(s.txBuf, t.txBuf, (s.txNextPos + s.txAvail) % s.txLen, off, bytes)
  {
    hide Write, RxShape, Placed, Wrap;
    WrapIsMod(s.txNextPos, s.txAvail, s.txLen);
    WritePlaces(s.txBuf, (s.txNextPos + s.txAvail) % s.txLen, off, bytes);
  }

  /** Bytes written and then handed over are what the data grows by. */
  lemma WrittenIsHanded(h: Helpers, s: Flow, y: History, bytes: seq<Byte>, bumpSeq: Half, rxBump: Word, done: bool)
    requires HelpersOk(h) && Shape(s) && |bytes| < U32 && Allowed(s, Fill(0, bytes)) && !s.txFin
    ensures var t := AppWrite(s, 0, bytes);
            var e := AppBump(bumpSeq, rxBump, |bytes|, done);
            && Shape(t)
            && (BumpAccepted(t, bumpSeq, rxBump, |bytes|, done) && Allowed(t, e) ==>
                  NextHistory(h, t, y, e).data == y.data + bytes)
  {
    hide StaleBump, HelpersOk, Add32, Read, Write, RxShape;
    var t := AppWrite(s, 0, bytes);
    SameRxShape(s, t);
    if BumpAccepted(t, bumpSeq, rxBump, |bytes|, done) {
      AcceptedFits(t, bumpSeq, rxBump, |bytes|, done);
      RoundTrip(s.txBuf, Wrap(s.txNextPos + s.txAvail, s.txLen), bytes);
    }
  }

  // ----- acknowledgements -----

  /** The packet is handled on the fast path. */
  predicate Fast(s: Flow, p: Packet) {
    !s.slowpath && !p.isSyn && !p.oddFlags
  }

  /** The flow goes to the slow path for good exactly for odd flags without SYN; such a packet, a SYN, and any
      packet from then on changes nothing else. */
  lemma SlowPathLaw(h: Helpers, s: Flow, p: Packet)
    requires HelpersOk(h) && Shape(s)
    ensures var o := ProcessPacket(h, s, p);
            && (o.ret == -1 <==> !Fast(s, p))
            && (!Fast(s, p) ==>
                  o == PacketOut(s.(slowpath := s.slowpath || (p.oddFlags && !p.isSyn)), 0, 0, false, -1))
            && (Fast(s, p) ==> !o.s.slowpath && (o.ret == 0 || o.ret == 1))
  {
    hide HelpersOk, Shape, ProcessAck, Receive;
    if Fast(s, p) {
      AckKeepsPath(h, s, p);
      var a := ProcessAck(h, s, p);
      AckKeepsShape(h, s, p);
      if !a.stop {
        ReceiveKeepsCounts(h, a.s, p);
      }
    }
  }

  lemma AckKeepsPath(h: Helpers, s: Flow, p: Packet)
    requires HelpersOk(h) && Shape(s)
    ensures ProcessAck(h, s, p).s.slowpath == s.slowpath
  {
    hide HelpersOk, Shape;
    AckContract(h, s, p);
  }

  /** How many bytes an acknowledgement releases. */
  function Acknowledged(h: Helpers, s: Flow, p: Packet): nat {
    var r := h.validRxAck(s.txNextSeq, s.txSent, p.ack);
    if p.isAck && r.Some? then r.value else 0
  }

  /** The third duplicate in a row, or a later one. */
  predicate ThirdDuplicate(h: Helpers, s: Flow, p: Packet) {
    IsDuplicate(h, s, p) && s.rxDupackCnt >= 2
  }

  /** The flow once its acknowledgement is taken into account. */
  function Acked(h: Helpers, s: Flow, p: Packet): Flow
    requires HelpersOk(h)
  {
    AckContract(h, s, p);
    var n := Acknowledged(h, s, p);
    s.(txSent := s.txSent - n,
       rxDupackCnt := if n > 0 then 0 else if IsDuplicate(h, s, p) then s.rxDupackCnt + 1 else s.rxDupackCnt)
  }

  lemma AckStep(h: Helpers, s: Flow, p: Packet)
    requires HelpersOk(h) && Shape(s) && Fast(s, p)
    ensures var a := ProcessAck(h, s, p);
            && a.txBump == Acknowledged(h, s, p) && a.stop == ThirdDuplicate(h, s, p)
            && (a.stop ==> Rewound(s, a.s)) && (!a.stop ==> a.s == Acked(h, s, p))
  {
    hide HelpersOk, Rewound, ResetRetransmit, RxShape;
    AckContract(h, s, p);
    if ThirdDuplicate(h, s, p) {
      ResetForgets(s, s.rxDupackCnt + 1);
      ResetIsRewound(s);
    }
  }

  lemma ResetForgets(s: Flow, n: nat)
    requires Shape(s)
    ensures Shape(s.(rxDupackCnt := n)) && ResetRetransmit(s.(rxDupackCnt := n)) == ResetRetransmit(s)
  {
  }

  // ----- receiving, once the acknowledgement is taken into account -----

  lemma ArrivedFits(h: Helpers, s: Flow, p: Packet)
    requires HelpersOk(h)
    ensures var r := h.trimRxBuf(s.rxNextSeq, s.rxAvail, p.sq, |p.payload|);
            r.Some? ==>
              && r.value.0 + r.value.1 <= |p.payload|
              && Fits(s, Add32(p.sq, r.value.0), p.payload[r.value.0..|p.payload| - r.value.1])
  {
    ArrivalFits(h, s, p);
  }

  /** What becomes of the out-of-order interval when `bytes` arrive, not next in line, as number `sq` on: the
      interval is those bytes if there was none, the union if they touch either end, and else as it was. */
  ghost predicate IntervalGrows(s: Flow, t: Flow, sq: nat, bytes: seq<Byte>) {
    var n, d := |bytes|, Sub32(sq, s.rxNextSeq);
    if n == 0 then t == s
    else if s.rxOooLen == 0 then
      t == s.(rxBuf := t.rxBuf, rxOooStart := sq, rxOooLen := n) && Placed(s.rxBuf, t.rxBuf, s.rxNextPos, d, bytes)
    else if (sq + n) % U32 == s.rxOooStart then
      && t == s.(rxBuf := t.rxBuf, rxOooStart := sq, rxOooLen := n + s.rxOooLen)
      && Placed(s.rxBuf, t.rxBuf, s.rxNextPos, d, bytes)
    else if (s.rxOooStart + s.rxOooLen) % U32 == sq then
      t == s.(rxBuf := t.rxBuf, rxOooLen := s.rxOooLen + n) && Placed(s.rxBuf, t.rxBuf, s.rxNextPos, d, bytes)
    else t == s
  }

  lemma SeqWritePlaces(s: Flow, sq: nat, bytes: seq<Byte>)
    requires Shape(s) && Fits(s, sq, bytes)
    ensures var t := RxSeqWrite(s, sq, bytes);
            t == s.(rxBuf := t.rxBuf) && Placed(s.rxBuf, t.rxBuf, s.rxNextPos, Sub32(sq, s.rxNextSeq), bytes)
  {
    hide Sub32, Write, Placed, TxShape;
    SeqPositionInside(s, sq, bytes);
    WritePlaces(s.rxBuf, s.rxNextPos, Sub32(sq, s.rxNextSeq), bytes);
  }

  lemma SmallSum(a: nat, b: nat)
    requires a + b < U32
    ensures Add32(a, b) == a + b
  {
  }

  lemma OutOfOrderGrows(s: Flow, sq: nat, bytes: seq<Byte>)
    requires Shape(s) && Fits(s, sq, bytes)
    ensures IntervalGrows(s, OutOfOrder(s, sq, bytes), sq, bytes)
  {
    hide Add32, Sub32, RxSeqWrite, Placed, TxShape;
    RxBounds(s);
    SeqWritePlaces(s, sq, bytes);
    Mod32(sq, |bytes|);
    Mod32(s.rxOooStart, s.rxOooLen);
    if s.rxOooLen > 0 {
      SmallSum(s.rxOooLen, |bytes|);
    }
  }

  /** What becomes of the interval when `n` bytes arrive next in line: trimmed to the window that is left, its
      `m` bytes count as received exactly if it then starts at the new next byte. */
  ghost predicate IntervalAfter(h: Helpers, s: Flow, n: nat, m: int, start: nat, len: nat)
    requires n <= s.rxAvail
  {
    var next := (s.rxNextSeq + n) % U32;
    var r := h.trimRxBuf(next, s.rxAvail - n, s.rxOooStart, s.rxOooLen);
    if n == 0 || s.rxOooLen == 0 then m == 0 && start == s.rxOooStart && len == s.rxOooLen
    else if r.None? then m == 0 && len == 0
    else
      var left := s.rxOooLen - r.value.0 - r.value.1;
      && start == (s.rxOooStart + r.value.0) % U32
      && (if left > 0 && start == next then m == left && len == 0 else m == 0 && len == left)
  }

  /** `n + m` bytes more are received, the first `n` of them the ones that arrived. */
  ghost predicate Advanced(s: Flow, t: Flow, bytes: seq<Byte>, bump: nat)
    requires s.rxLen > 0 && bump <= s.rxAvail
  {
    && t == s.(rxBuf := t.rxBuf, rxOooStart := t.rxOooStart, rxOooLen := t.rxOooLen,
               rxNextPos := (s.rxNextPos + bump) % s.rxLen, rxNextSeq := (s.rxNextSeq + bump) % U32,
               rxAvail := s.rxAvail - bump)
    && Placed(s.rxBuf, t.rxBuf, s.rxNextPos, 0, bytes)
  }

  lemma AdvanceFields(s: Flow, n: nat)
    requires n <= s.rxAvail <= s.rxLen < U32 / 2 && s.rxNextPos < s.rxLen
    ensures Advance(s, n) == s.(rxAvail := s.rxAvail - n, rxNextPos := Wrap(s.rxNextPos + n, s.rxLen),
                                rxNextSeq := (s.rxNextSeq + n) % U32)
  {
  }

  lemma DeliverFields(s: Flow, bytes: seq<Byte>)
    requires Shape(s) && |bytes| <= s.rxAvail
    ensures var t, n := Deliver(s, bytes), |bytes|;
            && t == s.(rxBuf := t.rxBuf, rxAvail := s.rxAvail - n, rxNextPos := Wrap(s.rxNextPos + n, s.rxLen),
                       rxNextSeq := (s.rxNextSeq + n) % U32)
            && Placed(s.rxBuf, t.rxBuf, s.rxNextPos, 0, bytes)
            && Wrap(s.rxNextPos + n, s.rxLen) < s.rxLen
  {
    hide Sub32, Write, Placed, TxShape;
    RxBounds(s);
    WritePlaces(s.rxBuf, s.rxNextPos, 0, bytes);
    AdvanceFields(s.(rxBuf := Write(s.rxBuf, s.rxNextPos, bytes)), |bytes|);
  }

  lemma TrimFields(h: Helpers, s: Flow)
    requires HelpersOk(h)
    ensures var t := TrimOoo(h, s);
            var r := h.trimRxBuf(s.rxNextSeq, s.rxAvail, s.rxOooStart, s.rxOooLen);
            && t == s.(rxOooStart := t.rxOooStart, rxOooLen := t.rxOooLen)
            && (if s.rxOooLen == 0 then t == s
                else if r.None? then t.rxOooLen == 0
                else && r.value.0 + r.value.1 <= s.rxOooLen
                     && t.rxOooStart == (s.rxOooStart + r.value.0) % U32
                     && t.rxOooLen == s.rxOooLen - r.value.0 - r.value.1)
            && (CaughtUp(t) ==> t.rxOooLen <= t.rxAvail)
  {
    hide HelpersOk, Sub32;
    TrimContract(h, s);
    TrimmedFits(h, s);
  }

  lemma AbsorbFields(s: Flow)
    requires s.rxAvail <= s.rxLen < U32 / 2 && s.rxNextPos < s.rxLen && (CaughtUp(s) ==> s.rxOooLen <= s.rxAvail)
    ensures var m := if CaughtUp(s) then s.rxOooLen else 0;
            AbsorbOoo(s) == if m == 0 then s
                            else s.(rxAvail := s.rxAvail - m, rxNextPos := Wrap(s.rxNextPos + m, s.rxLen),
                                    rxNextSeq := (s.rxNextSeq + m) % U32, rxOooLen := 0)
  {
    hide Add32;
    if CaughtUp(s) {
      AdvanceFields(s, s.rxOooLen);
    }
  }

  lemma MovedTwice(pos: nat, next: nat, n: nat, m: nat, length: nat)
    requires pos < length && n + m <= length
    ensures Wrap(pos + n, length) == (pos + n) % length
    ensures Wrap(Wrap(pos + n, length) + m, length) == (pos + (n + m)) % length
    ensures ((next + n) % U32 + m) % U32 == (next + (n + m)) % U32
  {
    hide Wrap;
    WrapIsMod(pos, n, length);
    TwoWraps(pos, n, m, length);
    AddMod(next + n, m);
  }

  /** Delivered, its interval trimmed. */
  ghost predicate DeliveredTo(s: Flow, s2: Flow, bytes: seq<Byte>)
    requires |bytes| <= s.rxAvail
  {
    && s2 == s.(rxBuf := s2.rxBuf, rxAvail := s.rxAvail - |bytes|, rxNextPos := Wrap(s.rxNextPos + |bytes|, s.rxLen),
                rxNextSeq := (s.rxNextSeq + |bytes|) % U32, rxOooStart := s2.rxOooStart, rxOooLen := s2.rxOooLen)
    && Placed(s.rxBuf, s2.rxBuf, s.rxNextPos, 0, bytes)
  }

  lemma AdvancedTwice(s: Flow, s2: Flow, bytes: seq<Byte>, m: nat)
    requires s.rxAvail <= s.rxLen && s.rxNextPos < s.rxLen && |bytes| + m <= s.rxAvail && DeliveredTo(s, s2, bytes)
    ensures Advanced(s, s2.(rxAvail := s2.rxAvail - m, rxNextPos := Wrap(s2.rxNextPos + m, s.rxLen),
                            rxNextSeq := (s2.rxNextSeq + m) % U32, rxOooLen := 0), bytes, |bytes| + m)
  {
    hide Placed, Wrap;
    MovedTwice(s.rxNextPos, s.rxNextSeq, |bytes|, m, s.rxLen);
  }

  lemma AdvancedOnce(s: Flow, s2: Flow, bytes: seq<Byte>)
    requires s.rxAvail <= s.rxLen && s.rxNextPos < s.rxLen && |bytes| <= s.rxAvail && DeliveredTo(s, s2, bytes)
    ensures Advanced(s, s2, bytes, |bytes|)
  {
    hide Placed, Wrap;
    WrapIsMod(s.rxNextPos, |bytes|, s.rxLen);
  }

  lemma InOrderAdvances(h: Helpers, s: Flow, bytes: seq<Byte>)
    requires HelpersOk(h) && Shape(s) && 0 < |bytes| <= s.rxAvail
    ensures var (t, bump) := InOrderData(h, s, bytes);
            && |bytes| <= bump <= s.rxAvail && s.rxLen > 0 && Advanced(s, t, bytes, bump)
            && IntervalAfter(h, s, |bytes|, bump - |bytes|, t.rxOooStart, t.rxOooLen)
  {
    hide HelpersOk, Deliver, TrimOoo, AbsorbOoo, Placed, TxShape, Sub32, Wrap, Advanced, IntervalAfter, CaughtUp;
    RxBounds(s);
    DeliverFields(s, bytes);
    var s1 := Deliver(s, bytes);
    TrimFields(h, s1);
    var s2 := TrimOoo(h, s1);
    AbsorbFields(s2);
    var m := if CaughtUp(s2) then s2.rxOooLen else 0;
    assert DeliveredTo(s, s2, bytes);
    if m == 0 {
      AdvancedOnce(s, s2, bytes);
    } else {
      AdvancedTwice(s, s2, bytes, m);
    }
    AbsorbedInterval(h, s, s1, s2, |bytes|);
  }

  lemma AbsorbedInterval(h: Helpers, s: Flow, s1: Flow, s2: Flow, n: nat)
    requires HelpersOk(h) && 0 < n <= s.rxAvail && s2 == TrimOoo(h, s1)
    requires s1 == s.(rxBuf := s1.rxBuf, rxAvail := s.rxAvail - n, rxNextPos := s1.rxNextPos,
                      rxNextSeq := (s.rxNextSeq + n) % U32)
    ensures var m := if CaughtUp(s2) then s2.rxOooLen else 0;
            IntervalAfter(h, s, n, m, s2.rxOooStart, if m == 0 then s2.rxOooLen else 0)
  {
    hide HelpersOk, TrimOoo;
    TrimFields(h, s1);
  }

  /** What is left of an arriving packet's segment starts at the next expected byte. */
  predicate NextInLine(h: Helpers, s: Flow, p: Packet) {
    var r := h.trimRxBuf(s.rxNextSeq, s.rxAvail, p.sq, |p.payload|);
    r.Some? && (p.sq + r.value.0) % U32 == s.rxNextSeq
  }

  lemma DroppedReceive(h: Helpers, s: Flow, p: Packet)
    requires HelpersOk(h) && Shape(s) && h.trimRxBuf(s.rxNextSeq, s.rxAvail, p.sq, |p.payload|).None?
    ensures Receive(h, s, p) == RxOut(s, 0, false, |p.payload| > 0)
  {
  }

  lemma OutOfOrderReceive(h: Helpers, s: Flow, p: Packet)
    requires HelpersOk(h) && Shape(s) && !NextInLine(h, s, p)
    requires h.trimRxBuf(s.rxNextSeq, s.rxAvail, p.sq, |p.payload|).Some?
    ensures Receive(h, s, p) == RxOut(Receive(h, s, p).s, 0, false, true)
    ensures var (ts, te) := h.trimRxBuf(s.rxNextSeq, s.rxAvail, p.sq, |p.payload|).value;
            && ts + te <= |p.payload|
            && IntervalGrows(s, Receive(h, s, p).s, (p.sq + ts) % U32, p.payload[ts..|p.payload| - te])
  {
    hide HelpersOk, Shape, IntervalGrows, OutOfOrder, Sub32, InOrderData, ProcessFin;
    ArrivedFits(h, s, p);
    var (ts, te) := h.trimRxBuf(s.rxNextSeq, s.rxAvail, p.sq, |p.payload|).value;
    OutOfOrderGrows(s, Add32(p.sq, ts), p.payload[ts..|p.payload| - te]);
  }

  /** Next in line after the FIN: payload is dropped. */
  lemma LateReceive(h: Helpers, s: Flow, p: Packet)
    requires HelpersOk(h) && Shape(s) && NextInLine(h, s, p) && s.rxFin
    ensures Receive(h, s, p) == RxOut(s.(rxRemoteAvail := p.wnd), 0, false, |p.payload| > 0)
  {
    hide HelpersOk, Shape, OutOfOrder, Sub32, IntervalGrows;
    ArrivedFits(h, s, p);
  }

  lemma FinFields(s: Flow, p: Packet)
    requires !s.rxFin
    ensures var (t, fin) := ProcessFin(s, p);
            && fin == (p.isFin && s.rxOooLen == 0 && s.rxNextSeq == (p.sq + |p.payload|) % U32)
            && t == s.(rxFin := fin, rxNextSeq := if fin then (s.rxNextSeq + 1) % U32 else s.rxNextSeq)
  {
  }

  lemma NextInLineReceive(h: Helpers, s: Flow, p: Packet)
    requires HelpersOk(h) && Shape(s) && NextInLine(h, s, p) && !s.rxFin
    ensures h.trimRxBuf(s.rxNextSeq, s.rxAvail, p.sq, |p.payload|).Some?
    ensures var (ts, te) := h.trimRxBuf(s.rxNextSeq, s.rxAvail, p.sq, |p.payload|).value;
            var s1 := s.(rxRemoteAvail := p.wnd);
            && ts + te <= |p.payload| && |p.payload| - ts - te <= s.rxAvail && Shape(s1)
            && var (s2, bump) := InOrderData(h, s1, p.payload[ts..|p.payload| - te]);
               var (s3, fin) := ProcessFin(s2, p);
               Receive(h, s, p) == RxOut(s3, bump, fin, |p.payload| > 0 || fin)
  {
    hide HelpersOk, OutOfOrder, Sub32, InOrderData, ProcessFin, Shape;
    ArrivedFits(h, s, p);
    var (ts, te) := h.trimRxBuf(s.rxNextSeq, s.rxAvail, p.sq, |p.payload|).value;
    ShapeWithWindow(s, p.wnd);
    FitsNext(s, p.payload[ts..|p.payload| - te]);
  }

  lemma FitsNext(s: Flow, bytes: seq<Byte>)
    requires Shape(s)
    ensures Fits(s, s.rxNextSeq, bytes) ==> |bytes| <= s.rxAvail
  {
    OffsetZero(s.rxNextSeq);
  }

  /** Next in line before the FIN. */
  lemma InOrderReceive(h: Helpers, s: Flow, p: Packet)
    requires HelpersOk(h) && Shape(s) && NextInLine(h, s, p) && !s.rxFin
    ensures var (ts, te) := h.trimRxBuf(s.rxNextSeq, s.rxAvail, p.sq, |p.payload|).value;
            var r := Receive(h, s, p);
            var next := (s.rxNextSeq + r.rxBump) % U32;
            && ts + te <= |p.payload| && s.rxLen > 0
            && |p.payload| - ts - te <= r.rxBump <= s.rxAvail
            && IntervalAfter(h, s, |p.payload| - ts - te, r.rxBump - (|p.payload| - ts - te),
                             r.s.rxOooStart, r.s.rxOooLen)
            && r.finBump == (p.isFin && r.s.rxOooLen == 0 && next == (p.sq + |p.payload|) % U32)
            && r.s.rxFin == r.finBump
            && r.s.rxNextSeq == (if r.finBump then (next + 1) % U32 else next)
            && r.s.rxRemoteAvail == p.wnd
            && Advanced(s, r.s.(rxFin := false, rxNextSeq := next, rxRemoteAvail := s.rxRemoteAvail),
                        p.payload[ts..|p.payload| - te], r.rxBump)
            && r.triggerAck == (|p.payload| > 0 || r.finBump)
  {
    hide HelpersOk, Shape, Receive, InOrderData, ProcessFin, Placed, NextInLine, IntervalAfter;
    NextInLineReceive(h, s, p);
    LengthPositive(s);
    var (ts, te) := h.trimRxBuf(s.rxNextSeq, s.rxAvail, p.sq, |p.payload|).value;
    var bytes := p.payload[ts..|p.payload| - te];
    var s1 := s.(rxRemoteAvail := p.wnd);
    var (s2, bump) := InOrderData(h, s1, bytes);
    ReceivedInOrder(h, s1, bytes);
    SameInterval(h, s, s1, |bytes|, bump - |bytes|, s2.rxOooStart, s2.rxOooLen);
    FinFields(s2, p);
  }

  lemma LengthPositive(s: Flow)
    requires Shape(s)
    ensures s.rxLen > 0
  {
  }

  lemma SameInterval(h: Helpers, s: Flow, s1: Flow, n: nat, m: int, start: nat, len: nat)
    requires n <= s.rxAvail && s1 == s.(rxRemoteAvail := s1.rxRemoteAvail)
    ensures IntervalAfter(h, s1, n, m, start, len) == IntervalAfter(h, s, n, m, start, len)
  {
  }

  /** In-order data, if any. */
  lemma ReceivedInOrder(h: Helpers, s: Flow, bytes: seq<Byte>)
    requires HelpersOk(h) && Shape(s) && |bytes| <= s.rxAvail
    ensures var (t, bump) := InOrderData(h, s, bytes);
            && |bytes| <= bump <= s.rxAvail && s.rxLen > 0 && Advanced(s, t, bytes, bump)
            && IntervalAfter(h, s, |bytes|, bump - |bytes|, t.rxOooStart, t.rxOooLen)
  {
    hide HelpersOk, Shape, InOrderData, Advanced;
    if |bytes| > 0 {
      InOrderAdvances(h, s, bytes);
    } else {
      NothingInOrder(h, s, bytes);
    }
  }

  lemma ShapeWithWindow(s: Flow, wnd: Half)
    requires Shape(s)
    ensures Shape(s.(rxRemoteAvail := wnd))
  {
    SameRxShape(s, s.(rxRemoteAvail := wnd));
  }

  lemma NothingInOrder(h: Helpers, s: Flow, bytes: seq<Byte>)
    requires HelpersOk(h) && Shape(s) && bytes == []
    ensures InOrderData(h, s, bytes) == (s, 0) && s.rxLen > 0 && Advanced(s, s, bytes, 0)
  {
    hide HelpersOk;
  }

  /** Receiving leaves the transmit side and the count of duplicates alone. */
  lemma ReceiveKeepsCounts(h: Helpers, s: Flow, p: Packet)
    requires HelpersOk(h) && Shape(s)
    ensures var t := Receive(h, s, p).s;
            SameTx(s, t) && t.rxDupackCnt == s.rxDupackCnt && t.slowpath == s.slowpath
  {
    hide HelpersOk, Shape, Receive, Placed, IntervalAfter, NextInLine;
    if h.trimRxBuf(s.rxNextSeq, s.rxAvail, p.sq, |p.payload|).None? {
      DroppedReceive(h, s, p);
    } else if !NextInLine(h, s, p) {
      OutOfOrderReceive(h, s, p);
    } else if s.rxFin {
      LateReceive(h, s, p);
    } else {
      InOrderReceive(h, s, p);
    }
  }

  /** An acknowledgement of `n` bytes releases exactly those and forgets duplicates; a duplicate is counted; the
      third one rewinds, and nothing else of its packet is looked at. */
  lemma AckLaw(h: Helpers, s: Flow, p: Packet, y: History, at: int)
    requires HelpersOk(h) && Shape(s) && Fast(s, p)
    ensures var o := ProcessPacket(h, s, p);
            var r := h.validRxAck(s.txNextSeq, s.txSent, p.ack);
            var n := if p.isAck && r.Some? then r.value else 0;
            && o.txBump == n && NextHistory(h, s, y, Arrive(p, at)).una == y.una + n
            && (ThirdDuplicate(h, s, p) ==> Rewound(s, o.s) && o.rxBump == 0 && !o.finBump && o.ret == 0)
            && (!ThirdDuplicate(h, s, p) ==>
                  && n <= s.txSent && o.s.txSent == s.txSent - n && SameTx(s, o.s.(txSent := s.txSent))
                  && o.s.rxDupackCnt == (if n > 0 then 0
                                         else if IsDuplicate(h, s, p) then s.rxDupackCnt + 1 else s.rxDupackCnt))
  {
    hide HelpersOk, Shape, ProcessAck, Receive, Rewound, IsDuplicate;
    AckStep(h, s, p);
    AckKeepsShape(h, s, p);
    AckContract(h, s, p);
    if !ThirdDuplicate(h, s, p) {
      ReceiveKeepsCounts(h, Acked(h, s, p), p);
    }
  }

  // ----- what a packet does to the receive side -----

  /** The packet's segment is looked at. */
  predicate Handled(h: Helpers, s: Flow, p: Packet) {
    Fast(s, p) && !ThirdDuplicate(h, s, p)
  }

  lemma HandledPacket(h: Helpers, s: Flow, p: Packet)
    requires HelpersOk(h) && Shape(s) && Handled(h, s, p)
    ensures var a := Acked(h, s, p);
            && Shape(a) && SameRx(s, a) && a.rxRemoteAvail == s.rxRemoteAvail
            && a.rxNextSeq == s.rxNextSeq && a.rxAvail == s.rxAvail && NextInLine(h, a, p) == NextInLine(h, s, p)
            && var r := Receive(h, a, p);
               ProcessPacket(h, s, p)
               == PacketOut(r.s, r.rxBump, Acknowledged(h, s, p), r.finBump, if r.triggerAck then 1 else 0)
  {
    hide HelpersOk, Shape, ProcessAck, Receive, IsDuplicate;
    AckStep(h, s, p);
    AckKeepsShape(h, s, p);
  }

  /** A segment that trimming rejects changes nothing, and is acknowledged if it carries payload. */
  lemma DroppedLaw(h: Helpers, s: Flow, p: Packet)
    requires HelpersOk(h) && Shape(s) && Handled(h, s, p)
    requires h.trimRxBuf(s.rxNextSeq, s.rxAvail, p.sq, |p.payload|).None?
    ensures ProcessPacket(h, s, p)
         == PacketOut(Acked(h, s, p), 0, Acknowledged(h, s, p), false, if |p.payload| > 0 then 1 else 0)
  {
    hide HelpersOk, Shape, ProcessPacket, Receive, Acked, ThirdDuplicate;
    HandledPacket(h, s, p);
    DroppedReceive(h, Acked(h, s, p), p);
  }

  /** A segment that is not next in line announces nothing and is acknowledged.  What is left of it becomes the
      out-of-order interval if there is none, extends it at the end it touches, or is dropped. */
  lemma OutOfOrderLaw(h: Helpers, s: Flow, p: Packet)
    requires HelpersOk(h) && Shape(s) && Handled(h, s, p) && !NextInLine(h, s, p)
    requires h.trimRxBuf(s.rxNextSeq, s.rxAvail, p.sq, |p.payload|).Some?
    ensures var o := ProcessPacket(h, s, p);
            var (ts, te) := h.trimRxBuf(s.rxNextSeq, s.rxAvail, p.sq, |p.payload|).value;
            && o == PacketOut(o.s, 0, Acknowledged(h, s, p), false, 1)
            && ts + te <= |p.payload|
            && IntervalGrows(Acked(h, s, p), o.s, (p.sq + ts) % U32, p.payload[ts..|p.payload| - te])
  {
    hide HelpersOk, Shape, ProcessPacket, Receive, Acked, ThirdDuplicate, IntervalGrows, NextInLine;
    HandledPacket(h, s, p);
    OutOfOrderReceive(h, Acked(h, s, p), p);
  }

  /** After the FIN a segment next in line brings a new window and nothing else. */
  lemma AfterFinLaw(h: Helpers, s: Flow, p: Packet)
    requires HelpersOk(h) && Shape(s) && Handled(h, s, p) && NextInLine(h, s, p) && s.rxFin
    ensures ProcessPacket(h, s, p)
         == PacketOut(Acked(h, s, p).(rxRemoteAvail := p.wnd), 0, Acknowledged(h, s, p), false,
                      if |p.payload| > 0 then 1 else 0)
  {
    hide HelpersOk, Shape, ProcessPacket, Receive, Acked, ThirdDuplicate, NextInLine;
    HandledPacket(h, s, p);
    LateReceive(h, Acked(h, s, p), p);
  }

  /** What is left of a segment next in line is received, and the out-of-order interval with it exactly if it then
      starts at the next byte.  Sequence number, position and window move by what is announced, and the
      remote window becomes the packet's.  A FIN counts exactly if nothing is missing before it. */
  lemma InOrderLaw(h: Helpers, s: Flow, p: Packet, y: History, at: int)
    requires HelpersOk(h) && Shape(s) && Handled(h, s, p) && NextInLine(h, s, p) && !s.rxFin
    ensures var a, o := Acked(h, s, p), ProcessPacket(h, s, p);
            var (ts, te) := h.trimRxBuf(s.rxNextSeq, s.rxAvail, p.sq, |p.payload|).value;
            && ts + te <= |p.payload| && s.rxLen > 0 && s.rxAvail == a.rxAvail
            && var n := |p.payload| - ts - te;
               var next := (s.rxNextSeq + o.rxBump) % U32;
               && n <= o.rxBump <= s.rxAvail
               && IntervalAfter(h, s, n, o.rxBump - n, o.s.rxOooStart, o.s.rxOooLen)
               && o.finBump == (p.isFin && o.s.rxOooLen == 0 && next == (p.sq + |p.payload|) % U32)
               && o.s.rxFin == o.finBump
               && o.s.rxNextSeq == (if o.finBump then (next + 1) % U32 else next)
               && o.s.rxRemoteAvail == p.wnd
               && Advanced(a, o.s.(rxFin := false, rxNextSeq := next, rxRemoteAvail := a.rxRemoteAvail),
                           p.payload[ts..|p.payload| - te], o.rxBump)
               && NextHistory(h, s, y, Arrive(p, at)).rx == y.rx + o.rxBump
               && o.ret == (if |p.payload| > 0 || o.finBump then 1 else 0)
  {
    hide HelpersOk, Shape, ProcessPacket, Receive, ThirdDuplicate, NextInLine, Advanced;
    HandledPacket(h, s, p);
    InOrderReceive(h, Acked(h, s, p), p);
  }

  // ----- deliveries over runs -----

  /** A segment that starts at the next expected byte, fits the window and is not trimmed, before the FIN. */
  predicate Delivers(h: Helpers, s: Flow, p: Packet) {
    && Handled(h, s, p) && !s.rxFin && p.sq == s.rxNextSeq
    && h.trimRxBuf(s.rxNextSeq, s.rxAvail, p.sq, |p.payload|) == Some((0, 0))
  }

  /** With no out-of-order interval it is received whole, and none comes to be. */
  lemma DeliveredWhole(h: Helpers, s: Flow, p: Packet)
    requires HelpersOk(h) && Shape(s) && Delivers(h, s, p) && s.rxOooLen == 0
    ensures var o := ProcessPacket(h, s, p); o.rxBump == |p.payload| && o.s.rxOooLen == 0
  {
    hide HelpersOk, ProcessPacket, ThirdDuplicate, Handled, Advanced, TxShape, Sub32;
    InOrderLaw(h, s, p, NO_HISTORY, 0);
  }

  /** A packet without payload announces nothing and leaves the interval alone. */
  lemma BareKeepsInterval(h: Helpers, s: Flow, p: Packet)
    requires HelpersOk(h) && Shape(s) && p.payload == []
    ensures var o := ProcessPacket(h, s, p); o.rxBump == 0 && o.s.rxOooLen == s.rxOooLen
  {
    hide HelpersOk, Shape, ProcessPacket, NextInLine, Acked, Advanced;
    if !Fast(s, p) {
      SlowPathLaw(h, s, p);
    } else if ThirdDuplicate(h, s, p) {
      AckLaw(h, s, p, NO_HISTORY, 0);
    } else {
      BareHandled(h, s, p);
    }
  }

  lemma BareHandled(h: Helpers, s: Flow, p: Packet)
    requires HelpersOk(h) && Shape(s) && Handled(h, s, p) && p.payload == []
    ensures var o := ProcessPacket(h, s, p); o.rxBump == 0 && o.s.rxOooLen == s.rxOooLen
  {
    hide HelpersOk, Shape, ProcessPacket, NextInLine, Handled, Advanced, Placed;
    HandledPacket(h, s, p);
    ArrivedFits(h, s, p);
    if h.trimRxBuf(s.rxNextSeq, s.rxAvail, p.sq, |p.payload|).None? {
      DroppedLaw(h, s, p);
    } else if !NextInLine(h, s, p) {
      OutOfOrderLaw(h, s, p);
    } else if s.rxFin {
      AfterFinLaw(h, s, p);
    } else {
      InOrderLaw(h, s, p, NO_HISTORY, 0);
    }
  }

  /** Every packet with payload delivers it, when its turn comes. */
  ghost predicate AllDeliver(w: World, h: Helpers, s: Flow, y: History, es: seq<Event>)
    requires HelpersOk(h) && Inv(w, s, y) && IsRun(w, h, s, y, es)
    decreases |es|
  {
    es == [] ||
    (&& (es[0].Arrive? && es[0].p.payload != [] ==> Delivers(h, s, es[0].p))
     && (StepKeepsInv(w, h, s, y, es[0]);
         AllDeliver(w, h, NextFlow(h, s, es[0]), NextHistory(h, s, y, es[0]), es[1..])))
  }

  /** Bytes of payload in the packets of a run. */
  function Payload(es: seq<Event>): nat {
    if es == [] then 0 else (if es[0].Arrive? then |es[0].p.payload| else 0) + Payload(es[1..])
  }

  lemma EventDelivers(w: World, h: Helpers, s: Flow, y: History, e: Event)
    requires HelpersOk(h) && Inv(w, s, y) && Allowed(s, e) && Genuine(w, s, y, e) && s.rxOooLen == 0
    requires e.Arrive? && e.p.payload != [] ==> Delivers(h, s, e.p)
    ensures NextFlow(h, s, e).rxOooLen == 0
    ensures NextHistory(h, s, y, e).rx == y.rx + (if e.Arrive? then |e.p.payload| else 0)
  {
    hide HelpersOk, Inv, Delivers, ProcessPacket, SendSegment, StaleBump, Handed, Add32, Sub32, Write;
    assert Shape(s) by { InvHasShape(w, s, y); }
    if e.Arrive? {
      if e.p.payload == [] {
        BareKeepsInterval(h, s, e.p);
      } else {
        DeliveredWhole(h, s, e.p);
      }
    }
  }

  lemma InvHasShape(w: World, s: Flow, y: History)
    requires Inv(w, s, y)
    ensures Shape(s)
  {
  }

  /** Segments that arrive in order, with whatever else happens in between, are all received: the bytes
      announced grow by exactly their lengths. */
  lemma {:induction false} InOrderRunDelivers(w: World, h: Helpers, s: Flow, y: History, es: seq<Event>)
    requires HelpersOk(h) && Inv(w, s, y) && IsRun(w, h, s, y, es) && AllDeliver(w, h, s, y, es) && s.rxOooLen == 0
    ensures var (s', y') := RunEvents(w, h, s, y, es); y'.rx == y.rx + Payload(es) && s'.rxOooLen == 0
    decreases |es|
  {
    hide HelpersOk, Inv, Delivers, NextFlow, NextHistory, Genuine, Shape;
    if es != [] {
      InvHasShape(w, s, y);
      StepKeepsInv(w, h, s, y, es[0]);
      EventDelivers(w, h, s, y, es[0]);
      InOrderRunDelivers(w, h, NextFlow(h, s, es[0]), NextHistory(h, s, y, es[0]), es[1..]);
    }
  }

  /** The helper that trims leaves alone what fits the window. */
  ghost predicate TrimsNothing(h: Helpers) {
    forall next, avail, sq, len :: Sub32(sq, next) + len <= avail ==> h.trimRxBuf(next, avail, sq, len) == Some((0, 0))
  }

  lemma NextOffset(next: nat, n: nat)
    requires next < U32 && n < U32
    ensures Sub32((next + n) % U32, next) == n && Sub32(next, next) == 0
  {
  }

  /** The second of two adjacent segments, arrived first, waits in the interval. */
  lemma SecondWaits(h: Helpers, s: Flow, p: Packet, n: nat)
    requires HelpersOk(h) && TrimsNothing(h) && Shape(s) && Handled(h, s, p) && s.rxOooLen == 0
    requires p.payload != [] && 0 < n && n + |p.payload| <= s.rxAvail && p.sq == (s.rxNextSeq + n) % U32
    ensures var o := ProcessPacket(h, s, p);
            && o.rxBump == 0 && o.s.rxNextSeq == s.rxNextSeq && o.s.rxAvail == s.rxAvail && o.s.rxFin == s.rxFin
            && o.s.rxOooStart == p.sq && o.s.rxOooLen == |p.payload|
  {
    hide HelpersOk, ProcessPacket, Handled, Placed, TxShape;
    RxBounds(s);
    NextOffset(s.rxNextSeq, n);
    OutOfOrderLaw(h, s, p);
    assert p.payload[0..|p.payload|] == p.payload;
  }

  /** The first one then brings both. */
  lemma FirstBringsBoth(h: Helpers, s: Flow, p: Packet, m: nat)
    requires HelpersOk(h) && TrimsNothing(h) && Shape(s) && Handled(h, s, p) && !s.rxFin
    requires p.payload != [] && |p.payload| + m <= s.rxAvail && p.sq == s.rxNextSeq
    requires s.rxOooLen == m > 0 && s.rxOooStart == (p.sq + |p.payload|) % U32
    ensures var o := ProcessPacket(h, s, p);
            o.rxBump == |p.payload| + m && o.s.rxOooLen == 0
  {
    hide HelpersOk, ProcessPacket, Handled, Advanced, TxShape, Acked;
    RxBounds(s);
    NextOffset(s.rxNextSeq, 0);
    NextOffset((s.rxNextSeq + |p.payload|) % U32, 0);
    InOrderLaw(h, s, p, NO_HISTORY, 0);
  }

  /** Two adjacent segments that arrive in the wrong order are received whole all the same. */
  lemma ReorderedPairDelivers(w: World, h: Helpers, s: Flow, y: History, first: Packet, second: Packet,
                              at: int, at': int)
    requires HelpersOk(h) && TrimsNothing(h) && Inv(w, s, y) && s.rxOooLen == 0 && !s.rxFin
    requires first.payload != [] && second.payload != [] && |first.payload| + |second.payload| <= s.rxAvail
    requires first.sq == s.rxNextSeq && second.sq == (first.sq + |first.payload|) % U32
    requires Handled(h, s, second) && Genuine(w, s, y, Arrive(second, at'))
    requires Shape(s) && Handled(h, NextFlow(h, s, Arrive(second, at')), first)
    ensures var s1, y1 := NextFlow(h, s, Arrive(second, at')), NextHistory(h, s, y, Arrive(second, at'));
            && y1.rx == y.rx && Inv(w, s1, y1) && Shape(s1)
            && var s2, y2 := NextFlow(h, s1, Arrive(first, at)), NextHistory(h, s1, y1, Arrive(first, at));
               y2.rx == y.rx + |first.payload| + |second.payload| && s2.rxOooLen == 0
  {
    hide HelpersOk, Inv, Shape, Handled, ProcessPacket, TrimsNothing, Genuine;
    StepKeepsInv(w, h, s, y, Arrive(second, at'));
    SecondWaits(h, s, second, |first.payload|);
    var s1, y1 := NextFlow(h, s, Arrive(second, at')), NextHistory(h, s, y, Arrive(second, at'));
    InvHasShape(w, s1, y1);
    FirstBringsBoth(h, s1, first, |second.payload|);
  }

  /** Every segment of a run takes at least one sequence number and at most one MSS of them. */
  ghost predicate Sized(y: History) {
    forall g | g in y.sent :: 1 <= g.taken <= 1448
  }

  lemma StepKeepsSized(h: Helpers, s: Flow, y: History, e: Event)
    requires HelpersOk(h) && Shape(s) && Allowed(s, e) && Sized(y)
    ensures Sized(NextHistory(h, s, y, e))
  {
    hide HelpersOk, Shape, ProcessPacket, SendSegment, SendState, StaleBump, Handed, Add32;
    if e.Transmit? {
      TransmitLaw(h, s, y);
    }
  }

  lemma {:induction false} RunKeepsSized(w: World, h: Helpers, s: Flow, y: History, es: seq<Event>)
    requires HelpersOk(h) && Inv(w, s, y) && IsRun(w, h, s, y, es) && Sized(y)
    ensures Sized(RunEvents(w, h, s, y, es).1)
    decreases |es|
  {
    hide HelpersOk, Inv, NextFlow, NextHistory, Genuine, Sized;
    if es != [] {
      InvHasShape(w, s, y);
      StepKeepsInv(w, h, s, y, es[0]);
      StepKeepsSized(h, s, y, es[0]);
      RunKeepsSized(w, h, NextFlow(h, s, es[0]), NextHistory(h, s, y, es[0]), es[1..]);
    }
  }
}

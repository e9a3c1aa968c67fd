/**
 The per-flow state of the TCP fast path and what each entry point does to it.

 All counters are unsigned 32-bit: additions and subtractions wrap modulo 2^32, and the
 facts that they do not wrap where they must not are proved, not assumed.
 */
module FastPath {
  import opened Common
  import opened Ring

  const U32 := 0x1_0000_0000
  const TCP_MSS := 1448
  const UINT16_MAX := 65535

  function Add32(a: nat, b: nat): (r: nat)
    ensures r < U32
    ensures a + b < U32 ==> r == a + b
  {
    (a + b) % U32
  }

  function Sub32(a: nat, b: nat): (r: nat)
    ensures r < U32
    ensures a < U32 && b <= a ==> r == a - b
  {
    (a - b) % U32
  }

  /** Header fields of 16 and 32 bits. */
  type Half = n: nat | n <= UINT16_MAX
  type Word = n: nat | n < U32

  function Min(a: nat, b: nat): nat {
    if a < b then a else b
  }

  datatype Flow = Flow(
    rxLen: nat, txLen: nat, rxBuf: seq<Byte>, txBuf: seq<Byte>,
    rxNextPos: nat, rxNextSeq: nat, rxAvail: nat, rxOooStart: nat, rxOooLen: nat,
    rxRemoteAvail: nat, rxDupackCnt: nat,
    txNextPos: nat, txNextSeq: nat, txAvail: nat, txSent: nat,
    bumpSeq: nat, rxFin: bool, txFin: bool, slowpath: bool)

  /** Helpers from headers that are not part of this model, known by contract only:
      what may be sent given (tx_avail, rx_remote_avail, tx_sent), how much an ack number
      acknowledges given (tx_next_seq, tx_sent, ack), and how a segment is trimmed to the
      receive window given (rx_next_seq, rx_avail, seq, length). */
  datatype Helpers = Helpers(
    txAvail: (nat, nat, nat) -> nat,
    validRxAck: (nat, nat, nat) -> Option<nat>,
    trimRxBuf: (nat, nat, nat, nat) -> Option<(nat, nat)>)

  ghost predicate HelpersOk(h: Helpers) {
    && (forall avail, remote, sent :: h.txAvail(avail, remote, sent) <= avail)
    && (forall next, sent, ack :: AckOk(h.validRxAck(next, sent, ack), sent))
    && (forall next, avail, sq, len :: TrimOk(h.trimRxBuf(next, avail, sq, len), next, avail, sq, len))
  }

  /** A valid ack acknowledges at most what is in flight. */
  predicate AckOk(r: Option<nat>, sent: nat) {
    r.Some? ==> r.value <= sent
  }

  /** Trimming, when it succeeds, leaves an interval inside the receive window. */
  predicate TrimOk(r: Option<(nat, nat)>, next: nat, avail: nat, sq: nat, len: nat) {
    r.Some? ==>
      && r.value.0 <= UINT16_MAX && r.value.1 <= UINT16_MAX
      && r.value.0 + r.value.1 <= len
      && Sub32(Add32(sq, r.value.0), next) + (len - r.value.0 - r.value.1) <= avail
  }

  /** Bounds on the receive side that every entry point relies on and keeps. */
  ghost predicate RxShape(s: Flow) {
    && 0 < s.rxLen < U32 / 2 && |s.rxBuf| == s.rxLen
    && s.rxNextPos < s.rxLen && s.rxNextSeq < U32 && s.rxOooStart < U32
    && s.rxAvail <= s.rxLen
    && (s.rxOooLen > 0 ==> Sub32(s.rxOooStart, s.rxNextSeq) + s.rxOooLen <= s.rxAvail)
  }

  ghost predicate TxShape(s: Flow) {
    && 0 < s.txLen < U32 / 2 && |s.txBuf| == s.txLen
    && s.txNextPos < s.txLen && s.txNextSeq < U32
    && s.txAvail + s.txSent <= s.txLen
  }

  ghost predicate Shape(s: Flow) {
    RxShape(s) && TxShape(s) && s.rxRemoteAvail < U32
  }

  // ----- sending -----

  datatype Segment = Segment(sq: nat, ack: nat, wnd: nat, payload: seq<Byte>, fin: bool)

  /** Undo all unacknowledged sends. */
  function ResetRetransmit(s: Flow): Flow
    requires Shape(s)
  {
    s.(rxDupackCnt := 0,
       txNextSeq := Sub32(s.txNextSeq, s.txSent),
       txNextPos := if s.txNextPos >= s.txSent then s.txNextPos - s.txSent
                    else s.txLen - (s.txSent - s.txNextPos),
       txAvail := Add32(s.txAvail, s.txSent),
       rxRemoteAvail := Add32(s.rxRemoteAvail, s.txSent),
       txSent := 0)
  }

  function Retransmit(s: Flow): Flow
    requires Shape(s)
  {
    if s.txSent == 0 then s else ResetRetransmit(s)
  }

  /** Sequence numbers the next send takes; one of them is the FIN's if it closes the stream. */
  function SendLength(h: Helpers, s: Flow): nat {
    Min(h.txAvail(s.txAvail, s.rxRemoteAvail, s.txSent), TCP_MSS)
  }

  function SendState(h: Helpers, s: Flow): Flow
    requires HelpersOk(h) && Shape(s)
  {
    var len := SendLength(h, s);
    var pos := Add32(s.txNextPos, len);
    s.(txNextSeq := Add32(s.txNextSeq, len),
       txNextPos := if pos >= s.txLen then pos - s.txLen else pos,
       txSent := Add32(s.txSent, len),
       txAvail := s.txAvail - len)
  }

  /** The segment sent, if anything may be sent.  The dummy byte of a FIN is not payload. */
  function SendSegment(h: Helpers, s: Flow): Option<Segment>
    requires HelpersOk(h) && Shape(s)
  {
    var len := SendLength(h, s);
    if len == 0 then None
    else
      var fin := s.txFin && s.txAvail == len;
      var payload := if fin then len - 1 else len;
      Some(Segment(s.txNextSeq, s.rxNextSeq, Min(0xFFFF, s.rxAvail), Read(s.txBuf, s.txNextPos, payload), fin))
  }

  // ----- acknowledgements -----

  datatype AckOut = AckOut(s: Flow, txBump: nat, stop: bool)

  function ProcessAck(h: Helpers, s: Flow, p: Packet): AckOut
    requires HelpersOk(h) && Shape(s)
  {
    var r := h.validRxAck(s.txNextSeq, s.txSent, p.ack);
    if !p.isAck || r.None? then AckOut(s, 0, false)
    else
      assert AckOk(r, s.txSent);
      var s1 := s.(txSent := s.txSent - r.value);
      if r.value != 0 then AckOut(s1.(rxDupackCnt := 0), r.value, false)
      else if |p.payload| == 0 then
        if s1.rxDupackCnt + 1 >= 3 then AckOut(ResetRetransmit(s1), 0, true)
        else AckOut(s1.(rxDupackCnt := s1.rxDupackCnt + 1), 0, false)
      else AckOut(s1, 0, false)
  }

  // ----- receiving -----

  datatype Packet = Packet(sq: Word, ack: Word, isAck: bool, isFin: bool, isSyn: bool, oddFlags: bool,
                           wnd: Half, payload: seq<Byte>)

  /** The bytes fit the window at their offset from the next expected one. */
  ghost predicate Fits(s: Flow, sq: nat, payload: seq<Byte>) {
    Sub32(sq, s.rxNextSeq) + |payload| <= s.rxAvail
  }

  function SeqPosition(s: Flow, sq: nat): nat {
    var pos := Add32(s.rxNextPos, Sub32(sq, s.rxNextSeq));
    if pos >= s.rxLen then pos - s.rxLen else pos
  }

  /** The position assert in the sequence write holds, even for an empty window. */
  lemma SeqPositionInside(s: Flow, sq: nat, payload: seq<Byte>)
    requires RxShape(s) && Fits(s, sq, payload)
    ensures SeqPosition(s, sq) < s.rxLen
    ensures SeqPosition(s, sq) == Wrap(s.rxNextPos + Sub32(sq, s.rxNextSeq), s.rxLen)
  {
  }

  function RxSeqWrite(s: Flow, sq: nat, payload: seq<Byte>): Flow
    requires Shape(s) && Fits(s, sq, payload)
  {
    SeqPositionInside(s, sq, payload);
    s.(rxBuf := Write(s.rxBuf, SeqPosition(s, sq), payload))
  }

  /** A segment that does not start at the next expected byte: it may start the out-of-order
      interval, or extend it at its front or its back, and is dropped otherwise. */
  function OutOfOrder(s: Flow, sq: nat, payload: seq<Byte>): Flow
    requires Shape(s) && Fits(s, sq, payload)
  {
    if |payload| == 0 then s
    else if s.rxOooLen == 0 then
      RxSeqWrite(s, sq, payload).(rxOooStart := sq, rxOooLen := |payload|)
    else if Add32(sq, |payload|) == s.rxOooStart then
      RxSeqWrite(s, sq, payload).(rxOooStart := sq, rxOooLen := Add32(s.rxOooLen, |payload|))
    else if Add32(s.rxOooStart, s.rxOooLen) == sq then
      RxSeqWrite(s, sq, payload).(rxOooLen := Add32(s.rxOooLen, |payload|))
    else s
  }

  /** `n` bytes at the next expected position now count as received. */
  function Advance(s: Flow, n: nat): Flow
    requires n <= s.rxAvail
  {
    var pos := Add32(s.rxNextPos, n);
    s.(rxAvail := s.rxAvail - n,
       rxNextPos := if pos >= s.rxLen then pos - s.rxLen else pos,
       rxNextSeq := Add32(s.rxNextSeq, n))
  }

  function Deliver(s: Flow, payload: seq<Byte>): Flow
    requires Shape(s) && |payload| <= s.rxAvail
  {
    Advance(s.(rxBuf := Write(s.rxBuf, s.rxNextPos, payload)), |payload|)
  }

  /** The out-of-order interval trimmed to the window that is left. */
  function TrimOoo(h: Helpers, s: Flow): Flow
    requires HelpersOk(h)
  {
    if s.rxOooLen == 0 then s
    else
      var r := h.trimRxBuf(s.rxNextSeq, s.rxAvail, s.rxOooStart, s.rxOooLen);
      assert TrimOk(r, s.rxNextSeq, s.rxAvail, s.rxOooStart, s.rxOooLen);
      if r.None? then s.(rxOooLen := 0)
      else s.(rxOooStart := Add32(s.rxOooStart, r.value.0), rxOooLen := s.rxOooLen - (r.value.0 + r.value.1))
  }

  /** The interval has been caught up with: its bytes count as received too. */
  predicate CaughtUp(s: Flow) {
    s.rxOooLen > 0 && s.rxOooStart == s.rxNextSeq
  }

  function AbsorbOoo(s: Flow): Flow
    requires CaughtUp(s) ==> s.rxOooLen <= s.rxAvail
  {
    if CaughtUp(s) then Advance(s, s.rxOooLen).(rxOooLen := 0) else s
  }

  lemma TrimmedFits(h: Helpers, s: Flow)
    requires HelpersOk(h)
    ensures var t := TrimOoo(h, s);
            t.rxOooLen > 0 ==> Sub32(t.rxOooStart, t.rxNextSeq) + t.rxOooLen <= t.rxAvail
  {
    var r := h.trimRxBuf(s.rxNextSeq, s.rxAvail, s.rxOooStart, s.rxOooLen);
    assert TrimOk(r, s.rxNextSeq, s.rxAvail, s.rxOooStart, s.rxOooLen);
  }

  datatype RxOut = RxOut(s: Flow, rxBump: nat, finBump: bool, triggerAck: bool)

  /** In-order data: write it, count it, and absorb what it makes contiguous. */
  function InOrderData(h: Helpers, s: Flow, payload: seq<Byte>): (r: (Flow, nat))
    requires HelpersOk(h) && Shape(s) && |payload| <= s.rxAvail
  {
    if |payload| == 0 then (s, 0)
    else
      var s1 := Deliver(s, payload);
      var s2 := TrimOoo(h, s1);
      TrimmedFits(h, s1);
      (AbsorbOoo(s2), |payload| + if CaughtUp(s2) then s2.rxOooLen else 0)
  }

  /** A FIN counts when everything before it has been received. */
  function ProcessFin(s: Flow, p: Packet): (r: (Flow, bool)) {
    if p.isFin && !s.rxFin && s.rxNextSeq == Add32(p.sq, |p.payload|) && s.rxOooLen == 0
    then (s.(rxFin := true, rxNextSeq := Add32(s.rxNextSeq, 1)), true)
    else (s, false)
  }

  function Receive(h: Helpers, s: Flow, p: Packet): RxOut
    requires HelpersOk(h) && Shape(s)
  {
    var r := h.trimRxBuf(s.rxNextSeq, s.rxAvail, p.sq, |p.payload|);
    if r.None? then RxOut(s, 0, false, |p.payload| > 0)
    else
      assert TrimOk(r, s.rxNextSeq, s.rxAvail, p.sq, |p.payload|);
      var payload := p.payload[r.value.0..|p.payload| - r.value.1];
      var sq := Add32(p.sq, r.value.0);
      if sq != s.rxNextSeq then RxOut(OutOfOrder(s, sq, payload), 0, false, true)
      else
        var s1 := s.(rxRemoteAvail := p.wnd);
        if s1.rxFin && |payload| > 0 then RxOut(s1, 0, false, true)
        else
          var (s2, rxBump) := InOrderData(h, s1, payload);
          var (s3, finBump) := ProcessFin(s2, p);
          RxOut(s3, rxBump, finBump, |p.payload| > 0 || finBump)
  }

  datatype PacketOut = PacketOut(s: Flow, rxBump: nat, txBump: nat, finBump: bool, ret: int)

  /** The whole of packet processing; `ret` is -1 for the slow path, else whether an ack goes out. */
  function ProcessPacket(h: Helpers, s: Flow, p: Packet): PacketOut
    requires HelpersOk(h) && Shape(s)
  {
    if s.slowpath then PacketOut(s, 0, 0, false, -1)
    else if p.isSyn then PacketOut(s, 0, 0, false, -1)
    else if p.oddFlags then PacketOut(s.(slowpath := true), 0, 0, false, -1)
    else
      var a := ProcessAck(h, s, p);
      AckKeepsShape(h, s, p);
      if a.stop then PacketOut(a.s, 0, a.txBump, false, 0)
      else
        var r := Receive(h, a.s, p);
        PacketOut(r.s, r.rxBump, a.txBump, r.finBump, if r.triggerAck then 1 else 0)
  }

  /** Same receive side. */
  predicate SameRx(s: Flow, t: Flow) {
    && t.rxLen == s.rxLen && t.rxBuf == s.rxBuf && t.rxNextPos == s.rxNextPos && t.rxNextSeq == s.rxNextSeq
    && t.rxAvail == s.rxAvail && t.rxOooStart == s.rxOooStart && t.rxOooLen == s.rxOooLen && t.rxFin == s.rxFin
  }

  /** Same transmit side. */
  predicate SameTx(s: Flow, t: Flow) {
    && t.txLen == s.txLen && t.txBuf == s.txBuf && t.txNextPos == s.txNextPos && t.txNextSeq == s.txNextSeq
    && t.txAvail == s.txAvail && t.txSent == s.txSent && t.txFin == s.txFin
  }

  lemma SameRxShape(s: Flow, t: Flow)
    requires RxShape(s) && SameRx(s, t)
    ensures RxShape(t)
  {
  }

  lemma SameTxShape(s: Flow, t: Flow)
    requires TxShape(s) && SameTx(s, t)
    ensures TxShape(t)
  {
  }

  lemma FinKeepsShape(s: Flow, p: Packet)
    requires Shape(s)
    ensures Shape(ProcessFin(s, p).0)
  {
  }

  lemma ResetKeepsTx(s: Flow)
    requires Shape(s)
    ensures TxShape(ResetRetransmit(s)) && SameRx(s, ResetRetransmit(s))
    ensures ResetRetransmit(s).rxRemoteAvail < U32 && ResetRetransmit(s).txLen == s.txLen
  {
    hide RxShape;
  }

  lemma AckContract(h: Helpers, s: Flow, p: Packet)
    requires HelpersOk(h)
    ensures AckOk(h.validRxAck(s.txNextSeq, s.txSent, p.ack), s.txSent)
  {
  }

  lemma AckKeepsTx(h: Helpers, s: Flow, p: Packet)
    requires HelpersOk(h) && Shape(s)
    ensures var t := ProcessAck(h, s, p).s; SameRx(s, t) && TxShape(t) && t.rxRemoteAvail < U32 && t.txLen == s.txLen
  {
    hide HelpersOk, ResetRetransmit;
    var r := h.validRxAck(s.txNextSeq, s.txSent, p.ack);
    AckContract(h, s, p);
    if r.Some? {
      var s1 := s.(txSent := s.txSent - r.value);
      SameRxShape(s, s1);
      ResetKeepsTx(s1);
    }
  }

  lemma AckKeepsShape(h: Helpers, s: Flow, p: Packet)
    requires HelpersOk(h) && Shape(s)
    ensures var t := ProcessAck(h, s, p).s; Shape(t) && SameRx(s, t) && t.txLen == s.txLen
  {
    hide ProcessAck, HelpersOk, RxShape;
    AckKeepsTx(h, s, p);
    SameRxShape(s, ProcessAck(h, s, p).s);
  }

  // ----- application bumps -----

  /** Bump counters are 16 bits wide and wrap; a bump that looks older is ignored. */
  predicate StaleBump(was: nat, now: nat) {
    || (now >= was && now - was > UINT16_MAX / 2)
    || (now < was && (was < (UINT16_MAX / 4) * 3 || now > UINT16_MAX / 4))
  }

  /** The bump passes all checks and changes the flow.  Once the transmit side is closed, nothing more is
      accepted for transmission. */
  predicate BumpAccepted(s: Flow, bumpSeq: nat, rxBump: nat, txBump: nat, done: bool) {
    var tx := if s.txFin then 0 else txBump;
    var txAvail := Add32(s.txAvail, tx);
    && !StaleBump(s.bumpSeq, bumpSeq)
    && !(done && !s.txFin && txBump == 0)
    && !(tx > s.txLen || txAvail > s.txLen || Add32(txAvail, s.txSent) > s.txLen)
    && !(rxBump > s.rxLen || Add32(rxBump, s.rxAvail) > s.txLen)
  }

  function Bump(s: Flow, bumpSeq: nat, rxBump: nat, txBump: nat, done: bool): Flow {
    if StaleBump(s.bumpSeq, bumpSeq) then s
    else
      var s1 := s.(bumpSeq := bumpSeq);
      if !BumpAccepted(s, bumpSeq, rxBump, txBump, done) then s1
      else s1.(txFin := s.txFin || done,
               txAvail := Add32(s.txAvail, if s.txFin then 0 else txBump),
               rxAvail := Add32(s.rxAvail, rxBump))
  }

  /** The window update sent when the receive buffer opens again and nothing else goes out. */
  function BumpSegment(h: Helpers, s: Flow, bumpSeq: nat, rxBump: nat, txBump: nat, done: bool): Option<Segment> {
    var s1 := Bump(s, bumpSeq, rxBump, txBump, done);
    if BumpAccepted(s, bumpSeq, rxBump, txBump, done)
       && h.txAvail(s1.txAvail, s.rxRemoteAvail, s.txSent) == 0 && s.rxAvail == 0 && s1.rxAvail != 0
    then Some(Segment(s.txNextSeq, s.rxNextSeq, Min(0xFFFF, s1.rxAvail), [], false))
    else None
  }

  // ----- the application side of the transmit ring -----

  /** The application fills free space; `off` counts from the end of what it has handed over. */
  function AppWrite(s: Flow, off: nat, bytes: seq<Byte>): Flow
    requires Shape(s) && s.txAvail + s.txSent + off + |bytes| <= s.txLen && off < s.txLen
  {
    s.(txBuf := Write(s.txBuf, Wrap(Wrap(s.txNextPos + s.txAvail, s.txLen) + off, s.txLen), bytes))
  }
}

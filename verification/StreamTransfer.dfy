/**
 The invariant behind what the fast path guarantees over whole runs: bytes counted as received
 are the bytes the peer sent, in place, and retransmissions repeat the bytes first sent.

 A run is any list of events.  Beside the flow, a history keeps unbounded counters: how many
 bytes were announced to the application, how many were acknowledged by the peer, and the
 bytes the application handed over for transmission.
 */
module StreamTransfer {
  import opened Common
  import opened Ring
  import opened FastPath

  /** The peer's stream and the two initial sequence numbers (of the first data byte). */
  datatype World = World(irs: nat, iss: nat, stream: Stream)

  /** A segment on the wire: the stream offset it was sent from and the sequence numbers it took. */
  datatype Sent = Sent(at: nat, taken: nat, segment: Segment)

  datatype History = History(rx: nat, una: nat, data: seq<Byte>, finAt: int, sent: seq<Sent>)

  datatype Event =
    | Arrive(p: Packet, at: int)
    | AppBump(bumpSeq: Half, rxBump: Word, txBump: Word, done: bool)
    | Fill(off: nat, bytes: seq<Byte>)
    | Transmit
    | Timeout

  function NextFlow(h: Helpers, s: Flow, e: Event): Flow
    requires HelpersOk(h) && Shape(s) && Allowed(s, e)
  {
    match e
    case Arrive(p, _) => ProcessPacket(h, s, p).s
    case AppBump(b, rx, tx, done) => Bump(s, b, rx, tx, done)
    case Fill(off, bytes) => AppWrite(s, off, bytes)
    case Transmit => SendState(h, s)
    case Timeout => Retransmit(s)
  }

  /** The application writes only into free space of the transmit ring and, if the transmit ring is the
      longer one, frees no more than it has been given; if it is not, the check on bumps sees to that. */
  predicate Allowed(s: Flow, e: Event) {
    && (e.Fill? ==> s.txAvail + s.txSent + e.off + |e.bytes| <= s.txLen && e.off < s.txLen)
    && (e.AppBump? ==> s.txLen <= s.rxLen || s.rxAvail + e.rxBump <= s.rxLen)
  }

  /** The bytes a bump hands over: what the ring holds after those handed over before. */
  function Handed(s: Flow, n: nat): seq<Byte>
    requires Shape(s) && n <= s.txLen
  {
    Read(s.txBuf, Wrap(s.txNextPos + s.txAvail, s.txLen), n)
  }

  lemma AcceptedFits(s: Flow, b: Half, rx: Word, tx: Word, done: bool)
    requires Shape(s) && BumpAccepted(s, b, rx, tx, done)
    ensures s.txAvail + s.txSent + (if s.txFin then 0 else tx) <= s.txLen
    ensures Add32(s.txAvail, if s.txFin then 0 else tx) == s.txAvail + (if s.txFin then 0 else tx)
  {
  }

  function NextHistory(h: Helpers, s: Flow, y: History, e: Event): History
    requires HelpersOk(h) && Shape(s) && Allowed(s, e)
  {
    match e
    case Arrive(p, _) =>
      var o := ProcessPacket(h, s, p);
      y.(rx := y.rx + o.rxBump, una := y.una + o.txBump)
    case AppBump(b, rx, tx, done) =>
      if !BumpAccepted(s, b, rx, tx, done) then y
      else
        AcceptedFits(s, b, rx, tx, done);
        var data := y.data + Handed(s, if s.txFin then 0 else tx);
        y.(data := data, finAt := if done && !s.txFin then |data| - 1 else y.finAt)
    case Fill(_, _) => y
    case Transmit =>
      var g := SendSegment(h, s);
      if g.None? then y
      else y.(sent := y.sent + [Sent(y.una + s.txSent, s.txAvail - SendState(h, s).txAvail, g.value)])
    case Timeout => y
  }

  /** An arriving segment carries bytes of the peer's stream, from offset `at` on, none of them a whole
      sequence space away from a place in the receive window. */
  ghost predicate Genuine(w: World, s: Flow, y: History, e: Event) {
    e.Arrive? ==>
      && |e.p.payload| <= UINT16_MAX
      && e.p.sq == (w.irs + e.at) % U32
      && y.rx + s.rxAvail - U32 < e.at && e.at + |e.p.payload| < y.rx + U32
      && forall j | 0 <= j < |e.p.payload| && e.at + j >= 0 :: e.p.payload[j] == w.stream(e.at + j)
  }

  // ----- the invariant -----

  function Unread(s: Flow): nat
    requires s.rxAvail <= s.rxLen
  {
    s.rxLen - s.rxAvail
  }

  function OooOffset(s: Flow): nat {
    Sub32(s.rxOooStart, s.rxNextSeq)
  }

  function FinCount(s: Flow): nat {
    if s.rxFin then 1 else 0
  }

  /** Receive side: unread bytes and, until the FIN, the out-of-order interval are in place. */
  ghost predicate RxInv(w: World, s: Flow, rx: nat) {
    && RxShape(s)
    && Received(w, s, rx)
    && (s.rxOooLen > 0 && !s.rxFin ==>
          Holds(s.rxBuf, w.stream, rx + OooOffset(s), rx + OooOffset(s) + s.rxOooLen))
  }

  /** Position and sequence number match the bytes received, and the unread ones are in place. */
  ghost predicate Received(w: World, s: Flow, rx: nat)
    requires s.rxAvail <= s.rxLen && s.rxLen > 0
  {
    && Unread(s) <= rx
    && s.rxNextPos == Slot(rx, s.rxLen)
    && s.rxNextSeq == (w.irs + rx + FinCount(s)) % U32
    && Holds(s.rxBuf, w.stream, rx - Unread(s), rx)
  }

  function AsStream(data: seq<Byte>): Stream {
    (k: nat) => if k < |data| then data[k] else 0
  }

  /** Transmit side: everything unacknowledged is in place. */
  ghost predicate TxInv(w: World, s: Flow, y: History) {
    && TxShape(s)
    && |y.data| == y.una + s.txSent + s.txAvail
    && s.txNextPos == Slot(y.una + s.txSent, s.txLen)
    && s.txNextSeq == (w.iss + y.una + s.txSent) % U32
    && Holds(s.txBuf, AsStream(y.data), y.una, |y.data|)
    && (if s.txFin then y.finAt == |y.data| - 1 && y.finAt >= 0 else y.finAt == -1)
  }

  /** A logged segment carries the data of its offsets; it carries FIN exactly when it takes the
      sequence number of the dummy byte, and the dummy byte is never payload. */
  ghost predicate SentOk(w: World, y: History, g: Sent) {
    && g.at + g.taken <= |y.data|
    && g.segment.sq == (w.iss + g.at) % U32
    && g.taken == |g.segment.payload| + (if g.segment.fin then 1 else 0)
    && g.segment.payload == y.data[g.at..g.at + |g.segment.payload|]
    && (g.segment.fin <==> g.at <= y.finAt < g.at + g.taken)
    && (y.finAt >= 0 ==> g.at + |g.segment.payload| <= y.finAt)
  }

  ghost predicate AllSentOk(w: World, y: History) {
    forall g | g in y.sent :: SentOk(w, y, g)
  }

  ghost predicate Inv(w: World, s: Flow, y: History) {
    Shape(s) && RxInv(w, s, y.rx) && TxInv(w, s, y) && AllSentOk(w, y)
  }

  // ----- sequence numbers and offsets -----

  /** Equal modulo 2^32 and less than 2^32 apart: equal. */
  lemma NearbyEqual(a: int, b: int)
    requires a % U32 == b % U32 && -U32 < a - b < U32
    ensures a == b
  {
  }

  lemma AddMod(x: int, d: int)
    ensures (x % U32 + d) % U32 == (x + d) % U32
  {
  }

  lemma SubMod(x: int, z: int)
    ensures (x % U32 - z % U32) % U32 == (x - z) % U32
  {
  }

  lemma OffsetAdd(a: nat, next: nat, d: nat)
    requires Sub32(a, next) + d < U32
    ensures Sub32(Add32(a, d), next) == Sub32(a, next) + d
  {
  }

  // ----- receiving keeps the receive side -----

  lemma PositionOfOffset(s: Flow, rx: nat, sq: nat, payload: seq<Byte>)
    requires RxShape(s) && Fits(s, sq, payload) && s.rxNextPos == Slot(rx, s.rxLen)
    ensures SeqPosition(s, sq) == Slot(rx + Sub32(sq, s.rxNextSeq), s.rxLen)
  {
    hide Slot, Sub32;
    SeqPositionInside(s, sq, payload);
    SlotStep(rx, Sub32(sq, s.rxNextSeq), s.rxLen);
  }

  /** Bytes put at offset `off` of the free window leave the unread bytes alone. */
  lemma WriteAhead(w: World, s: Flow, rx: nat, sq: nat, payload: seq<Byte>)
    requires RxInv(w, s, rx) && Fits(s, sq, payload)
    ensures var off := Sub32(sq, s.rxNextSeq);
            && SeqPosition(s, sq) == Slot(rx + off, s.rxLen)
            && Holds(Write(s.rxBuf, Slot(rx + off, s.rxLen), payload), w.stream, rx - Unread(s), rx)
  {
    hide Slot, Write, Sub32, Add32, SeqPosition;
    var off := Sub32(sq, s.rxNextSeq);
    PositionOfOffset(s, rx, sq, payload);
    WriteHolds(s.rxBuf, w.stream, rx + off, payload, rx - Unread(s), rx - Unread(s), rx);
  }

  lemma HoldsJoin(buf: seq<Byte>, stream: Stream, lo: nat, mid: nat, hi: nat)
    requires lo <= mid <= hi && Holds(buf, stream, lo, mid) && Holds(buf, stream, mid, hi)
    ensures Holds(buf, stream, lo, hi)
  {
  }

  lemma HoldsPart(buf: seq<Byte>, stream: Stream, lo: nat, a: nat, b: nat, hi: nat)
    requires lo <= a <= b <= hi && Holds(buf, stream, lo, hi)
    ensures Holds(buf, stream, a, b)
  {
  }

  /** The payload is the peer's stream at offset `off` from the next expected byte. */
  ghost predicate FromStream(w: World, payload: seq<Byte>, at: nat) {
    forall j | 0 <= j < |payload| :: payload[j] == w.stream(at + j)
  }

  /** The ring after an out-of-order write: the written bytes and the old interval are in place. */
  lemma WriteOoo(w: World, s: Flow, rx: nat, sq: nat, payload: seq<Byte>)
    requires RxInv(w, s, rx) && Fits(s, sq, payload) && !s.rxFin
    requires FromStream(w, payload, rx + Sub32(sq, s.rxNextSeq))
    ensures var off := Sub32(sq, s.rxNextSeq);
            var buf := Write(s.rxBuf, Slot(rx + off, s.rxLen), payload);
            && Holds(buf, w.stream, rx + off, rx + off + |payload|)
            && (s.rxOooLen > 0 ==> Holds(buf, w.stream, rx + OooOffset(s), rx + OooOffset(s) + s.rxOooLen))
  {
    var off := Sub32(sq, s.rxNextSeq);
    hide Slot, Write;
    WriteAdds(s.rxBuf, w.stream, rx + off, payload);
    if s.rxOooLen > 0 {
      WriteHolds(s.rxBuf, w.stream, rx + off, payload, rx, rx + OooOffset(s), rx + OooOffset(s) + s.rxOooLen);
    }
  }

  /** A write ahead with a new interval recorded, given that the interval is in the window and in place. */
  lemma OooSet(w: World, s: Flow, rx: nat, sq: Word, payload: seq<Byte>, start: Word, len: nat)
    requires Shape(s) && RxInv(w, s, rx) && Fits(s, sq, payload)
    requires Sub32(start, s.rxNextSeq) + len <= s.rxAvail
    requires !s.rxFin ==>
               Holds(Write(s.rxBuf, Slot(rx + Sub32(sq, s.rxNextSeq), s.rxLen), payload), w.stream,
                     rx + Sub32(start, s.rxNextSeq), rx + Sub32(start, s.rxNextSeq) + len)
    ensures RxInv(w, RxSeqWrite(s, sq, payload).(rxOooStart := start, rxOooLen := len), rx)
  {
    WriteAhead(w, s, rx, sq, payload);
    hide Slot, Write, Sub32, Add32, SeqPosition, Holds;
  }

  lemma OooFront(w: World, s: Flow, rx: nat, sq: Word, payload: seq<Byte>)
    requires Shape(s) && RxInv(w, s, rx) && Fits(s, sq, payload)
    requires !s.rxFin ==> FromStream(w, payload, rx + Sub32(sq, s.rxNextSeq))
    requires s.rxOooLen > 0 && Add32(sq, |payload|) == s.rxOooStart
    ensures RxInv(w, RxSeqWrite(s, sq, payload).(rxOooStart := sq, rxOooLen := Add32(s.rxOooLen, |payload|)), rx)
  {
    hide Slot, Write, Sub32, Add32, Holds, FromStream, Received;
    var off, o := Sub32(sq, s.rxNextSeq), OooOffset(s);
    OffsetAdd(sq, s.rxNextSeq, |payload|);
    if !s.rxFin {
      WriteOoo(w, s, rx, sq, payload);
      HoldsJoin(Write(s.rxBuf, Slot(rx + off, s.rxLen), payload), w.stream, rx + off, rx + o, rx + o + s.rxOooLen);
    }
    OooSet(w, s, rx, sq, payload, sq, Add32(s.rxOooLen, |payload|));
  }

  lemma OooBack(w: World, s: Flow, rx: nat, sq: Word, payload: seq<Byte>)
    requires Shape(s) && RxInv(w, s, rx) && Fits(s, sq, payload)
    requires !s.rxFin ==> FromStream(w, payload, rx + Sub32(sq, s.rxNextSeq))
    requires s.rxOooLen > 0 && Add32(s.rxOooStart, s.rxOooLen) == sq
    ensures RxInv(w, RxSeqWrite(s, sq, payload).(rxOooLen := Add32(s.rxOooLen, |payload|)), rx)
  {
    hide Slot, Write, Sub32, Add32, Holds, FromStream, Received;
    var off, o := Sub32(sq, s.rxNextSeq), OooOffset(s);
    OffsetAdd(s.rxOooStart, s.rxNextSeq, s.rxOooLen);
    if !s.rxFin {
      WriteOoo(w, s, rx, sq, payload);
      HoldsJoin(Write(s.rxBuf, Slot(rx + off, s.rxLen), payload), w.stream, rx + o, rx + off, rx + off + |payload|);
    }
    OooSet(w, s, rx, sq, payload, s.rxOooStart, Add32(s.rxOooLen, |payload|));
  }

  lemma OooNew(w: World, s: Flow, rx: nat, sq: Word, payload: seq<Byte>)
    requires Shape(s) && RxInv(w, s, rx) && Fits(s, sq, payload)
    requires !s.rxFin ==> FromStream(w, payload, rx + Sub32(sq, s.rxNextSeq))
    ensures RxInv(w, RxSeqWrite(s, sq, payload).(rxOooStart := sq, rxOooLen := |payload|), rx)
  {
    hide Slot, Write, Sub32, Add32, Holds, FromStream;
    if !s.rxFin {
      WriteOoo(w, s, rx, sq, payload);
    }
    OooSet(w, s, rx, sq, payload, sq, |payload|);
  }

  lemma OutOfOrderKeepsRx(w: World, s: Flow, rx: nat, sq: Word, payload: seq<Byte>)
    requires Shape(s) && RxInv(w, s, rx) && Fits(s, sq, payload)
    requires !s.rxFin ==> FromStream(w, payload, rx + Sub32(sq, s.rxNextSeq))
    ensures RxInv(w, OutOfOrder(s, sq, payload), rx)
  {
    hide RxInv, Shape, Fits, FromStream, RxSeqWrite, Add32, Sub32;
    if |payload| > 0 {
      if s.rxOooLen == 0 {
        OooNew(w, s, rx, sq, payload);
      } else if Add32(sq, |payload|) == s.rxOooStart {
        OooFront(w, s, rx, sq, payload);
      } else if Add32(s.rxOooStart, s.rxOooLen) == sq {
        OooBack(w, s, rx, sq, payload);
      }
    }
  }

  /** Where the out-of-order interval lies in the stream, whether or not it is still ahead. */
  ghost predicate OooAt(w: World, s: Flow, o: nat) {
    s.rxOooLen > 0 ==>
      s.rxOooStart == (w.irs + o) % U32 && Holds(s.rxBuf, w.stream, o, o + s.rxOooLen)
  }

  /** Everything about the receive side except that the interval is ahead. */
  ghost predicate RxBase(w: World, s: Flow, rx: nat) {
    && 0 < s.rxLen < U32 / 2 && |s.rxBuf| == s.rxLen && s.rxNextPos < s.rxLen
    && s.rxAvail <= s.rxLen && Received(w, s, rx)
  }

  lemma ForwardSeq(iss: nat, k: nat, n: nat)
    ensures Add32((iss + k) % U32, n) == (iss + k + n) % U32
  {
    AddMod(iss + k, n);
  }

  lemma AdvanceKeeps(w: World, s: Flow, rx: nat, n: nat)
    requires RxBase(w, s, rx) && n <= s.rxAvail && Holds(s.rxBuf, w.stream, rx, rx + n)
    ensures RxBase(w, Advance(s, n), rx + n) && Advance(s, n).rxNextPos < s.rxLen
  {
    hide Slot, Add32;
    SlotStep(rx, n, s.rxLen);
    ForwardSeq(w.irs, rx + FinCount(s), n);
    HoldsJoin(s.rxBuf, w.stream, rx - Unread(s), rx, rx + n);
  }

  lemma OffsetZero(sq: nat)
    ensures Sub32(sq, sq) == 0
  {
  }

  lemma StartOfOffset(irs: nat, rx: nat, start: Word, next: nat)
    requires next == (irs + rx) % U32
    ensures start == (irs + (rx + Sub32(start, next))) % U32
  {
  }

  /** The ring after an in-order write. */
  lemma DeliverWrites(w: World, s: Flow, rx: nat, payload: seq<Byte>)
    requires RxInv(w, s, rx) && !s.rxFin && |payload| <= s.rxAvail && FromStream(w, payload, rx)
    ensures var buf := Write(s.rxBuf, s.rxNextPos, payload);
            && Holds(buf, w.stream, rx - Unread(s), rx)
            && Holds(buf, w.stream, rx, rx + |payload|)
            && (s.rxOooLen > 0 ==> Holds(buf, w.stream, rx + OooOffset(s), rx + OooOffset(s) + s.rxOooLen))
  {
    hide Slot, Write, FromStream, Add32, Sub32, Holds;
    OffsetZero(s.rxNextSeq);
    WriteAhead(w, s, rx, s.rxNextSeq, payload);
    WriteOoo(w, s, rx, s.rxNextSeq, payload);
  }

  lemma DeliverKeeps(w: World, s: Flow, rx: nat, payload: seq<Byte>)
    requires Shape(s) && RxInv(w, s, rx) && !s.rxFin && |payload| <= s.rxAvail
    requires FromStream(w, payload, rx)
    ensures RxBase(w, Deliver(s, payload), rx + |payload|)
    ensures OooAt(w, Deliver(s, payload), rx + OooOffset(s))
  {
    hide Slot, Write, FromStream, Add32, Sub32, Holds;
    DeliverWrites(w, s, rx, payload);
    StartOfOffset(w.irs, rx, s.rxOooStart, s.rxNextSeq);
    AdvanceKeeps(w, s.(rxBuf := Write(s.rxBuf, s.rxNextPos, payload)), rx, |payload|);
  }

  /** A byte `ts` into an interval from offset `at` is as far ahead as its window offset says. */
  lemma ArrivalOffset(irs: nat, rx: nat, at: int, ts: nat, sq: nat, next: nat, avail: nat)
    requires next == (irs + rx) % U32 && sq == (irs + at) % U32
    requires rx + avail - U32 < at && at + ts < rx + U32 && Sub32(Add32(sq, ts), next) <= avail
    ensures rx + Sub32(Add32(sq, ts), next) == at + ts
  {
    AddMod(irs + at, ts);
    SubMod(irs + at + ts, irs + rx);
    NearbyEqual(at + ts - rx, Sub32(Add32(sq, ts), next));
  }

  /** The interval a trim leaves, if any, is in place at its window offset. */
  ghost predicate OooAhead(w: World, s: Flow, rx: nat) {
    s.rxOooLen > 0 ==>
      && OooOffset(s) + s.rxOooLen <= s.rxAvail
      && Holds(s.rxBuf, w.stream, rx + OooOffset(s), rx + OooOffset(s) + s.rxOooLen)
  }

  lemma TrimContract(h: Helpers, s: Flow)
    requires HelpersOk(h)
    ensures TrimOk(h.trimRxBuf(s.rxNextSeq, s.rxAvail, s.rxOooStart, s.rxOooLen),
                   s.rxNextSeq, s.rxAvail, s.rxOooStart, s.rxOooLen)
  {
  }

  lemma TrimKeeps(w: World, h: Helpers, s: Flow, rx: nat, o: nat)
    requires HelpersOk(h) && RxBase(w, s, rx) && !s.rxFin && OooAt(w, s, o)
    requires s.rxOooLen > 0 ==> -(U32 / 2) < o - rx < U32 / 2
    ensures RxBase(w, TrimOoo(h, s), rx) && OooAhead(w, TrimOoo(h, s), rx)
    ensures !TrimOoo(h, s).rxFin && (s.rxOooStart < U32 ==> TrimOoo(h, s).rxOooStart < U32)
  {
    hide HelpersOk, Add32, Sub32, Slot;
    var t := TrimOoo(h, s);
    TrimContract(h, s);
    if s.rxOooLen > 0 && t.rxOooLen > 0 {
      var ts := h.trimRxBuf(s.rxNextSeq, s.rxAvail, s.rxOooStart, s.rxOooLen).value.0;
      ArrivalOffset(w.irs, rx, o, ts, s.rxOooStart, s.rxNextSeq, s.rxAvail);
      HoldsPart(s.rxBuf, w.stream, o, o + ts, o + ts + t.rxOooLen, o + s.rxOooLen);
    }
  }

  lemma AbsorbKeeps(w: World, s: Flow, rx: nat)
    requires RxBase(w, s, rx) && !s.rxFin && s.rxOooStart < U32 && OooAhead(w, s, rx)
    ensures CaughtUp(s) ==> s.rxOooLen <= s.rxAvail
    ensures RxInv(w, AbsorbOoo(s), rx + if CaughtUp(s) then s.rxOooLen else 0)
  {
    hide Slot;
    if CaughtUp(s) {
      AdvanceKeeps(w, s, rx, s.rxOooLen);
    }
  }

  lemma DeliverFrame(s: Flow, payload: seq<Byte>)
    requires Shape(s) && |payload| <= s.rxAvail
    ensures var s1 := Deliver(s, payload);
            s1.rxOooLen == s.rxOooLen && s1.rxOooStart == s.rxOooStart && s1.rxFin == s.rxFin
  {
  }

  lemma InOrderKeepsRx(w: World, h: Helpers, s: Flow, rx: nat, payload: seq<Byte>)
    requires HelpersOk(h) && Shape(s) && RxInv(w, s, rx) && !s.rxFin
    requires |payload| <= s.rxAvail && |payload| <= UINT16_MAX && FromStream(w, payload, rx)
    ensures var r := InOrderData(h, s, payload); RxInv(w, r.0, rx + r.1)
  {
    hide HelpersOk, RxInv, FromStream, RxBase, OooAt, OooAhead, Deliver, TrimOoo, AbsorbOoo, Sub32;
    if |payload| > 0 {
      var s1 := Deliver(s, payload);
      DeliverKeeps(w, s, rx, payload);
      DeliverFrame(s, payload);
      TrimKeeps(w, h, s1, rx + |payload|, rx + OooOffset(s));
      AbsorbKeeps(w, TrimOoo(h, s1), rx + |payload|);
    }
  }

  lemma FinKeepsRx(w: World, s: Flow, p: Packet, rx: nat)
    requires RxInv(w, s, rx)
    ensures RxInv(w, ProcessFin(s, p).0, rx)
  {
  }

  lemma RxFrame(w: World, s: Flow, t: Flow, rx: nat)
    requires RxInv(w, s, rx) && SameRx(s, t)
    ensures RxInv(w, t, rx)
  {
  }

  /** What is left of a genuine segment after trimming is the stream at its window offset. */
  lemma TrimmedFromStream(w: World, s: Flow, y: History, p: Packet, at: int, ts: nat, te: nat)
    requires RxInv(w, s, y.rx) && !s.rxFin && Genuine(w, s, y, Arrive(p, at))
    requires ts <= UINT16_MAX && ts + te <= |p.payload|
    requires Sub32(Add32(p.sq, ts), s.rxNextSeq) <= s.rxAvail
    ensures FromStream(w, p.payload[ts..|p.payload| - te], y.rx + Sub32(Add32(p.sq, ts), s.rxNextSeq))
  {
    ArrivalOffset(w.irs, y.rx, at, ts, p.sq, s.rxNextSeq, s.rxAvail);
    hide Add32, Sub32;
    var off := Sub32(Add32(p.sq, ts), s.rxNextSeq);
    var part := p.payload[ts..|p.payload| - te];
    forall j | 0 <= j < |part|
      ensures part[j] == w.stream(y.rx + off + j)
    {
      assert p.payload[ts + j] == w.stream(at + (ts + j));
    }
  }

  lemma ArrivalContract(h: Helpers, s: Flow, p: Packet)
    requires HelpersOk(h)
    ensures TrimOk(h.trimRxBuf(s.rxNextSeq, s.rxAvail, p.sq, |p.payload|), s.rxNextSeq, s.rxAvail, p.sq, |p.payload|)
  {
  }

  /** In-order payload that is accepted, then the FIN. */
  lemma AcceptKeepsRx(w: World, h: Helpers, s: Flow, p: Packet, payload: seq<Byte>, rx: nat)
    requires HelpersOk(h) && Shape(s) && RxInv(w, s, rx) && |payload| <= s.rxAvail && |payload| <= UINT16_MAX
    requires s.rxFin ==> |payload| == 0
    requires !s.rxFin ==> FromStream(w, payload, rx)
    ensures var d := InOrderData(h, s, payload); RxInv(w, ProcessFin(d.0, p).0, rx + d.1)
  {
    hide HelpersOk, Shape, RxInv, FromStream, ProcessFin;
    if |payload| > 0 {
      InOrderKeepsRx(w, h, s, rx, payload);
    }
    FinKeepsRx(w, InOrderData(h, s, payload).0, p, rx + InOrderData(h, s, payload).1);
  }

  /** What the trimming contract says of an arriving segment. */
  lemma ArrivalFits(h: Helpers, s: Flow, p: Packet)
    requires HelpersOk(h)
    ensures var r := h.trimRxBuf(s.rxNextSeq, s.rxAvail, p.sq, |p.payload|);
            r.Some? ==>
              var (ts, te) := r.value;
              && ts <= UINT16_MAX && ts + te <= |p.payload|
              && Fits(s, Add32(p.sq, ts), p.payload[ts..|p.payload| - te])
  {
    hide Add32, Sub32;
    ArrivalContract(h, s, p);
  }

  /** A segment that starts elsewhere, trimmed. */
  lemma OutOfOrderArrival(w: World, s: Flow, y: History, p: Packet, at: int, ts: nat, te: nat)
    requires Shape(s) && RxInv(w, s, y.rx) && Genuine(w, s, y, Arrive(p, at))
    requires ts <= UINT16_MAX && ts + te <= |p.payload|
    requires Fits(s, Add32(p.sq, ts), p.payload[ts..|p.payload| - te])
    ensures RxInv(w, OutOfOrder(s, Add32(p.sq, ts), p.payload[ts..|p.payload| - te]), y.rx)
  {
    hide RxInv, FromStream, OutOfOrder, Add32, Sub32, Genuine, TxShape;
    if !s.rxFin {
      TrimmedFromStream(w, s, y, p, at, ts, te);
    }
    OutOfOrderKeepsRx(w, s, y.rx, Add32(p.sq, ts), p.payload[ts..|p.payload| - te]);
  }

  /** A segment that starts at the next expected byte, trimmed; payload after the FIN is dropped. */
  lemma InOrderArrival(w: World, h: Helpers, s: Flow, y: History, p: Packet, at: int, ts: nat, te: nat)
    requires HelpersOk(h) && Shape(s) && RxInv(w, s, y.rx) && Genuine(w, s, y, Arrive(p, at))
    requires ts <= UINT16_MAX && ts + te <= |p.payload|
    requires Fits(s, Add32(p.sq, ts), p.payload[ts..|p.payload| - te])
    requires Add32(p.sq, ts) == s.rxNextSeq && (s.rxFin ==> ts + te == |p.payload|)
    ensures |p.payload[ts..|p.payload| - te]| <= s.rxAvail
    ensures var d := InOrderData(h, s, p.payload[ts..|p.payload| - te]); RxInv(w, ProcessFin(d.0, p).0, y.rx + d.1)
  {
    hide HelpersOk, RxInv, FromStream, InOrderData, ProcessFin, Add32, Sub32, TxShape;
    OffsetZero(s.rxNextSeq);
    if !s.rxFin {
      TrimmedFromStream(w, s, y, p, at, ts, te);
    }
    AcceptKeepsRx(w, h, s, p, p.payload[ts..|p.payload| - te], y.rx);
  }

  lemma WindowFrame(w: World, s: Flow, wnd: Half, rx: nat)
    requires Shape(s) && RxInv(w, s, rx)
    ensures Shape(s.(rxRemoteAvail := wnd)) && RxInv(w, s.(rxRemoteAvail := wnd), rx)
  {
    hide RxInv;
    RxFrame(w, s, s.(rxRemoteAvail := wnd), rx);
  }

  /** Fitting at the next expected byte means fitting the window. */
  lemma FitsInOrder(s: Flow, payload: seq<Byte>)
    requires Fits(s, s.rxNextSeq, payload)
    ensures |payload| <= s.rxAvail
  {
    hide Sub32;
    OffsetZero(s.rxNextSeq);
  }

  lemma ReceiveKeepsRx(w: World, h: Helpers, s: Flow, y: History, p: Packet, at: int)
    requires HelpersOk(h) && Shape(s) && RxInv(w, s, y.rx) && Genuine(w, s, y, Arrive(p, at))
    ensures var r := Receive(h, s, p); RxInv(w, r.s, y.rx + r.rxBump)
  {
    hide HelpersOk, Shape, RxInv, OutOfOrder, InOrderData, ProcessFin, Fits, Add32, Sub32;
    ArrivalFits(h, s, p);
    var r := h.trimRxBuf(s.rxNextSeq, s.rxAvail, p.sq, |p.payload|);
    if r.Some? {
      var (ts, te) := r.value;
      var payload := p.payload[ts..|p.payload| - te];
      if Add32(p.sq, ts) != s.rxNextSeq {
        OutOfOrderArrival(w, s, y, p, at, ts, te);
      } else {
        var s1 := s.(rxRemoteAvail := p.wnd);
        WindowFrame(w, s, p.wnd, y.rx);
        FitsInOrder(s, payload);
        if !(s.rxFin && |payload| > 0) {
          FitsFrame(s, p.wnd, Add32(p.sq, ts), payload);
          InOrderArrival(w, h, s1, y, p, at, ts, te);
        }
      }
    }
  }

  lemma FitsFrame(s: Flow, wnd: Half, sq: nat, payload: seq<Byte>)
    requires Fits(s, sq, payload)
    ensures Fits(s.(rxRemoteAvail := wnd), sq, payload)
  {
  }

  /** Same transmit side, remote window and ring length. */
  predicate RxOnly(s: Flow, t: Flow) {
    SameTx(s, t) && t.rxRemoteAvail == s.rxRemoteAvail && t.rxLen == s.rxLen
  }

  lemma OutOfOrderIsRxOnly(s: Flow, sq: nat, payload: seq<Byte>)
    requires Shape(s) && Fits(s, sq, payload)
    ensures RxOnly(s, OutOfOrder(s, sq, payload))
  {
    hide Add32, Sub32, Write, SeqPosition;
  }

  lemma TrimIsRxOnly(h: Helpers, s: Flow)
    requires HelpersOk(h)
    ensures RxOnly(s, TrimOoo(h, s))
  {
    hide Add32;
    TrimContract(h, s);
  }

  lemma InOrderIsRxOnly(h: Helpers, s: Flow, payload: seq<Byte>)
    requires HelpersOk(h) && Shape(s) && |payload| <= s.rxAvail
    ensures RxOnly(s, InOrderData(h, s, payload).0)
  {
    if |payload| > 0 {
      hide Add32, Sub32, Write, TrimOoo;
      TrimIsRxOnly(h, Deliver(s, payload));
    }
  }

  lemma ReceiveKeepsTx(h: Helpers, s: Flow, p: Packet)
    requires HelpersOk(h) && Shape(s)
    ensures SameTx(s, Receive(h, s, p).s) && Receive(h, s, p).s.rxRemoteAvail < U32 && Receive(h, s, p).s.rxLen == s.rxLen
  {
    hide HelpersOk, Add32, Sub32, OutOfOrder, InOrderData;
    ArrivalContract(h, s, p);
    var r := h.trimRxBuf(s.rxNextSeq, s.rxAvail, p.sq, |p.payload|);
    if r.Some? {
      var payload := p.payload[r.value.0..|p.payload| - r.value.1];
      var sq := Add32(p.sq, r.value.0);
      OutOfOrderIsRxOnly(s, sq, payload);
      if sq == s.rxNextSeq {
        OffsetZero(sq);
        SameRxShape(s, s.(rxRemoteAvail := p.wnd));
        InOrderIsRxOnly(h, s.(rxRemoteAvail := p.wnd), payload);
      }
    }
  }

  // ----- sending keeps the transmit side -----

  lemma TxFrame(w: World, s: Flow, t: Flow, y: History, y': History)
    requires TxInv(w, s, y) && SameTx(s, t) && y'.una == y.una && y'.data == y.data && y'.finAt == y.finAt
    ensures TxInv(w, t, y')
  {
  }

  lemma BackwardsSeq(iss: nat, una: nat, sent: nat)
    ensures Sub32((iss + una + sent) % U32, sent) == (iss + una) % U32
  {
    AddMod(iss + una + sent, 0 - sent);
  }

  /** Going back by `sent` from the position of byte `una + sent` gives the position of byte `una`. */
  lemma SlotBack(una: nat, sent: nat, length: nat)
    requires length > 0 && sent <= length
    ensures var pos := Slot(una + sent, length);
            Slot(una, length) == if pos >= sent then pos - sent else length - (sent - pos)
  {
    SlotStep(una, sent, length);
  }

  /** A reset goes back to the first unacknowledged byte, with everything to send again. */
  lemma ResetKeepsTxInv(w: World, s: Flow, y: History)
    requires Shape(s) && TxInv(w, s, y)
    ensures TxInv(w, ResetRetransmit(s), y)
  {
    hide Slot, Add32, Sub32;
    SlotBack(y.una, s.txSent, s.txLen);
    BackwardsSeq(w.iss, y.una, s.txSent);
  }

  lemma AckedKeepsTx(w: World, s: Flow, y: History, n: nat)
    requires TxInv(w, s, y) && n <= s.txSent
    ensures TxInv(w, s.(txSent := s.txSent - n), y.(una := y.una + n))
  {
    hide Slot;
    HoldsPart(s.txBuf, AsStream(y.data), y.una, y.una + n, |y.data|, |y.data|);
  }

  lemma AckKeepsTxInv(w: World, h: Helpers, s: Flow, p: Packet, y: History)
    requires HelpersOk(h) && Shape(s) && TxInv(w, s, y)
    ensures var a := ProcessAck(h, s, p); TxInv(w, a.s, y.(una := y.una + a.txBump))
  {
    hide HelpersOk, TxInv, ResetRetransmit;
    var r := h.validRxAck(s.txNextSeq, s.txSent, p.ack);
    AckContract(h, s, p);
    if p.isAck && r.Some? {
      var s1 := s.(txSent := s.txSent - r.value);
      var y1 := y.(una := y.una + r.value);
      AckedKeepsTx(w, s, y, r.value);
      SameRxShape(s, s1);
      if r.value == 0 && |p.payload| == 0 && s1.rxDupackCnt + 1 >= 3 {
        ResetKeepsTxInv(w, s1, y1);
      } else {
        TxFrame(w, s1, ProcessAck(h, s, p).s, y1, y1);
      }
    } else {
      TxFrame(w, s, s, y, y.(una := y.una + 0));
    }
  }

  lemma SendContract(h: Helpers, s: Flow)
    requires HelpersOk(h) && TxShape(s)
    ensures SendLength(h, s) <= s.txAvail && SendLength(h, s) <= TCP_MSS
  {
  }

  lemma SendKeepsTxInv(w: World, h: Helpers, s: Flow, y: History)
    requires HelpersOk(h) && Shape(s) && TxInv(w, s, y)
    ensures TxInv(w, SendState(h, s), y) && SameRx(s, SendState(h, s))
  {
    hide Slot, Add32, SendLength, HelpersOk;
    SendContract(h, s);
    SlotStep(y.una + s.txSent, SendLength(h, s), s.txLen);
    ForwardSeq(w.iss, y.una + s.txSent, SendLength(h, s));
  }

  /** The segment a send logs carries the data of its offsets and treats the dummy byte right. */
  lemma SendIsOk(w: World, h: Helpers, s: Flow, y: History)
    requires HelpersOk(h) && Shape(s) && TxInv(w, s, y) && SendSegment(h, s).Some?
    ensures SentOk(w, y, Sent(y.una + s.txSent, s.txAvail - SendState(h, s).txAvail, SendSegment(h, s).value))
  {
    hide Slot, SendLength, HelpersOk, Read;
    SendContract(h, s);
    var g := SendSegment(h, s).value;
    var at, n := y.una + s.txSent, |g.payload|;
    HoldsPart(s.txBuf, AsStream(y.data), y.una, at, at + n, |y.data|);
    ReadHolds(s.txBuf, AsStream(y.data), at, n);
    assert g.payload == y.data[at..at + n];
  }

  /** Free space of the transmit ring lies after everything handed over. */
  lemma FreeSlot(s: Flow, w: World, y: History, off: nat)
    requires TxInv(w, s, y) && off <= s.txLen
    ensures Wrap(s.txNextPos + s.txAvail, s.txLen) == Slot(|y.data|, s.txLen)
    ensures Wrap(Wrap(s.txNextPos + s.txAvail, s.txLen) + off, s.txLen) == Slot(|y.data| + off, s.txLen)
  {
    hide Slot;
    SlotStep(y.una + s.txSent, s.txAvail, s.txLen);
    SlotStep(|y.data|, off, s.txLen);
  }

  lemma FillKeepsTxInv(w: World, s: Flow, y: History, off: nat, bytes: seq<Byte>)
    requires Shape(s) && TxInv(w, s, y) && Allowed(s, Fill(off, bytes))
    ensures TxInv(w, AppWrite(s, off, bytes), y) && SameRx(s, AppWrite(s, off, bytes))
  {
    hide Slot, Write, Wrap;
    FreeSlot(s, w, y, off);
    WriteHolds(s.txBuf, AsStream(y.data), |y.data| + off, bytes, y.una, y.una, |y.data|);
  }

  /** Handing over bytes appends what the ring holds to the data. */
  lemma HandedHolds(w: World, s: Flow, y: History, n: nat)
    requires Shape(s) && TxInv(w, s, y) && n + s.txAvail + s.txSent <= s.txLen
    ensures Holds(s.txBuf, AsStream(y.data + Handed(s, n)), y.una, |y.data| + n)
  {
    hide Slot, Wrap, Read;
    FreeSlot(s, w, y, 0);
    var data := y.data + Handed(s, n);
    ReadSlots(s.txBuf, Slot(|y.data|, s.txLen), n);
    forall k: nat | y.una <= k < |data|
      ensures s.txBuf[Slot(k, s.txLen)] == AsStream(data)(k)
    {
      if k < |y.data| {
        assert s.txBuf[Slot(k, s.txLen)] == AsStream(y.data)(k);
      } else {
        SlotStep(|y.data|, k - |y.data|, s.txLen);
        assert Read(s.txBuf, Slot(|y.data|, s.txLen), n)[k - |y.data|] == s.txBuf[Wrap(Slot(|y.data|, s.txLen) + (k - |y.data|), s.txLen)];
      }
    }
  }

  lemma BumpKeepsTxInv(w: World, h: Helpers, s: Flow, y: History, e: Event)
    requires HelpersOk(h) && Shape(s) && TxInv(w, s, y) && Allowed(s, e) && e.AppBump?
    ensures TxInv(w, NextFlow(h, s, e), NextHistory(h, s, y, e))
  {
    hide Slot, Wrap, Read, HelpersOk, Add32, StaleBump, Holds;
    if BumpAccepted(s, e.bumpSeq, e.rxBump, e.txBump, e.done) {
      AcceptedFits(s, e.bumpSeq, e.rxBump, e.txBump, e.done);
      HandedHolds(w, s, y, if s.txFin then 0 else e.txBump);
    }
  }

  /** Same receive side, with no less free space. */
  predicate FreesOnly(s: Flow, t: Flow) {
    s.rxAvail <= t.rxAvail <= s.rxLen && SameRx(s, t.(rxAvail := s.rxAvail))
  }

  /** A bump, accepted or not, only ever adds to the free receive space, within the ring. */
  lemma BumpFreesOnly(s: Flow, e: Event)
    requires Shape(s) && Allowed(s, e) && e.AppBump?
    ensures FreesOnly(s, Bump(s, e.bumpSeq, e.rxBump, e.txBump, e.done))
  {
    hide StaleBump, Sub32;
  }

  lemma MoreFree(w: World, s: Flow, t: Flow, rx: nat)
    requires RxInv(w, s, rx) && FreesOnly(s, t)
    ensures RxInv(w, t, rx)
  {
    hide Slot, Sub32;
    HoldsPart(s.rxBuf, w.stream, rx - Unread(s), rx - Unread(t), rx, rx);
  }

  lemma BumpKeepsRxInv(w: World, s: Flow, rx: nat, e: Event)
    requires Shape(s) && Allowed(s, e) && RxInv(w, s, rx) && e.AppBump?
    ensures RxInv(w, Bump(s, e.bumpSeq, e.rxBump, e.txBump, e.done), rx)
  {
    hide Bump, RxInv, Shape, FreesOnly;
    BumpFreesOnly(s, e);
    MoreFree(w, s, Bump(s, e.bumpSeq, e.rxBump, e.txBump, e.done), rx);
  }

  /** Data only grows at its end, and the closing byte is new data: old segments stay right. */
  lemma SentStaysOk(w: World, s: Flow, y: History, y': History, g: Sent)
    requires SentOk(w, y, g) && y.data <= y'.data
    requires y'.finAt == y.finAt || (y.finAt == -1 && y'.finAt >= |y.data|)
    ensures SentOk(w, y', g)
  {
  }

  lemma BumpKeepsSent(w: World, h: Helpers, s: Flow, y: History, e: Event)
    requires HelpersOk(h) && Shape(s) && TxInv(w, s, y) && AllSentOk(w, y) && Allowed(s, e) && e.AppBump?
    ensures AllSentOk(w, NextHistory(h, s, y, e))
  {
    hide HelpersOk, SentOk, Slot, StaleBump, Add32, Holds;
    var y' := NextHistory(h, s, y, e);
    forall g | g in y'.sent
      ensures SentOk(w, y', g)
    {
      if BumpAccepted(s, e.bumpSeq, e.rxBump, e.txBump, e.done) {
        AcceptedFits(s, e.bumpSeq, e.rxBump, e.txBump, e.done);
      }
      SentStaysOk(w, s, y, y', g);
    }
  }
}

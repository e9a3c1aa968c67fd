/**
 The guarantees of the fast path over whole runs: every event keeps the invariant of
 `StreamTransfer`, and what follows from it for the bytes received and the segments sent.
 */
module FlowRuns {
  import opened Common
  import opened Ring
  import opened FastPath
  import opened StreamTransfer

  // ----- every step keeps the invariant -----

  lemma ArriveKeepsInv(w: World, h: Helpers, s: Flow, y: History, p: Packet, at: int)
    requires HelpersOk(h) && Inv(w, s, y) && Genuine(w, s, y, Arrive(p, at))
    ensures Inv(w, ProcessPacket(h, s, p).s, NextHistory(h, s, y, Arrive(p, at)))
  {
    hide HelpersOk, RxInv, TxInv, RxShape, TxShape, SentOk, ProcessAck, Receive;
    var o := ProcessPacket(h, s, p);
    var y' := NextHistory(h, s, y, Arrive(p, at));
    if s.slowpath || p.isSyn || p.oddFlags {
      RxFrame(w, s, o.s, y.rx);
      TxFrame(w, s, o.s, y, y');
    } else {
      var a := ProcessAck(h, s, p);
      var ya := y.(una := y.una + a.txBump);
      AckKeepsShape(h, s, p);
      AckKeepsTxInv(w, h, s, p, y);
      RxFrame(w, s, a.s, y.rx);
      if !a.stop {
        ReceiveKeepsRx(w, h, a.s, ya, p, at);
        ReceiveKeepsTx(h, a.s, p);
        TxFrame(w, a.s, o.s, ya, y');
      } else {
        TxFrame(w, a.s, o.s, ya, y');
      }
    }
    InvShape(w, o.s, y');
    forall g | g in y'.sent
      ensures SentOk(w, y', g)
    {
      SentStaysOk(w, s, y, y', g);
    }
  }

  lemma InvShape(w: World, s: Flow, y: History)
    requires RxInv(w, s, y.rx) && TxInv(w, s, y)
    ensures RxShape(s) && TxShape(s)
  {
  }

  /** One event, of any kind, keeps everything. */
  lemma StepKeepsInv(w: World, h: Helpers, s: Flow, y: History, e: Event)
    requires HelpersOk(h) && Inv(w, s, y) && Allowed(s, e) && Genuine(w, s, y, e)
    ensures Inv(w, NextFlow(h, s, e), NextHistory(h, s, y, e))
  {
    match e
    case Arrive(p, at) => ArriveKeepsInv(w, h, s, y, p, at);
    case AppBump(_, _, _, _) => BumpKeepsInv(w, h, s, y, e);
    case Fill(off, bytes) => FillKeepsInv(w, s, y, off, bytes);
    case Transmit => SendKeepsInv(w, h, s, y);
    case Timeout => TimeoutKeepsInv(w, s, y);
  }

  lemma BumpKeepsInv(w: World, h: Helpers, s: Flow, y: History, e: Event)
    requires HelpersOk(h) && Inv(w, s, y) && Allowed(s, e) && e.AppBump?
    ensures Inv(w, NextFlow(h, s, e), NextHistory(h, s, y, e))
  {
    hide HelpersOk, RxInv, TxInv, RxShape, TxShape, AllSentOk, StaleBump, Add32, Handed;
    BumpKeepsRxInv(w, s, y.rx, e);
    BumpKeepsTxInv(w, h, s, y, e);
    BumpKeepsSent(w, h, s, y, e);
    InvShape(w, NextFlow(h, s, e), NextHistory(h, s, y, e));
  }

  lemma FillKeepsInv(w: World, s: Flow, y: History, off: nat, bytes: seq<Byte>)
    requires Inv(w, s, y) && Allowed(s, Fill(off, bytes))
    ensures Inv(w, AppWrite(s, off, bytes), y)
  {
    hide RxInv, TxInv, RxShape, TxShape, AllSentOk, Write, Wrap;
    FillKeepsTxInv(w, s, y, off, bytes);
    RxFrame(w, s, AppWrite(s, off, bytes), y.rx);
    InvShape(w, AppWrite(s, off, bytes), y);
  }

  lemma SendKeepsInv(w: World, h: Helpers, s: Flow, y: History)
    requires HelpersOk(h) && Inv(w, s, y)
    ensures Inv(w, SendState(h, s), NextHistory(h, s, y, Transmit))
  {
    hide HelpersOk, RxInv, TxInv, RxShape, TxShape, SentOk, Add32, SendLength;
    var y' := NextHistory(h, s, y, Transmit);
    SendKeepsTxInv(w, h, s, y);
    TxFrame(w, SendState(h, s), SendState(h, s), y, y');
    RxFrame(w, s, SendState(h, s), y.rx);
    InvShape(w, SendState(h, s), y');
    if SendSegment(h, s).Some? {
      SendIsOk(w, h, s, y);
    }
    forall g | g in y'.sent
      ensures SentOk(w, y', g)
    {
      SentStaysOk(w, s, y, y', g);
    }
  }

  lemma TimeoutKeepsInv(w: World, s: Flow, y: History)
    requires Inv(w, s, y)
    ensures Inv(w, Retransmit(s), y)
  {
    hide RxInv, TxInv, AllSentOk;
    ResetKeepsTxInv(w, s, y);
    ResetKeepsTx(s);
    RxFrame(w, s, Retransmit(s), y.rx);
    InvShape(w, Retransmit(s), y);
  }

  // ----- runs -----

  /** A run: every event is allowed, and every arriving segment genuine, when its turn comes. */
  ghost predicate IsRun(w: World, h: Helpers, s: Flow, y: History, es: seq<Event>)
    requires HelpersOk(h) && Inv(w, s, y)
    decreases |es|
  {
    es == [] ||
    (&& Allowed(s, es[0]) && Genuine(w, s, y, es[0])
     && (StepKeepsInv(w, h, s, y, es[0]);
         IsRun(w, h, NextFlow(h, s, es[0]), NextHistory(h, s, y, es[0]), es[1..])))
  }

  /** Flow and history at the end of a run. */
  ghost function RunEvents(w: World, h: Helpers, s: Flow, y: History, es: seq<Event>): (r: (Flow, History))
    requires HelpersOk(h) && Inv(w, s, y) && IsRun(w, h, s, y, es)
    ensures Inv(w, r.0, r.1)
    decreases |es|
  {
    if es == [] then (s, y)
    else
      StepKeepsInv(w, h, s, y, es[0]);
      RunEvents(w, h, NextFlow(h, s, es[0]), NextHistory(h, s, y, es[0]), es[1..])
  }

  /** A flow as it is set up, with empty rings and nothing sent or received. */
  function Fresh(w: World, rxLen: nat, txLen: nat): Flow
    requires 0 < rxLen < U32 / 2 && 0 < txLen < U32 / 2
  {
    var rxBuf: seq<Byte>, txBuf: seq<Byte> := seq(rxLen, _ => 0), seq(txLen, _ => 0);
    Flow(rxLen, txLen, rxBuf, txBuf, 0, w.irs % U32, rxLen, 0, 0, 0, 0,
         0, w.iss % U32, 0, 0, 0, false, false, false)
  }

  const NO_HISTORY := History(0, 0, [], -1, [])

  lemma FreshIsInv(w: World, rxLen: nat, txLen: nat)
    requires 0 < rxLen < U32 / 2 && 0 < txLen < U32 / 2
    ensures Inv(w, Fresh(w, rxLen, txLen), NO_HISTORY)
  {
  }

  /** Stream reassembly: after any run, every byte announced to the application and not yet
      taken over by it is in its slot, and so is every byte of the out-of-order interval, which
      lies in the receive window. */
  lemma ReassemblyIsCorrect(w: World, h: Helpers, s: Flow, y: History, es: seq<Event>, k: nat)
    requires HelpersOk(h) && Inv(w, s, y) && IsRun(w, h, s, y, es)
    ensures var (s', y') := RunEvents(w, h, s, y, es);
            && |s'.rxBuf| == s.rxLen && s'.rxAvail <= s.rxLen && s.rxLen - s'.rxAvail <= y'.rx
            && (y'.rx - (s.rxLen - s'.rxAvail) <= k < y'.rx ==> s'.rxBuf[k % s.rxLen] == w.stream(k))
            && (s'.rxOooLen > 0 ==>
                  var from := y'.rx + Sub32(s'.rxOooStart, s'.rxNextSeq);
                  && from + s'.rxOooLen <= y'.rx + s'.rxAvail
                  && (!s'.rxFin && from <= k < from + s'.rxOooLen ==> s'.rxBuf[k % s.rxLen] == w.stream(k)))
  {
    hide Sub32, Slot;
    LengthStays(w, h, s, y, es);
    SlotIsMod(k, s.rxLen);
  }

  lemma {:induction false} LengthStays(w: World, h: Helpers, s: Flow, y: History, es: seq<Event>)
    requires HelpersOk(h) && Inv(w, s, y) && IsRun(w, h, s, y, es)
    ensures RunEvents(w, h, s, y, es).0.rxLen == s.rxLen
    decreases |es|
  {
    if es != [] {
      StepKeepsInv(w, h, s, y, es[0]);
      LengthStays(w, h, NextFlow(h, s, es[0]), NextHistory(h, s, y, es[0]), es[1..]);
      StepKeepsLength(h, s, es[0]);
    }
  }

  lemma StepKeepsLength(h: Helpers, s: Flow, e: Event)
    requires HelpersOk(h) && Shape(s) && Allowed(s, e)
    ensures NextFlow(h, s, e).rxLen == s.rxLen
  {
    hide Add32, Sub32, Write, Slot;
    if e.Arrive? && !s.slowpath && !e.p.isSyn && !e.p.oddFlags {
      AckKeepsShape(h, s, e.p);
      ReceiveKeepsTx(h, ProcessAck(h, s, e.p).s, e.p);
    }
  }

  lemma SameOffset(iss: nat, sq: nat, at: nat, i: nat, sq': nat, at': nat, j: nat)
    requires sq == (iss + at) % U32 && sq' == (iss + at') % U32
    requires (sq + i) % U32 == (sq' + j) % U32 && -U32 < (at + i) - (at' + j) < U32
    ensures at + i == at' + j
  {
    AddMod(iss + at, i);
    AddMod(iss + at', j);
    NearbyEqual(iss + at + i, iss + at' + j);
  }

  /** Two logged segments that cover the same sequence number carry the same byte there. */
  lemma LoggedAgree(w: World, y: History, a: Sent, b: Sent, i: nat, j: nat)
    requires SentOk(w, y, a) && SentOk(w, y, b)
    requires i < |a.segment.payload| && j < |b.segment.payload|
    requires (a.segment.sq + i) % U32 == (b.segment.sq + j) % U32
    requires -U32 < (a.at + i) - (b.at + j) < U32
    ensures a.segment.payload[i] == b.segment.payload[j]
  {
    SameOffset(w.iss, a.segment.sq, a.at, i, b.segment.sq, b.at, j);
    assert a.segment.payload[i] == y.data[a.at..a.at + |a.segment.payload|][i];
    assert b.segment.payload[j] == y.data[b.at..b.at + |b.segment.payload|][j];
  }

  /** Retransmission never changes data: whatever was sent, acknowledged, reset and sent again
      during a run, two segments that cover the same sequence number (and are not a whole
      sequence space apart) carry the same byte there. */
  lemma SegmentsAgree(w: World, h: Helpers, s: Flow, y: History, es: seq<Event>, a: Sent, b: Sent, i: nat, j: nat)
    requires HelpersOk(h) && Inv(w, s, y) && IsRun(w, h, s, y, es)
    requires a in RunEvents(w, h, s, y, es).1.sent && b in RunEvents(w, h, s, y, es).1.sent
    requires i < |a.segment.payload| && j < |b.segment.payload|
    requires (a.segment.sq + i) % U32 == (b.segment.sq + j) % U32
    requires -U32 < (a.at + i) - (b.at + j) < U32
    ensures a.segment.payload[i] == b.segment.payload[j]
  {
    var y' := RunEvents(w, h, s, y, es).1;
    hide SentOk, HelpersOk, IsRun, RunEvents, RxInv, TxInv, Shape;
    assert SentOk(w, y', a) && SentOk(w, y', b);
    LoggedAgree(w, y', a, b, i, j);
  }

  /** The dummy byte of a FIN is never payload, and whichever send takes its sequence number,
      first or repeated, carries FIN. */
  lemma FinByteStaysHidden(w: World, h: Helpers, s: Flow, y: History, es: seq<Event>, g: Sent)
    requires HelpersOk(h) && Inv(w, s, y) && IsRun(w, h, s, y, es)
    requires g in RunEvents(w, h, s, y, es).1.sent
    ensures var finAt := RunEvents(w, h, s, y, es).1.finAt;
            && !(g.at <= finAt < g.at + |g.segment.payload|)
            && (g.segment.fin <==> g.at <= finAt < g.at + g.taken)
            && g.taken == |g.segment.payload| + (if g.segment.fin then 1 else 0)
  {
    assert SentOk(w, RunEvents(w, h, s, y, es).1, g);
  }

  /** A reset rewinds sequence number and position to the first unacknowledged byte and makes
      all unacknowledged and unsent bytes available again. */
  lemma ResetRewinds(w: World, s: Flow, y: History)
    requires Inv(w, s, y)
    ensures var t := ResetRetransmit(s);
            && t.txNextSeq == (w.iss + y.una) % U32
            && t.txNextPos == y.una % s.txLen
            && t.txAvail == |y.data| - y.una && t.txSent == 0
  {
    hide Slot;
    ResetKeepsTxInv(w, s, y);
    SlotIsMod(y.una, s.txLen);
  }

  /** Conservation on the transmit side: what is in flight or waiting changes by exactly what the
      application handed over less what the peer acknowledged, and always fits the ring. */
  lemma TransmitConserves(w: World, h: Helpers, s: Flow, y: History, e: Event)
    requires HelpersOk(h) && Inv(w, s, y) && Allowed(s, e) && Genuine(w, s, y, e)
    ensures var (s', y') := (NextFlow(h, s, e), NextHistory(h, s, y, e));
            && (s'.txAvail + s'.txSent) - (s.txAvail + s.txSent) == (|y'.data| - |y.data|) - (y'.una - y.una)
            && s'.txAvail + s'.txSent <= s'.txLen
            && y.data <= y'.data && y.una <= y'.una
            && |y'.data| == |y.data| + (if e.AppBump? && !s.txFin && BumpAccepted(s, e.bumpSeq, e.rxBump, e.txBump, e.done)
                                        then e.txBump else 0)
            && (e.Transmit? || e.Timeout? || e.Fill? ==> y'.data == y.data && y'.una == y.una)
  {
    hide RxInv, AllSentOk, HelpersOk, Holds, Slot, Add32, Sub32, ProcessPacket, SendSegment, StaleBump, Handed;
    StepKeepsInv(w, h, s, y, e);
  }

  // ----- no unread byte is overwritten, whatever arrives -----

  lemma UnreadAfterWrite(s: Flow, rx: nat, off: nat, payload: seq<Byte>, k: nat)
    requires RxShape(s) && Unread(s) <= rx && rx - Unread(s) <= k < rx
    requires off + |payload| <= s.rxAvail
    ensures Write(s.rxBuf, Slot(rx + off, s.rxLen), payload)[Slot(k, s.rxLen)] == s.rxBuf[Slot(k, s.rxLen)]
  {
    ByteAfterWrite(s.rxBuf, rx + off, payload, rx - Unread(s), k);
  }

  lemma OutOfOrderKeepsUnread(s: Flow, sq: nat, payload: seq<Byte>, rx: nat, k: nat)
    requires Shape(s) && Fits(s, sq, payload) && s.rxNextPos == Slot(rx, s.rxLen)
    requires Unread(s) <= rx && rx - Unread(s) <= k < rx
    ensures var t := OutOfOrder(s, sq, payload);
            |t.rxBuf| == s.rxLen && t.rxBuf[Slot(k, s.rxLen)] == s.rxBuf[Slot(k, s.rxLen)]
  {
    hide Slot, Write, Add32, Sub32, SeqPosition;
    PositionOfOffset(s, rx, sq, payload);
    UnreadAfterWrite(s, rx, Sub32(sq, s.rxNextSeq), payload, k);
  }

  lemma InOrderKeepsUnread(h: Helpers, s: Flow, payload: seq<Byte>, rx: nat, k: nat)
    requires HelpersOk(h) && Shape(s) && |payload| <= s.rxAvail && s.rxNextPos == Slot(rx, s.rxLen)
    requires Unread(s) <= rx && rx - Unread(s) <= k < rx
    ensures var t := InOrderData(h, s, payload).0;
            |t.rxBuf| == s.rxLen && t.rxBuf[Slot(k, s.rxLen)] == s.rxBuf[Slot(k, s.rxLen)]
  {
    hide Slot, Write, Add32, Sub32, HelpersOk;
    if |payload| > 0 {
      TrimContract(h, Deliver(s, payload));
      UnreadAfterWrite(s, rx, 0, payload, k);
    }
  }

  lemma ReceiveKeepsUnread(h: Helpers, s: Flow, p: Packet, rx: nat, k: nat)
    requires HelpersOk(h) && Shape(s) && s.rxNextPos == Slot(rx, s.rxLen)
    requires Unread(s) <= rx && rx - Unread(s) <= k < rx
    ensures |Receive(h, s, p).s.rxBuf| == s.rxLen
    ensures Receive(h, s, p).s.rxBuf[Slot(k, s.rxLen)] == s.rxBuf[Slot(k, s.rxLen)]
  {
    hide HelpersOk, Slot, Add32, Sub32, OutOfOrder, InOrderData;
    ArrivalContract(h, s, p);
    var r := h.trimRxBuf(s.rxNextSeq, s.rxAvail, p.sq, |p.payload|);
    if r.Some? {
      var payload := p.payload[r.value.0..|p.payload| - r.value.1];
      var sq := Add32(p.sq, r.value.0);
      OutOfOrderKeepsUnread(s, sq, payload, rx, k);
      if sq == s.rxNextSeq {
        OffsetZero(sq);
        SameRxShape(s, s.(rxRemoteAvail := p.wnd));
        InOrderKeepsUnread(h, s.(rxRemoteAvail := p.wnd), payload, rx, k);
      }
    }
  }

  /** No byte the application has yet to read changes, for any packet at all. */
  lemma UnreadBytesUntouched(h: Helpers, s: Flow, p: Packet, rx: nat, k: nat)
    requires HelpersOk(h) && Shape(s) && s.rxNextPos == Slot(rx, s.rxLen)
    requires Unread(s) <= rx && rx - Unread(s) <= k < rx
    ensures var t := ProcessPacket(h, s, p).s;
            |t.rxBuf| == s.rxLen && t.rxBuf[Slot(k, s.rxLen)] == s.rxBuf[Slot(k, s.rxLen)]
  {
    hide HelpersOk, Slot, Receive, ProcessAck;
    if !s.slowpath && !p.isSyn && !p.oddFlags {
      AckKeepsShape(h, s, p);
      var a := ProcessAck(h, s, p);
      if !a.stop {
        ReceiveKeepsUnread(h, a.s, p, rx, k);
      }
    }
  }

  // ----- the receive bound when the two rings differ in length -----

  /** The check on receive bumps compares with the length of the transmit ring.  It keeps the free
      receive space within the receive ring, for every bump, exactly when the transmit ring is no
      longer than the receive ring or nothing is free. */
  lemma ReceiveBumpBoundIff(s: Flow, bumpSeq: Half)
    requires Shape(s) && !StaleBump(s.bumpSeq, bumpSeq)
    ensures (forall rxBump: Word, txBump: Word, done :: Bump(s, bumpSeq, rxBump, txBump, done).rxAvail <= s.rxLen)
            <==> s.txLen <= s.rxLen || s.rxAvail == 0
  {
    hide StaleBump, Sub32;
    if s.txLen > s.rxLen && s.rxAvail > 0 {
      var rxBump: Word := Min(s.rxLen, s.txLen - s.rxAvail);
      assert BumpAccepted(s, bumpSeq, rxBump, 0, false);
      assert Bump(s, bumpSeq, rxBump, 0, false).rxAvail > s.rxLen;
    }
  }

  /** With more free receive space than the transmit ring is long, every bump is refused, one that only hands
      over data for transmission included, and all it leaves is its number. */
  lemma RoomierReceiveRefusesAll(s: Flow, bumpSeq: Half, rxBump: Word, txBump: Word, done: bool)
    requires Shape(s) && s.rxAvail > s.txLen
    ensures !BumpAccepted(s, bumpSeq, rxBump, txBump, done)
    ensures Bump(s, bumpSeq, rxBump, txBump, done).(bumpSeq := s.bumpSeq) == s
  {
    hide StaleBump;
  }

  /** A bump in order that frees what was given, fits what it hands over, and closes with the dummy byte. */
  predicate Legitimate(s: Flow, bumpSeq: Half, rxBump: Word, txBump: Word, done: bool) {
    && !StaleBump(s.bumpSeq, bumpSeq)
    && s.rxAvail + rxBump <= s.rxLen
    && s.txAvail + s.txSent + (if s.txFin then 0 else txBump) <= s.txLen
    && (done && !s.txFin ==> txBump > 0)
  }

  /** A flow with rings of these lengths. */
  ghost predicate HasRings(s: Flow, rxLen: nat, txLen: nat) {
    Shape(s) && s.rxLen == rxLen && s.txLen == txLen
  }

  /** No legitimate bump is ever refused. */
  ghost predicate TakesLegitimate(rxLen: nat, txLen: nat) {
    forall s, bumpSeq: Half, rxBump: Word, txBump: Word, done |
      HasRings(s, rxLen, txLen) && Legitimate(s, bumpSeq, rxBump, txBump, done) ::
      BumpAccepted(s, bumpSeq, rxBump, txBump, done)
  }

  /** No bump ever makes more room than there is. */
  ghost predicate StaysInReceiveRing(rxLen: nat, txLen: nat) {
    forall s, bumpSeq: Half, rxBump: Word, txBump: Word, done | HasRings(s, rxLen, txLen) ::
      Bump(s, bumpSeq, rxBump, txBump, done).rxAvail <= rxLen
  }

  lemma LegitimateTaken(s: Flow, bumpSeq: Half, rxBump: Word, txBump: Word, done: bool)
    requires Shape(s) && s.rxLen <= s.txLen && Legitimate(s, bumpSeq, rxBump, txBump, done)
    ensures BumpAccepted(s, bumpSeq, rxBump, txBump, done)
  {
    hide StaleBump;
  }

  lemma FreshHasRings(w: World, rxLen: nat, txLen: nat)
    requires 0 < rxLen < U32 / 2 && 0 < txLen < U32 / 2
    ensures HasRings(Fresh(w, rxLen, txLen), rxLen, txLen)
  {
    FreshIsInv(w, rxLen, txLen);
  }

  /** The check against the transmit length takes every legitimate bump exactly for transmit rings no shorter
      than the receive ring, keeps within the receive ring exactly for those no longer, and so is
      right exactly for rings of one length. */
  lemma BumpCheckRightIff(w: World, rxLen: nat, txLen: nat)
    requires 0 < rxLen < U32 / 2 && 0 < txLen < U32 / 2
    ensures TakesLegitimate(rxLen, txLen) <==> rxLen <= txLen
    ensures StaysInReceiveRing(rxLen, txLen) <==> txLen <= rxLen
    ensures TakesLegitimate(rxLen, txLen) && StaysInReceiveRing(rxLen, txLen) <==> rxLen == txLen
  {
    hide Shape, BumpAccepted, Bump, Legitimate, StaleBump;
    var start := Fresh(w, rxLen, txLen);
    FreshHasRings(w, rxLen, txLen);
    FreshTakesZero(w, rxLen, txLen);
    forall s, bumpSeq: Half, rxBump: Word, txBump: Word, done |
      HasRings(s, rxLen, txLen) && Legitimate(s, bumpSeq, rxBump, txBump, done)
      ensures rxLen <= txLen ==> BumpAccepted(s, bumpSeq, rxBump, txBump, done)
    {
      if rxLen <= txLen {
        LegitimateTaken(s, bumpSeq, rxBump, txBump, done);
      }
    }
    if txLen < rxLen {
      RoomierReceiveRefusesAll(start, 0, 0, 0, false);
      assert !TakesLegitimate(rxLen, txLen);
    }
    forall s, bumpSeq: Half, rxBump: Word, txBump: Word, done | HasRings(s, rxLen, txLen)
      ensures txLen <= rxLen ==> Bump(s, bumpSeq, rxBump, txBump, done).rxAvail <= rxLen
    {
      BumpStaysInside(s, bumpSeq, rxBump, txBump, done);
    }
    if rxLen < txLen {
      ReceiveBumpBoundIff(start, 0);
      assert !StaysInReceiveRing(rxLen, txLen);
    }
  }

  lemma BumpStaysInside(s: Flow, bumpSeq: Half, rxBump: Word, txBump: Word, done: bool)
    requires Shape(s)
    ensures s.txLen <= s.rxLen ==> Bump(s, bumpSeq, rxBump, txBump, done).rxAvail <= s.rxLen
  {
    hide Bump;
    if !StaleBump(s.bumpSeq, bumpSeq) {
      ReceiveBumpBoundIff(s, bumpSeq);
    } else {
      StaleChangesNothing(s, bumpSeq, rxBump, txBump, done);
    }
  }

  lemma StaleChangesNothing(s: Flow, bumpSeq: Half, rxBump: Word, txBump: Word, done: bool)
    requires StaleBump(s.bumpSeq, bumpSeq)
    ensures Bump(s, bumpSeq, rxBump, txBump, done) == s
  {
  }

  /** A new flow is open, empty, and all free. */
  lemma FreshTakesZero(w: World, rxLen: nat, txLen: nat)
    requires 0 < rxLen < U32 / 2 && 0 < txLen < U32 / 2
    ensures var s := Fresh(w, rxLen, txLen);
            s.rxAvail == rxLen && !StaleBump(s.bumpSeq, 0) && Legitimate(s, 0, 0, 0, false)
  {
  }
}

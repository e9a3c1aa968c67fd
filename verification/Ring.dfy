/**
 Circular buffers.  Byte number `k` of a stream lives in slot `k mod length`; a window of
 at most `length` consecutive bytes therefore occupies distinct slots.
 */
module Ring {

  type Byte = b: int | 0 <= b < 256

  type Stream = nat -> Byte

  /** `k mod length`, by repeated subtraction. */
  function Slot(k: nat, length: nat): (r: nat)
    requires length > 0
    ensures r < length
  {
    if k < length then k else Slot(k - length, length)
  }

  /** One conditional subtraction, as the code does it after adding to a position. */
  function Wrap(x: nat, length: nat): nat {
    if x >= length then x - length else x
  }

  lemma {:induction false} SlotIsRemainder(k: nat, length: nat) returns (q: nat)
    requires length > 0
    ensures k == q * length + Slot(k, length)
  {
    if k < length {
      q := 0;
    } else {
      var before := SlotIsRemainder(k - length, length);
      q := before + 1;
      OnceMore(before, length);
    }
  }

  lemma OnceMore(q: nat, d: nat)
    ensures (q + 1) * d == q * d + d
  {
  }

  lemma SlotIsMod(k: nat, length: nat)
    requires length > 0
    ensures Slot(k, length) == k % length
  {
    hide Slot;
    var q := SlotIsRemainder(k, length);
    var quotient, remainder := k / length, k % length;
    assert k == quotient * length + remainder;
    DivisionIsUnique(k, length, quotient, remainder, q, Slot(k, length));
  }

  lemma DivisionIsUnique(x: nat, d: nat, q: int, r: nat, q': int, r': nat)
    requires x == q * d + r == q' * d + r' && r < d && r' < d
    ensures r == r'
  {
    if q > q' {
      AtLeastOnce(q - q', q', d);
    } else if q < q' {
      AtLeastOnce(q' - q, q, d);
    }
  }

  lemma AtLeastOnce(t: int, q: int, d: nat)
    requires t >= 1
    ensures (t + q) * d >= q * d + d
  {
    assert (t + q) * d == t * d + q * d;
    assert t * d >= d;
  }

  /** Position and byte number advance in lockstep. */
  lemma {:induction false} SlotStep(k: nat, d: nat, length: nat)
    requires length > 0 && d <= length
    ensures Slot(k + d, length) == Wrap(Slot(k, length) + d, length)
  {
    if k >= length {
      SlotStep(k - length, d, length);
    } else if k + d >= length {
      assert Slot(k + d, length) == Slot(k + d - length, length);
    }
  }

  // ----- split access -----

  /** Write `src` from position `pos` on, wrapping at the end. */
  function Write(buf: seq<Byte>, pos: nat, src: seq<Byte>): (r: seq<Byte>)
    requires pos < |buf| && |src| <= |buf|
    ensures |r| == |buf|
  {
    if pos + |src| <= |buf| then buf[..pos] + src + buf[pos + |src|..]
    else
      var part := |buf| - pos;
      src[part..] + buf[|src| - part..pos] + src[..part]
  }

  /** Read `len` bytes from position `pos` on, wrapping at the end. */
  function Read(buf: seq<Byte>, pos: nat, len: nat): (r: seq<Byte>)
    requires pos < |buf| && len <= |buf|
    ensures |r| == len
  {
    if pos + len <= |buf| then buf[pos..pos + len]
    else buf[pos..] + buf[..len - (|buf| - pos)]
  }

  /** The split write puts byte `j` at `pos + j`, wrapped, and changes nothing else: slot `i`
      gets a byte of `src` if it lies in the written part, before or after the wrap. */
  lemma WriteAt(buf: seq<Byte>, pos: nat, src: seq<Byte>, i: nat)
    requires pos < |buf| && |src| <= |buf| && i < |buf|
    ensures Write(buf, pos, src)[i]
         == if pos <= i < pos + |src| then src[i - pos]
            else if i + |buf| < pos + |src| then src[i + |buf| - pos]
            else buf[i]
  {
    hide Write;
    if pos + |src| <= |buf| {
      StraightWriteAt(buf, pos, src, i);
    } else {
      WrappedWriteAt(buf, pos, src, i);
    }
  }

  lemma StraightWriteAt(buf: seq<Byte>, pos: nat, src: seq<Byte>, i: nat)
    requires pos + |src| <= |buf| && i < |buf| && pos < |buf|
    ensures Write(buf, pos, src)[i] == if pos <= i < pos + |src| then src[i - pos] else buf[i]
  {
    ThreeParts(buf[..pos], src, buf[pos + |src|..], i);
  }

  lemma WrappedWriteAt(buf: seq<Byte>, pos: nat, src: seq<Byte>, i: nat)
    requires pos < |buf| && |src| <= |buf| < pos + |src| && i < |buf|
    ensures Write(buf, pos, src)[i]
         == if pos <= i then src[i - pos] else if i + |buf| < pos + |src| then src[i + |buf| - pos] else buf[i]
  {
    var part := |buf| - pos;
    var front, middle, back := src[part..], buf[|src| - part..pos], src[..part];
    assert Write(buf, pos, src) == front + middle + back;
    ThreeParts(front, middle, back, i);
  }

  lemma ThreeParts(a: seq<Byte>, b: seq<Byte>, c: seq<Byte>, i: nat)
    requires i < |a| + |b| + |c|
    ensures (a + b + c)[i] == if i < |a| then a[i] else if i < |a| + |b| then b[i - |a|] else c[i - |a| - |b|]
  {
  }

  lemma ReadSlots(buf: seq<Byte>, pos: nat, len: nat)
    requires pos < |buf| && len <= |buf|
    ensures forall j | 0 <= j < len :: Read(buf, pos, len)[j] == buf[Wrap(pos + j, |buf|)]
  {
  }

  /** What was written is read back. */
  lemma RoundTrip(buf: seq<Byte>, pos: nat, src: seq<Byte>)
    requires pos < |buf| && |src| <= |buf|
    ensures Read(Write(buf, pos, src), pos, |src|) == src
  {
    ReadSlots(Write(buf, pos, src), pos, |src|);
    forall j | 0 <= j < |src|
      ensures Write(buf, pos, src)[Wrap(pos + j, |buf|)] == src[j]
    {
      WriteAt(buf, pos, src, Wrap(pos + j, |buf|));
    }
  }

  // ----- streams in a ring -----

  /** Bytes `lo` up to `hi` of the stream are in their slots. */
  ghost predicate Holds(buf: seq<Byte>, stream: Stream, lo: nat, hi: nat) {
    |buf| > 0 && forall k: nat | lo <= k < hi :: buf[Slot(k, |buf|)] == stream(k)
  }

  /** Byte number `k` after a write of `src` as bytes `at`, `at + 1`, ... of some stream: a byte
      of `src` if `k` is one of them, else what was there, within one window of the ring. */
  lemma ByteAfterWrite(buf: seq<Byte>, at: nat, src: seq<Byte>, base: nat, k: nat)
    requires |buf| > 0 && base <= at && at + |src| <= base + |buf| && base <= k < base + |buf|
    ensures Write(buf, Slot(at, |buf|), src)[Slot(k, |buf|)]
         == if at <= k < at + |src| then src[k - at] else buf[Slot(k, |buf|)]
  {
    hide Write, Slot;
    var n, pos := |buf|, Slot(at, |buf|);
    WriteAt(buf, pos, src, Slot(k, n));
    if k >= at {
      SlotStep(at, k - at, n);
    } else {
      SlotStep(k, at - k, n);
    }
  }

  /** Writing bytes of the stream keeps what the ring holds of it in the same window. */
  lemma WriteHolds(buf: seq<Byte>, stream: Stream, at: nat, src: seq<Byte>, base: nat, lo: nat, hi: nat)
    requires Holds(buf, stream, lo, hi) && base <= lo && hi <= base + |buf|
    requires base <= at && at + |src| <= base + |buf|
    requires forall j | 0 <= j < |src| && lo <= at + j < hi :: src[j] == stream(at + j)
    ensures Holds(Write(buf, Slot(at, |buf|), src), stream, lo, hi)
  {
    forall k: nat | lo <= k < hi
      ensures Write(buf, Slot(at, |buf|), src)[Slot(k, |buf|)] == stream(k)
    {
      ByteAfterWrite(buf, at, src, base, k);
      if at <= k < at + |src| {
        assert src[k - at] == stream(at + (k - at));
      }
    }
  }

  lemma WriteAdds(buf: seq<Byte>, stream: Stream, at: nat, src: seq<Byte>)
    requires |buf| > 0 && |src| <= |buf|
    requires forall j | 0 <= j < |src| :: src[j] == stream(at + j)
    ensures Holds(Write(buf, Slot(at, |buf|), src), stream, at, at + |src|)
  {
    forall k: nat | at <= k < at + |src|
      ensures Write(buf, Slot(at, |buf|), src)[Slot(k, |buf|)] == stream(k)
    {
      ByteAfterWrite(buf, at, src, at, k);
      assert src[k - at] == stream(at + (k - at));
    }
  }

  /** Reading a held range yields the stream. */
  lemma ReadHolds(buf: seq<Byte>, stream: Stream, at: nat, len: nat)
    requires Holds(buf, stream, at, at + len) && len <= |buf|
    ensures forall j | 0 <= j < len :: Read(buf, Slot(at, |buf|), len)[j] == stream(at + j)
  {
    hide Read, Slot;
    ReadSlots(buf, Slot(at, |buf|), len);
    forall j | 0 <= j < len
      ensures Read(buf, Slot(at, |buf|), len)[j] == stream(at + j)
    {
      SlotStep(at, j, |buf|);
    }
  }
}

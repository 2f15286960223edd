/** Boolean arrays: packing into bits, and reading and writing runs of bits that need not start at a byte. */
module BitTransfer {

  // ---------- bits of a byte ----------

  function Bit(b: bv8, j: nat): bool
    requires j < 8
  {
    match j
    case 0 => b & 0x01 != 0
    case 1 => b & 0x02 != 0
    case 2 => b & 0x04 != 0
    case 3 => b & 0x08 != 0
    case 4 => b & 0x10 != 0
    case 5 => b & 0x20 != 0
    case 6 => b & 0x40 != 0
    case _ => b & 0x80 != 0
  }

  function OneBit(j: nat): bv8
    requires j < 8
  {
    match j
    case 0 => 0x01
    case 1 => 0x02
    case 2 => 0x04
    case 3 => 0x08
    case 4 => 0x10
    case 5 => 0x20
    case 6 => 0x40
    case _ => 0x80
  }

  function SetBit(b: bv8, j: nat, v: bool): bv8
    requires j < 8
  {
    if v then b | OneBit(j) else b & !OneBit(j)
  }

  /** The lowest k bits. */
  function BitMask(k: nat): bv8
    requires k <= 8
  {
    match k
    case 0 => 0
    case 1 => 1
    case 2 => 3
    case 3 => 7
    case 4 => 15
    case 5 => 31
    case 6 => 63
    case 7 => 127
    case _ => 255
  }

  function Shr(b: bv8, s: nat): bv8
    requires s <= 8
  {
    match s
    case 0 => b
    case 1 => b >> 1
    case 2 => b >> 2
    case 3 => b >> 3
    case 4 => b >> 4
    case 5 => b >> 5
    case 6 => b >> 6
    case 7 => b >> 7
    case _ => 0
  }

  /** A shift to the left, cut off to a byte. */
  function Shl(b: bv8, s: nat): bv8
    requires s <= 8
  {
    match s
    case 0 => b
    case 1 => b << 1
    case 2 => b << 2
    case 3 => b << 3
    case 4 => b << 4
    case 5 => b << 5
    case 6 => b << 6
    case 7 => b << 7
    case _ => 0
  }

  lemma SetBitBits(b: bv8, j: nat, v: bool, k: nat)
    requires j < 8 && k < 8
    ensures Bit(SetBit(b, j, v), k) == if k == j then v else Bit(b, k)
  {
  }

  lemma OrBits(a: bv8, b: bv8, k: nat)
    requires k < 8
    ensures Bit(a | b, k) == (Bit(a, k) || Bit(b, k))
  {
  }

  lemma AndBits(a: bv8, b: bv8, k: nat)
    requires k < 8
    ensures Bit(a & b, k) == (Bit(a, k) && Bit(b, k))
  {
  }

  lemma NotBits(a: bv8, k: nat)
    requires k < 8
    ensures Bit(!a, k) == !Bit(a, k)
  {
  }

  lemma MaskBits(m: nat, k: nat)
    requires m <= 8 && k < 8
    ensures Bit(BitMask(m), k) == (k < m) && Bit(0, k) == false && (m < 8 ==> Bit(OneBit(m), k) == (k == m))
  {
  }

  lemma ShiftBits(b: bv8, s: nat, k: nat)
    requires s <= 8 && k < 8
    ensures Bit(Shr(b, s), k) == (k + s < 8 && Bit(b, k + s))
    ensures Bit(Shl(b, s), k) == (k >= s && Bit(b, k - s))
  {
    match s
    case 0 =>
    case 1 =>
    case 2 =>
    case 3 =>
    case 4 =>
    case 5 =>
    case 6 =>
    case _ =>
  }

  // ---------- runs of bits ----------

  /** The number of bytes that n bits need. */
  function BytesFor(n: nat): nat {
    (n + 7) / 8
  }

  lemma LastByte(n: nat)
    ensures if n % 8 == 0 then 8 * BytesFor(n) == n else BytesFor(n) > 0 && 8 * (BytesFor(n) - 1) + n % 8 == n
  {
  }

  function BitAt(s: seq<bv8>, i: nat): bool
    requires i < 8 * |s|
  {
    Bit(s[i / 8], i % 8)
  }

  function SetBitAt(s: seq<bv8>, i: nat, v: bool): (r: seq<bv8>)
    requires i < 8 * |s|
    ensures |r| == |s|
  {
    s[i / 8 := SetBit(s[i / 8], i % 8, v)]
  }

  lemma SetBitAtBits(s: seq<bv8>, i: nat, v: bool, k: nat)
    requires i < 8 * |s| && k < 8 * |s|
    ensures BitAt(SetBitAt(s, i, v), k) == if k == i then v else BitAt(s, k)
  {
    SetBitBits(s[i / 8], i % 8, v, k % 8);
    assert k == 8 * (k / 8) + k % 8 && i == 8 * (i / 8) + i % 8;
  }

  // ---------- packing and unpacking ----------

  /** Packs the elements into bits: an element that is not zero gives a set bit. */
  method ConvertRecordToBoolBuffer(source: seq<int>, target: array<bv8>, numElements: nat)
    requires numElements <= |source| && BytesFor(numElements) <= target.Length
    modifies target
    ensures forall i | 0 <= i < numElements :: BitAt(target[..], i) == (source[i] != 0)
    ensures forall i | numElements <= i < 8 * BytesFor(numElements) :: !BitAt(target[..], i)
  {
    for i := 0 to numElements
      invariant forall j | 0 <= j < i :: BitAt(target[..], j) == (source[j] != 0)
      invariant forall j | i <= j < 8 * BytesFor(i) :: !BitAt(target[..], j)
    {
      var bitVal: bv8 := if source[i] != 0 then 1 else 0;
      ghost var before := target[..];
      if i % 8 == 0 {
        target[i / 8] := bitVal;
      } else {
        target[i / 8] := target[i / 8] | Shl(bitVal, i % 8);
      }
      forall j | 0 <= j < 8 * BytesFor(i + 1)
        ensures BitAt(target[..], j) == if j < i then BitAt(before, j) else j == i && source[i] != 0
      {
        assert j == 8 * (j / 8) + j % 8 && i == 8 * (i / 8) + i % 8;
        if j / 8 == i / 8 {
          PackedByte(before[i / 8], bitVal, i % 8, j % 8);
          assert i % 8 != 0 && j >= i ==> !BitAt(before, j);
        }
      }
    }
  }

  lemma PackedByte(b: bv8, bitVal: bv8, at: nat, k: nat)
    requires at < 8 && k < 8 && (bitVal == 0 || bitVal == 1)
    ensures Bit(b | Shl(bitVal, at), k) == (Bit(b, k) || (k == at && bitVal == 1))
    ensures Bit(bitVal, k) == (k == 0 && bitVal == 1)
  {
    ShiftBits(bitVal, at, k);
    OrBits(b, Shl(bitVal, at), k);
  }

  lemma TestBit(b: bv8, j: nat)
    requires j < 8
    ensures b & OneBit(j) != 0 <==> Bit(b, j)
  {
  }

  /** Unpacks bits into elements that are 0 or 1. */
  method ConvertBoolBufferToRecord(source: array<bv8>, target: array<int>, numElements: nat)
    requires BytesFor(numElements) <= source.Length && numElements <= target.Length
        && source as object != target as object
    modifies target
    ensures forall i | 0 <= i < numElements :: target[i] == if BitAt(source[..], i) then 1 else 0
    ensures forall i | numElements <= i < target.Length :: target[i] == old(target[i])
  {
    ghost var bits := source[..];
    for i := 0 to numElements
      invariant source[..] == bits
      invariant forall j | 0 <= j < i :: target[j] == if BitAt(bits, j) then 1 else 0
      invariant forall j | i <= j < target.Length :: target[j] == old(target[j])
    {
      var bitVal := source[i / 8] & OneBit(i % 8);
      TestBit(source[i / 8], i % 8);
      assert source[i / 8] == bits[i / 8] && BitAt(bits, i) == Bit(bits[i / 8], i % 8);
      target[i] := if bitVal != 0 then 1 else 0;
    }
  }

  // ---------- realignment ----------

  /** The upper bits of a byte, moved to its start. */
  function Upper(b: bv8, startBit: nat): bv8
    requires 1 <= startBit <= 7
  {
    Shr(b, startBit) & BitMask(8 - startBit)
  }

  /** The lower bits of a byte, moved to its end. */
  function Lower(b: bv8, startBit: nat): bv8
    requires 1 <= startBit <= 7
  {
    Shl(b, 8 - startBit) & !BitMask(8 - startBit)
  }

  lemma UpperBits(b: bv8, startBit: nat, k: nat)
    requires 1 <= startBit <= 7 && k < 8
    ensures Bit(Upper(b, startBit), k) == (startBit + k < 8 && Bit(b, startBit + k))
  {
    AndBits(Shr(b, startBit), BitMask(8 - startBit), k);
    ShiftBits(b, startBit, k);
    MaskBits(8 - startBit, k);
  }

  lemma LowerBits(b: bv8, startBit: nat, k: nat)
    requires 1 <= startBit <= 7 && k < 8
    ensures Bit(Lower(b, startBit), k) == (startBit + k >= 8 && Bit(b, startBit + k - 8))
  {
    AndBits(Shl(b, 8 - startBit), !BitMask(8 - startBit), k);
    NotBits(BitMask(8 - startBit), k);
    ShiftBits(b, 8 - startBit, k);
    MaskBits(8 - startBit, k);
  }

  /** The byte at `pos` after a run of bits has been moved to the start. */
  function RealignedByte(source: seq<bv8>, sourceSize: nat, startBit: nat, pos: nat): bv8
    requires sourceSize <= |source| && pos < sourceSize && 1 <= startBit <= 7
  {
    if pos + 1 < sourceSize then Upper(source[pos], startBit) | Lower(source[pos + 1], startBit)
        else Upper(source[pos], startBit)
  }

  ghost function RealignedBit(source: seq<bv8>, sourceSize: nat, startBit: nat, p: nat, k: nat): bool
    requires sourceSize <= |source| && p < sourceSize && k < 8
  {
    if startBit + k < 8 then Bit(source[p], startBit + k)
    else p + 1 < sourceSize && startBit + k < 16 && Bit(source[p + 1], startBit + k - 8)
  }

  lemma RealignedBits(source: seq<bv8>, sourceSize: nat, startBit: nat, pos: nat, k: nat)
    requires sourceSize <= |source| && pos < sourceSize && 1 <= startBit <= 7 && k < 8
    ensures Bit(RealignedByte(source, sourceSize, startBit, pos), k) == RealignedBit(source, sourceSize, startBit,
        pos, k)
  {
    UpperBits(source[pos], startBit, k);
    if pos + 1 < sourceSize {
      LowerBits(source[pos + 1], startBit, k);
      OrBits(Upper(source[pos], startBit), Lower(source[pos + 1], startBit), k);
    }
  }

  /** All bytes after a run of n bits has been moved to the start. */
  function Realigned(source: seq<bv8>, n: nat, startBit: nat): (r: seq<bv8>)
    requires 1 <= startBit <= 7 && BytesFor(n + startBit) <= |source|
    ensures |r| == BytesFor(n)
  {
    seq(BytesFor(n), p requires 0 <= p < BytesFor(n) => RealignedByte(source, BytesFor(n + startBit), startBit, p))
  }

  lemma RealignedRun(source: seq<bv8>, n: nat, startBit: nat, k: nat)
    requires 1 <= startBit <= 7 && BytesFor(n + startBit) <= |source| && k < 8 * BytesFor(n)
    ensures BitAt(Realigned(source, n, startBit), k)
            == (startBit + k < 8 * BytesFor(n + startBit) && BitAt(source, startBit + k))
  {
    RealignedBits(source, BytesFor(n + startBit), startBit, k / 8, k % 8);
  }

  method ShiftByteDown(source: array<bv8>, sourceSize: nat, startBit: nat, pos: nat) returns (shifted: bv8)
    requires sourceSize <= source.Length && pos < sourceSize && 1 <= startBit <= 7
    ensures shifted == RealignedByte(source[..], sourceSize, startBit, pos)
  {
    shifted := Upper(source[pos], startBit);
    if pos + 1 < sourceSize {
      shifted := shifted | Lower(source[pos + 1], startBit);
    }
  }

  /** Moves a run of n bits that starts at `startBit` to the start of the target. */
  method ShiftDown(source: array<bv8>, target: array<bv8>, n: nat, startBit: nat)
    requires source != target && 1 <= startBit <= 7 && BytesFor(n + startBit) <= source.Length
        && BytesFor(n) <= target.Length
    modifies target
    ensures target[..BytesFor(n)] == Realigned(source[..], n, startBit)
    ensures target[BytesFor(n)..] == old(target[BytesFor(n)..])
  {
    var targetSize, sourceSize := BytesFor(n), BytesFor(n + startBit);
    for pos := 0 to targetSize
      invariant forall p | 0 <= p < pos :: target[p] == RealignedByte(source[..], sourceSize, startBit, p)
      invariant target[targetSize..] == old(target[targetSize..])
    {
      target[pos] := ShiftByteDown(source, sourceSize, startBit, pos);
    }
  }

  /** The bytes with the bits of one of them cleared from a position on. */
  function Masked(s: seq<bv8>, at: nat, m: nat): (r: seq<bv8>)
    requires at < |s| && m <= 8
    ensures |r| == |s|
  {
    s[at := s[at] & BitMask(m)]
  }

  lemma MaskedBits(s: seq<bv8>, at: nat, m: nat, k: nat)
    requires at < |s| && m <= 8 && k < 8 * |s|
    ensures BitAt(Masked(s, at, m), k) == (BitAt(s, k) && !(8 * at + m <= k < 8 * at + 8))
  {
    AndBits(s[at], BitMask(m), k % 8);
    MaskBits(m, k % 8);
    assert k == 8 * (k / 8) + k % 8;
  }

  /** The run has been moved to the start, and the bits behind it are zero. */
  ghost predicate RunMoved(source: seq<bv8>, n: nat, startBit: nat, r: seq<bv8>)
    requires BytesFor(n + startBit) <= |source|
  {
    |r| == BytesFor(n) && forall k | 0 <= k < 8 * |r| :: BitAt(r, k) == (k < n && BitAt(source, startBit + k))
  }

  /** The run at the start, with the last byte masked. */
  function MovedRun(source: seq<bv8>, n: nat, startBit: nat): (r: seq<bv8>)
    requires 1 <= n && 1 <= startBit <= 7 && BytesFor(n + startBit) <= |source|
    ensures |r| == BytesFor(n)
  {
    if n % 8 == 0 then Realigned(source, n, startBit)
        else Masked(Realigned(source, n, startBit), BytesFor(n) - 1, n % 8)
  }

  lemma MovedRunBits(source: seq<bv8>, n: nat, startBit: nat, k: nat)
    requires 1 <= n && 1 <= startBit <= 7 && BytesFor(n + startBit) <= |source| && k < 8 * BytesFor(n)
    ensures BitAt(MovedRun(source, n, startBit), k) == (k < n && BitAt(source, startBit + k))
  {
    RealignedRun(source, n, startBit, k);
    LastByte(n);
    LastByte(n + startBit);
    if n % 8 != 0 {
      MaskedBits(Realigned(source, n, startBit), BytesFor(n) - 1, n % 8, k);
    }
  }

  /** If the last byte is masked, the run has been moved, and nothing else is left. */
  lemma RunIsMoved(source: seq<bv8>, n: nat, startBit: nat)
    requires 1 <= n && 1 <= startBit <= 7 && BytesFor(n + startBit) <= |source|
    ensures RunMoved(source, n, startBit, MovedRun(source, n, startBit))
  {
    forall k | 0 <= k < 8 * BytesFor(n)
        ensures BitAt(MovedRun(source, n, startBit), k) == (k < n && BitAt(source, startBit + k)) {
      MovedRunBits(source, n, startBit, k);
    }
  }

  /** Moves a run of n bits that starts at `startBit` to the start of the target, and clears the bits behind it. */
  method Realign(source: array<bv8>, target: array<bv8>, n: nat, startBit: nat)
    requires source != target && 1 <= n && 1 <= startBit <= 7 && BytesFor(n + startBit) <= source.Length
        && target.Length == BytesFor(n)
    modifies target
    ensures RunMoved(source[..], n, startBit, target[..])
  {
    ShiftDown(source, target, n, startBit);
    assert target[..] == target[..BytesFor(n)];
    RunIsMoved(source[..], n, startBit);
    if n % 8 != 0 {
      target[BytesFor(n) - 1] := target[BytesFor(n) - 1] & BitMask(n % 8);
    }
    assert target[..] == MovedRun(source[..], n, startBit);
  }

  // ---------- the response to a poll ----------

  /**
   * What the record makes of the bits that a poll has read. As the code is written, it
   * masks the byte at the last index of the buffer with the response, which may be one
   * byte longer than the new buffer: `memory` is what lies in memory from the start of the new
   * buffer on, the new buffer being its first bytes.
   */
  function PollBits(source: seq<bv8>, memory: seq<bv8>, n: nat, startBit: nat): (r: seq<bv8>)
    requires 1 <= n && 1 <= startBit <= 7 && |source| == BytesFor(n + startBit) <= |memory|
    ensures |r| == |memory|
  {
    var shifted := Realigned(source, n, startBit) + memory[BytesFor(n)..];
    if n % 8 == 0 then shifted else Masked(shifted, |source| - 1, n % 8)
  }

  /** The new buffer holds the run and zeros, and nothing behind the new buffer has changed. */
  ghost predicate PolledWell(source: seq<bv8>, memory: seq<bv8>, n: nat, startBit: nat, after: seq<bv8>)
    requires BytesFor(n + startBit) <= |source| && BytesFor(n) <= |memory|
  {
    |after| == |memory| && RunMoved(source, n, startBit, after[..BytesFor(n)])
        && after[BytesFor(n)..] == memory[BytesFor(n)..]
  }

  /**
   * Rearranges the bits of a response; the new buffer is the start of `buffer2`, and what follows in
   * it lies behind the new buffer.
   */
  method ProcessPollResponse(buffer: array<bv8>, buffer2: array<bv8>, n: nat,
      startBit: nat) returns (result: array<bv8>, size: nat)
    requires 1 <= n && startBit <= 7 && buffer != buffer2 && buffer.Length == BytesFor(n + startBit) <= buffer2.Length
    modifies buffer, buffer2
    ensures size == BytesFor(n)
    ensures if startBit == 0 then
              && result == buffer && buffer2[..] == old(buffer2[..])
              && forall k | 0 <= k < 8 * size :: BitAt(buffer[..], k) == (k < n && BitAt(old(buffer[..]), k))
            else
              result == buffer2 && buffer[..] == old(buffer[..])
                  && buffer2[..] == PollBits(old(buffer[..]), old(buffer2[..]), n, startBit)
  {
    result, size := buffer, BytesFor(n);
    if startBit != 0 {
      ghost var memory := buffer2[..];
      ShiftDown(buffer, buffer2, n, startBit);
      assert buffer2[..] == Realigned(buffer[..], n, startBit) + memory[size..];
      if n % 8 != 0 {
        buffer2[buffer.Length - 1] := buffer2[buffer.Length - 1] & BitMask(n % 8);
      }
      result := buffer2;
    } else {
      ClearRest(buffer, n);
    }
  }

  /**
   * If the response is not longer than the new buffer, or no byte has to be masked, the bits are
   * rearranged as they should be.
   */
  lemma PollWorks(source: seq<bv8>, memory: seq<bv8>, n: nat, startBit: nat)
    requires 1 <= n && 1 <= startBit <= 7 && |source| == BytesFor(n + startBit) <= |memory|
    requires n % 8 == 0 || BytesFor(n + startBit) == BytesFor(n)
    ensures PolledWell(source, memory, n, startBit, PollBits(source, memory, n, startBit))
  {
    RunIsMoved(source, n, startBit);
    assert PollBits(source, memory, n, startBit)[..BytesFor(n)] == MovedRun(source, n, startBit);
  }

  lemma AllBitsSet(k: nat)
    requires k < 8
    ensures Bit(255, k)
  {
  }

  /** Otherwise the mask goes to the byte behind the new buffer, and bits behind the run are left in the new buffer. */
  lemma PollLeavesBits(n: nat, startBit: nat) returns (source: seq<bv8>, memory: seq<bv8>)
    requires 1 <= n && 1 <= startBit <= 7 && n % 8 != 0 && BytesFor(n + startBit) != BytesFor(n)
    ensures |source| == BytesFor(n + startBit) == |memory|
    ensures BitAt(PollBits(source, memory, n, startBit), n) && n < 8 * BytesFor(n)
    ensures !PolledWell(source, memory, n, startBit, PollBits(source, memory, n, startBit))
  {
    source, memory := seq(BytesFor(n + startBit), _ => 255), seq(BytesFor(n + startBit), _ => 0);
    var shifted, after := Realigned(source, n, startBit), PollBits(source, memory, n, startBit);
    RealignedRun(source, n, startBit, n);
    AllBitsSet((startBit + n) % 8);
    assert after[..BytesFor(n)] == shifted && after[..BytesFor(n)][n / 8] == after[n / 8];
  }

  /**
   * The bits of a polled run are rearranged as they should be, whatever has been read and
   * whatever lies behind the new buffer, if and only if whole bytes have been asked for or
   * the response is not longer than the new buffer.
   */
  lemma PollWorksIff(n: nat, startBit: nat)
    requires 1 <= n && 1 <= startBit <= 7
    ensures (forall source: seq<bv8>, memory: seq<bv8> | |source| == BytesFor(n + startBit) <= |memory| ::
               PolledWell(source, memory, n, startBit, PollBits(source, memory, n, startBit)))
            <==> (n % 8 == 0 || BytesFor(n + startBit) == BytesFor(n))
  {
    if n % 8 == 0 || BytesFor(n + startBit) == BytesFor(n) {
      forall source: seq<bv8>, memory: seq<bv8> | |source| == BytesFor(n + startBit) <= |memory|
        ensures PolledWell(source, memory, n, startBit, PollBits(source, memory, n, startBit))
      {
        PollWorks(source, memory, n, startBit);
      }
    } else {
      var source, memory := PollLeavesBits(n, startBit);
    }
  }

  /** For seven bits from bit 4 on, the eighth bit of the new buffer is one that has not been asked for. */
  lemma PollWitness()
    ensures BytesFor(7 + 4) == 2 && BytesFor(7) == 1 && BitAt(PollBits([0, 8], [0, 0], 7, 4), 7)
  {
    RealignedRun([0, 8], 7, 4, 7);
  }

  // ---------- reading ----------

  /** What becomes of a read or write: it is accepted, or reported as failed, although it may have been done. */
  datatype Answer = Accepted | Failed(done: bool)

  /** PLC memory from the start byte of the address on. */
  class BitPlc {
    var bytes: seq<bv8>
    /** What becomes of the reads and writes, by their number. */
    const answers: nat -> Answer
    var tick: nat

    constructor (bytes: seq<bv8>, answers: nat -> Answer)
      ensures this.bytes == bytes && this.answers == answers && tick == 0
    {
      this.bytes, this.answers, tick := bytes, answers, 0;
    }

    method PlcRead(length: nat, buffer: array<bv8>) returns (success: bool, bytesRead: nat)
      requires length <= |bytes| && length <= buffer.Length
      modifies this`tick, buffer
      ensures tick == old(tick) + 1 && success == answers(old(tick)).Accepted?
      ensures success ==> bytesRead == length && buffer[..length] == bytes[..length]
      ensures buffer[length..] == old(buffer[length..])
    {
      success, bytesRead := answers(tick).Accepted?, 0;
      if success || answers(tick).done {
        forall i | 0 <= i < length {
          buffer[i] := bytes[i];
        }
      }
      if success {
        bytesRead := length;
      }
      tick := tick + 1;
    }

    /** Writes one bit; a bit number above 7 means a bit of a later byte. */
    method PlcWriteBit(startByte: nat, startBit: nat, bitValue: bool) returns (success: bool)
      requires 8 * startByte + startBit < 8 * |bytes|
      modifies this
      ensures Progress(bytes, success, tick)
          == Step(old(bytes), SetBitAt(old(bytes), 8 * startByte + startBit, bitValue), answers, old(tick))
    {
      success := answers(tick).Accepted?;
      if success || answers(tick).done {
        bytes := SetBitAt(bytes, 8 * startByte + startBit, bitValue);
      }
      tick := tick + 1;
    }

    method PlcWrite(startByte: nat, length: nat, buffer: seq<bv8>) returns (success: bool, bytesWritten: nat)
      requires length <= |buffer| && startByte + length <= |bytes|
      modifies this
      ensures Progress(bytes, success, tick)
          == Step(old(bytes), PutBytes(old(bytes), startByte, buffer[..length]), answers, old(tick))
      ensures success ==> bytesWritten == length
    {
      success, bytesWritten := answers(tick).Accepted?, 0;
      if success || answers(tick).done {
        bytes := PutBytes(bytes, startByte, buffer[..length]);
      }
      if success {
        bytesWritten := length;
      }
      tick := tick + 1;
    }
  }

  function PutBytes(s: seq<bv8>, at: nat, data: seq<bv8>): (r: seq<bv8>)
    requires at + |data| <= |s|
    ensures |r| == |s| && forall i | 0 <= i < |r| :: r[i] == if at <= i < at + |data| then data[i - at] else s[i]
  {
    s[..at] + data + s[at + |data|..]
  }

  /** The memory of the PLC, whether all writes so far have been accepted, and the number of the next one. */
  datatype Progress = Progress(bytes: seq<bv8>, success: bool, tick: nat)

  /** A single write that should lead to the memory `next`. */
  function Step(mem: seq<bv8>, next: seq<bv8>, answers: nat -> Answer, tick: nat): Progress {
    match answers(tick)
    case Accepted => Progress(next, true, tick + 1)
    case Failed(done) => Progress(if done then next else mem, false, tick + 1)
  }

  /** Clears the bits of the last byte behind the first n bits. */
  method ClearRest(buffer: array<bv8>, n: nat)
    requires 1 <= n && buffer.Length == BytesFor(n)
    modifies buffer
    ensures forall k | 0 <= k < 8 * buffer.Length :: BitAt(buffer[..], k) == (k < n && BitAt(old(buffer[..]), k))
  {
    if n % 8 != 0 {
      ghost var bits := buffer[..];
      buffer[buffer.Length - 1] := buffer[buffer.Length - 1] & BitMask(n % 8);
      assert buffer[..] == Masked(bits, buffer.Length - 1, n % 8);
      forall k | 0 <= k < 8 * buffer.Length ensures BitAt(buffer[..], k) == (k < n && BitAt(bits, k)) {
        MaskedBits(bits, buffer.Length - 1, n % 8, k);
      }
    }
  }

  /**
   * Reads n bits from `startBit` on. As the number of bytes read is compared with the size
   * of the buffer, the read fails if the run needs one byte more than the buffer has.
   */
  method ReadFromPlc(plc: BitPlc, buffer: array<bv8>, n: nat, startBit: nat) returns (success: bool)
    requires 1 <= n && startBit <= 7 && buffer.Length == BytesFor(n) && BytesFor(n + startBit) <= |plc.bytes|
    modifies plc`tick, buffer
    ensures success <==>
        plc.answers(old(plc.tick)).Accepted? && (startBit == 0 || BytesFor(n + startBit) == BytesFor(n))
    ensures success ==> RunMoved(plc.bytes, n, startBit, buffer[..])
    ensures plc.tick == old(plc.tick) + 1
  {
    var bufferUsed, bufferUsedSize := buffer, buffer.Length;
    if startBit != 0 {
      bufferUsedSize := BytesFor(n + startBit);
      bufferUsed := new bv8[bufferUsedSize];
    }
    var accepted, bytesRead := plc.PlcRead(bufferUsedSize, bufferUsed);
    success := accepted && bytesRead == buffer.Length;
    if startBit != 0 {
      if success {
        assert bufferUsed[..] == bufferUsed[..bufferUsedSize] == plc.bytes[..bufferUsedSize];
        Realign(bufferUsed, buffer, n, startBit);
      }
    } else if success {
      assert buffer[..] == buffer[..buffer.Length] == plc.bytes[..buffer.Length];
      ClearRest(buffer, n);
    }
  }

  // ---------- writing ----------

  /** The bits of a byte, moved up. */
  function Raised(b: bv8, startBit: nat): bv8
    requires 1 <= startBit <= 7
  {
    Shl(b, startBit) & !BitMask(startBit)
  }

  /** The bits that go from a byte into the next one, as the code masks them. */
  function Carried(b: bv8, startBit: nat): bv8
    requires 1 <= startBit <= 7
  {
    Shr(b, 8 - startBit) & BitMask(8 - startBit)
  }

  /** A byte of the buffer in which the bits have been moved up, as the code computes it. */
  function ShiftedByte(buffer: seq<bv8>, pos: nat, startBit: nat): bv8
    requires pos <= |buffer| && 1 <= startBit <= 7
  {
    var raised := if pos < |buffer| then Raised(buffer[pos], startBit) else 0;
    if pos > 0 then raised | Carried(buffer[pos - 1], startBit) else raised
  }

  lemma FirstShiftedBits(buffer: seq<bv8>, startBit: nat, k: nat)
    requires buffer != [] && 1 <= startBit <= 7 && k < 8
    ensures Bit(ShiftedByte(buffer, 0, startBit), k) == (k >= startBit && Bit(buffer[0], k - startBit))
  {
    AndBits(Shl(buffer[0], startBit), !BitMask(startBit), k);
    NotBits(BitMask(startBit), k);
    ShiftBits(buffer[0], startBit, k);
    MaskBits(startBit, k);
  }

  /** Writes the bits of a byte one by one; there are no bits above 7, so those written there are 0. */
  function WriteBits(mem: seq<bv8>, base: nat, b: bv8, from: nat, to: nat): (r: seq<bv8>)
    requires base + to <= 8 * |mem|
    ensures |r| == |mem|
    decreases if from < to then to - from else 0
  {
    if from >= to then mem else WriteBits(SetBitAt(mem, base + from, from < 8 && Bit(b, from)), base, b, from + 1, to)
  }

  lemma {:induction false} WriteBitsAt(mem: seq<bv8>, base: nat, b: bv8, from: nat, to: nat, k: nat)
    requires base + to <= 8 * |mem| && k < 8 * |mem|
    ensures var after := WriteBits(mem, base, b, from, to);
            BitAt(after, k) == if base + from <= k < base + to then k - base < 8 && Bit(b, k - base) else BitAt(mem, k)
    decreases if from < to then to - from else 0
  {
    if from < to {
      var v := from < 8 && Bit(b, from);
      var next := SetBitAt(mem, base + from, v);
      SetBitAtBits(mem, base + from, v, k);
      assert BitAt(next, k) == if k == base + from then v else BitAt(mem, k);
      WriteBitsAt(next, base, b, from + 1, to, k);
      assert WriteBits(mem, base, b, from, to) == WriteBits(next, base, b, from + 1, to);
    }
  }

  /** Writes the bits of a byte one by one, until a write fails. */
  function TryBits(mem: seq<bv8>, base: nat, b: bv8, from: nat, end: nat, answers: nat -> Answer,
      tick: nat): (p: Progress)
    requires base + end <= 8 * |mem|
    ensures |p.bytes| == |mem|
    decreases if from < end then end - from else 0
  {
    if from >= end then Progress(mem, true, tick) else
      var p := Step(mem, SetBitAt(mem, base + from, from < 8 && Bit(b, from)), answers, tick);
      if p.success then TryBits(p.bytes, base, b, from + 1, end, answers, p.tick) else p
  }

  predicate Accepts(answers: nat -> Answer, tick: nat, count: nat) {
    forall i | tick <= i < tick + count :: answers(i).Accepted?
  }

  lemma AcceptsBoth(answers: nat -> Answer, tick: nat, a: nat, b: nat)
    ensures Accepts(answers, tick, a + b) <==> Accepts(answers, tick, a) && Accepts(answers, tick + a, b)
  {
  }

  /** Of the single bits, some first ones are written, and all of them if and only if all writes are accepted. */
  lemma {:induction false} SomeBits(mem: seq<bv8>, base: nat, b: bv8, from: nat, end: nat, answers: nat -> Answer,
      tick: nat)
    returns (m: nat)
    requires base + end <= 8 * |mem| && from <= end
    ensures var p := TryBits(mem, base, b, from, end, answers, tick);
            && from <= m <= end && p.bytes == WriteBits(mem, base, b, from, m) && (p.success ==> m == end)
            && (p.success <==> Accepts(answers, tick, end - from)) && (p.success ==> p.tick == tick + (end - from))
    decreases end - from
  {
    m := from;
    if from < end {
      var next := SetBitAt(mem, base + from, from < 8 && Bit(b, from));
      if answers(tick).Accepted? {
        m := SomeBits(next, base, b, from + 1, end, answers, tick + 1);
      } else if answers(tick).done {
        m := from + 1;
        assert WriteBits(next, base, b, m, m) == next;
      }
    }
  }

  /** The number of whole bytes that are written at once; -1 if the run ends within the first byte. */
  function WholeBytes(n: nat, startBit: nat): int {
    if startBit == 0 then n / 8 else (n + startBit) / 8 - 1
  }

  function HeadBits(n: nat, startBit: nat): nat
    requires startBit <= 7
  {
    if startBit == 0 then 0 else if n < 8 - startBit then n else 8 - startBit
  }

  /** PLC memory after the bits of the first byte, if the run does not start with a byte. */
  function AfterHead(mem: seq<bv8>, buffer: seq<bv8>, n: nat, startBit: nat): (r: seq<bv8>)
    requires 1 <= n && startBit <= 7 && |buffer| == BytesFor(n) && |mem| == BytesFor(n) + 4
    ensures |r| == |mem|
  {
    if startBit == 0 then mem
        else WriteBits(mem, 0, ShiftedByte(buffer, 0, startBit), startBit, startBit + HeadBits(n, startBit))
  }

  /** The bytes that are written at once: they are taken from the start of the shifted buffer. */
  function Middle(buffer: seq<bv8>, n: nat, startBit: nat): (r: seq<bv8>)
    requires 1 <= n && startBit <= 7 && |buffer| == BytesFor(n) && n - HeadBits(n, startBit) >= 8
    ensures |r| == WholeBytes(n, startBit)
  {
    if startBit == 0 then buffer[..n / 8]
    else seq(WholeBytes(n, startBit), pos requires 0 <= pos < WholeBytes(n, startBit) =>
           ShiftedByte(buffer, pos, startBit))
  }

  /** The number of bits that are written before the last byte. */
  function BitsBeforeTail(n: nat, startBit: nat): int
    requires startBit <= 7
  {
    HeadBits(n, startBit) + if n - HeadBits(n, startBit) >= 8 then 8 * WholeBytes(n, startBit) else 0
  }

  /** PLC memory after the first byte and the bytes that are written at once. */
  function AfterMiddle(mem: seq<bv8>, buffer: seq<bv8>, n: nat, startBit: nat): (r: seq<bv8>)
    requires 1 <= n && startBit <= 7 && |buffer| == BytesFor(n) && |mem| == BytesFor(n) + 4
    ensures |r| == |mem|
  {
    var m1 := AfterHead(mem, buffer, n, startBit);
    if n - HeadBits(n, startBit) >= 8 then PutBytes(m1, if startBit == 0 then 0 else 1, Middle(buffer, n, startBit))
        else m1
  }

  /** The byte of the PLC that is written last, bit by bit. */
  function TailAt(n: nat, startBit: nat): nat {
    WholeBytes(n, startBit) + if startBit == 0 then 0 else 1
  }

  /** Where its bits are taken from; what lies in memory behind the buffer is `beyond`. */
  function TailByte(buffer: seq<bv8>, beyond: bv8, n: nat, startBit: nat): bv8 {
    if TailAt(n, startBit) < |buffer| then buffer[TailAt(n, startBit)] else beyond
  }

  /**
   * PLC memory after a write of n bits, as the code is written. For some runs the code takes the
   * last bits from behind the buffer.
   */
  function PlcAfter(mem: seq<bv8>, buffer: seq<bv8>, beyond: bv8, n: nat, startBit: nat): (r: seq<bv8>)
    requires 1 <= n && startBit <= 7 && |buffer| == BytesFor(n) && |mem| == BytesFor(n) + 4
    ensures |r| == |mem|
  {
    var m2 := AfterMiddle(mem, buffer, n, startBit);
    if BitsBeforeTail(n, startBit) < n then
      WriteBits(m2, 8 * TailAt(n, startBit), TailByte(buffer, beyond, n, startBit), 0, startBit + n % 8)
    else m2
  }

  /** The single bits at the start of a run. */
  function TryHead(mem: seq<bv8>, buffer: seq<bv8>, n: nat, startBit: nat, answers: nat -> Answer,
      tick: nat): (p: Progress)
    requires 1 <= n && startBit <= 7 && |buffer| == BytesFor(n) && |mem| == BytesFor(n) + 4
    ensures |p.bytes| == |mem|
  {
    if startBit == 0 then Progress(mem, true, tick)
    else TryBits(mem, 0, ShiftedByte(buffer, 0, startBit), startBit, startBit + HeadBits(n, startBit), answers, tick)
  }

  /** The single bits at the start and the bytes that are written at once. */
  function TryMiddle(mem: seq<bv8>, buffer: seq<bv8>, n: nat, startBit: nat, answers: nat -> Answer,
      tick: nat): (p: Progress)
    requires 1 <= n && startBit <= 7 && |buffer| == BytesFor(n) && |mem| == BytesFor(n) + 4
    ensures |p.bytes| == |mem|
  {
    var p := TryHead(mem, buffer, n, startBit, answers, tick);
    if !p.success || n - HeadBits(n, startBit) < 8 then p
    else Step(p.bytes, PutBytes(p.bytes, if startBit == 0 then 0 else 1, Middle(buffer, n, startBit)), answers, p.tick)
  }

  /** A write of n bits: single bits, then whole bytes, then single bits again, until a write fails. */
  function TryRun(mem: seq<bv8>, buffer: seq<bv8>, beyond: bv8, n: nat, startBit: nat, answers: nat -> Answer,
      tick: nat): (p: Progress)
    requires 1 <= n && startBit <= 7 && |buffer| == BytesFor(n) && |mem| == BytesFor(n) + 4
    ensures |p.bytes| == |mem|
  {
    TryTail(TryMiddle(mem, buffer, n, startBit, answers, tick), buffer, beyond, n, startBit, answers)
  }

  /** The single bits at the end of a run, if nothing has failed before. */
  function TryTail(p: Progress, buffer: seq<bv8>, beyond: bv8, n: nat, startBit: nat, answers: nat -> Answer):
      (q: Progress)
    requires 1 <= n && startBit <= 7 && |buffer| == BytesFor(n) && |p.bytes| == BytesFor(n) + 4
    ensures |q.bytes| == |p.bytes|
  {
    if !p.success || BitsBeforeTail(n, startBit) >= n then p
    else TryBits(p.bytes, 8 * TailAt(n, startBit), TailByte(buffer, beyond, n, startBit), 0, startBit + n % 8, answers,
                 p.tick)
  }

  /** The number of single writes for a run. */
  function WriteCount(n: nat, startBit: nat): nat
    requires startBit <= 7
  {
    FirstCount(n, startBit) + if BitsBeforeTail(n, startBit) < n then startBit + n % 8 else 0
  }

  function FirstCount(n: nat, startBit: nat): nat
    requires startBit <= 7
  {
    HeadBits(n, startBit) + if n - HeadBits(n, startBit) >= 8 then 1 else 0
  }

  /** The first n bits of the buffer are in the run, and no other bit of the PLC has changed. */
  ghost predicate WroteRun(mem: seq<bv8>, buffer: seq<bv8>, n: nat, startBit: nat, after: seq<bv8>)
    requires n <= 8 * |buffer|
  {
    |after| == |mem|
    && forall k | 0 <= k < 8 * |mem| :: BitAt(after, k) == if startBit <= k < startBit + n
        then BitAt(buffer, k - startBit) else BitAt(mem, k)
  }

  lemma AlignedWrite(mem: seq<bv8>, buffer: seq<bv8>, beyond: bv8, n: nat, k: nat)
    requires 1 <= n && |buffer| == BytesFor(n) && |mem| == BytesFor(n) + 4 && k < 8 * |mem|
    ensures BitAt(PlcAfter(mem, buffer, beyond, n, 0), k) == if k < n then BitAt(buffer, k) else BitAt(mem, k)
  {
    var m2 := PutBytes(mem, 0, buffer[..n / 8]);
    WholeBytesBit(mem, buffer, n, k);
    assert AfterMiddle(mem, buffer, n, 0) == m2;
    if n % 8 != 0 {
      WriteBitsAt(m2, 8 * (n / 8), buffer[n / 8], 0, n % 8, k);
      assert TailAt(n, 0) == n / 8;
    }
  }

  lemma WriteWithinByte(mem: seq<bv8>, buffer: seq<bv8>, beyond: bv8, n: nat, startBit: nat, k: nat)
    requires 1 <= n && 1 <= startBit && startBit + n <= 8 && |buffer| == BytesFor(n) && |mem| == BytesFor(n) + 4
        && k < 8 * |mem|
    ensures var after := PlcAfter(mem, buffer, beyond, n, startBit);
            BitAt(after, k) == if startBit <= k < startBit + n then BitAt(buffer, k - startBit) else BitAt(mem, k)
  {
    FirstByteBits(mem, buffer, startBit, startBit + n, k);
  }

  /** Runs that start with a byte or lie within one byte are written as they should be. */
  lemma WriteCorrect(mem: seq<bv8>, buffer: seq<bv8>, beyond: bv8, n: nat, startBit: nat)
    requires 1 <= n && startBit <= 7 && |buffer| == BytesFor(n) && |mem| == BytesFor(n) + 4
    requires startBit == 0 || startBit + n <= 8
    ensures WroteRun(mem, buffer, n, startBit, PlcAfter(mem, buffer, beyond, n, startBit))
  {
    forall k | 0 <= k < 8 * |mem|
      ensures var after := PlcAfter(mem, buffer, beyond, n, startBit);
              BitAt(after, k) == if startBit <= k < startBit + n then BitAt(buffer, k - startBit) else BitAt(mem, k)
    {
      if startBit == 0 {
        AlignedWrite(mem, buffer, beyond, n, k);
      } else {
        WriteWithinByte(mem, buffer, beyond, n, startBit, k);
      }
    }
  }

  /** Every run that starts within a byte and reaches into the next one is written wrongly for some contents. */
  lemma WriteGoesWrong(beyond: bv8, n: nat, startBit: nat) returns (mem: seq<bv8>, buffer: seq<bv8>)
    requires 1 <= startBit <= 7 && startBit + n > 8
    ensures |buffer| == BytesFor(n) && |mem| == BytesFor(n) + 4 && forall k | n <= k < 8 * |buffer| :: !BitAt(buffer, k)
    ensures !WroteRun(mem, buffer, n, startBit, PlcAfter(mem, buffer, beyond, n, startBit))
  {
    mem := seq(BytesFor(n) + 4, _ => 0);
    var zeros := seq(BytesFor(n), _ => 0);
    var v := n > 8 || n + startBit >= 16 || !Bit(beyond, 0);
    buffer := SetBitAt(zeros, 8 - startBit, v);
    forall k | 0 <= k < 8 * |buffer| ensures BitAt(buffer, k) == (k == 8 - startBit && v) {
      SetBitAtBits(zeros, 8 - startBit, v, k);
    }
    var after := PlcAfter(mem, buffer, beyond, n, startBit);
    SecondByteWrong(mem, buffer, beyond, n, startBit);
    assert BitAt(buffer, 8 - startBit) == v;
  }

  /** The first bit of the second byte that is written for such a run. */
  lemma SecondByteWrong(mem: seq<bv8>, buffer: seq<bv8>, beyond: bv8, n: nat, startBit: nat)
    requires 1 <= startBit <= 7 && startBit + n > 8 && |buffer| == BytesFor(n) && |mem| == BytesFor(n) + 4
    ensures BitAt(PlcAfter(mem, buffer, beyond, n, startBit), 8)
            == (n + startBit < 16 && Bit(if n > 8 then buffer[1] else beyond, 0))
  {
    var m2 := AfterMiddle(mem, buffer, n, startBit);
    if n + startBit >= 16 {
      SecondByteMiddle(mem, buffer, n, startBit);
      if BitsBeforeTail(n, startBit) < n {
        assert TailAt(n, startBit) >= 2;
        WriteBitsAt(m2, 8 * TailAt(n, startBit), TailByte(buffer, beyond, n, startBit), 0, startBit + n % 8, 8);
      }
    } else {
      assert TailAt(n, startBit) == 1;
      WriteBitsAt(m2, 8, TailByte(buffer, beyond, n, startBit), 0, startBit + n % 8, 8);
    }
  }

  lemma SecondByteMiddle(mem: seq<bv8>, buffer: seq<bv8>, n: nat, startBit: nat)
    requires 1 <= startBit <= 7 && startBit + n >= 16 && |buffer| == BytesFor(n) && |mem| == BytesFor(n) + 4
    ensures !BitAt(AfterMiddle(mem, buffer, n, startBit), 8)
  {
    FirstShiftedBits(buffer, startBit, 0);
    assert AfterMiddle(mem, buffer, n, startBit)[1] == ShiftedByte(buffer, 0, startBit);
  }

  /**
   * A write of n bits gives the run the bits of the buffer and leaves all others alone,
   * whatever the buffer and the PLC hold, if and only if the run starts with a byte or
   * lies within one byte.
   */
  lemma WriteCorrectIff(beyond: bv8, n: nat, startBit: nat)
    requires 1 <= n && startBit <= 7
    ensures (forall mem: seq<bv8>, buffer: seq<bv8> | |mem| == BytesFor(n) + 4 && |buffer| == BytesFor(n) ::
               WroteRun(mem, buffer, n, startBit, PlcAfter(mem, buffer, beyond, n, startBit)))
            <==> (startBit == 0 || startBit + n <= 8)
  {
    if startBit == 0 || startBit + n <= 8 {
      forall mem: seq<bv8>, buffer: seq<bv8> | |mem| == BytesFor(n) + 4 && |buffer| == BytesFor(n)
        ensures WroteRun(mem, buffer, n, startBit, PlcAfter(mem, buffer, beyond, n, startBit))
      {
        WriteCorrect(mem, buffer, beyond, n, startBit);
      }
    } else {
      var mem, buffer := WriteGoesWrong(beyond, n, startBit);
    }
  }

  lemma HeadSucceeds(mem: seq<bv8>, buffer: seq<bv8>, n: nat, startBit: nat, answers: nat -> Answer, tick: nat)
    requires 1 <= n && startBit <= 7 && |buffer| == BytesFor(n) && |mem| == BytesFor(n) + 4
    ensures var p, count := TryHead(mem, buffer, n, startBit, answers, tick), HeadBits(n, startBit);
            && (p.success <==> Accepts(answers, tick, count))
            && (p.success ==> p.bytes == AfterHead(mem, buffer, n, startBit) && p.tick == tick + count)
  {
    if startBit != 0 {
      var m := SomeBits(mem, 0, ShiftedByte(buffer, 0, startBit), startBit, startBit + HeadBits(n, startBit), answers,
                        tick);
    }
  }

  lemma MiddleSucceeds(mem: seq<bv8>, buffer: seq<bv8>, n: nat, startBit: nat, answers: nat -> Answer, tick: nat)
    requires 1 <= n && startBit <= 7 && |buffer| == BytesFor(n) && |mem| == BytesFor(n) + 4
    ensures var p := TryMiddle(mem, buffer, n, startBit, answers, tick);
            var count := FirstCount(n, startBit);
            && (p.success <==> Accepts(answers, tick, count))
            && (p.success ==> p.bytes == AfterMiddle(mem, buffer, n, startBit) && p.tick == tick + count)
  {
    HeadSucceeds(mem, buffer, n, startBit, answers, tick);
    AcceptsBoth(answers, tick, HeadBits(n, startBit), 1);
  }

  lemma TailSucceeds(p: Progress, buffer: seq<bv8>, beyond: bv8, n: nat, startBit: nat, answers: nat -> Answer)
    requires 1 <= n && startBit <= 7 && |buffer| == BytesFor(n) && |p.bytes| == BytesFor(n) + 4
    requires p.success && BitsBeforeTail(n, startBit) < n
    ensures var q := TryTail(p, buffer, beyond, n, startBit, answers);
            && (q.success <==> Accepts(answers, p.tick, startBit + n % 8))
            && (q.success ==> q.bytes == WriteBits(p.bytes, 8 * TailAt(n, startBit),
                                                   TailByte(buffer, beyond, n, startBit), 0, startBit + n % 8))
  {
    var m := SomeBits(p.bytes, 8 * TailAt(n, startBit), TailByte(buffer, beyond, n, startBit), 0, startBit + n % 8,
                      answers, p.tick);
  }

  /**
   * A write of n bits succeeds if and only if all its single writes are accepted, and then the
   * memory is what the code makes of it.
   */
  lemma RunSucceedsIff(mem: seq<bv8>, buffer: seq<bv8>, beyond: bv8, n: nat, startBit: nat, answers: nat -> Answer,
      tick: nat)
    requires 1 <= n && startBit <= 7 && |buffer| == BytesFor(n) && |mem| == BytesFor(n) + 4
    ensures var p := TryRun(mem, buffer, beyond, n, startBit, answers, tick);
            && (p.success <==> Accepts(answers, tick, WriteCount(n, startBit)))
            && (p.success ==> p.bytes == PlcAfter(mem, buffer, beyond, n, startBit))
  {
    MiddleSucceeds(mem, buffer, n, startBit, answers, tick);
    AcceptsBoth(answers, tick, FirstCount(n, startBit), startBit + n % 8);
    var p := TryMiddle(mem, buffer, n, startBit, answers, tick);
    if p.success && BitsBeforeTail(n, startBit) < n {
      TailSucceeds(p, buffer, beyond, n, startBit, answers);
    }
  }

  /** A run that starts with a byte or lies within one is written from its first bit on, up to where a write fails. */
  lemma WrittenPart(mem: seq<bv8>, buffer: seq<bv8>, beyond: bv8, n: nat, startBit: nat, answers: nat -> Answer,
      tick: nat)
    returns (m: nat)
    requires 1 <= n && startBit <= 7 && |buffer| == BytesFor(n) && |mem| == BytesFor(n) + 4
    requires startBit == 0 || startBit + n <= 8
    ensures var p := TryRun(mem, buffer, beyond, n, startBit, answers, tick);
            m <= n && (p.success ==> m == n) && WroteRun(mem, buffer, m, startBit, p.bytes)
  {
    if startBit == 0 {
      m := WholeBytesPart(mem, buffer, n, answers, tick);
      var p := TryMiddle(mem, buffer, n, 0, answers, tick);
      if p.success && n % 8 != 0 {
        m := LastBytePart(mem, p.bytes, buffer, n, answers, p.tick);
      }
    } else {
      m := PartWithinByte(mem, buffer, n, startBit, answers, tick);
    }
  }

  lemma PartWithinByte(mem: seq<bv8>, buffer: seq<bv8>, n: nat, startBit: nat, answers: nat -> Answer, tick: nat)
    returns (m: nat)
    requires 1 <= n && 1 <= startBit && startBit + n <= 8 && |buffer| == BytesFor(n) && |mem| == BytesFor(n) + 4
    ensures var p := TryHead(mem, buffer, n, startBit, answers, tick);
            m <= n && (p.success ==> m == n) && WroteRun(mem, buffer, m, startBit, p.bytes)
  {
    var first := ShiftedByte(buffer, 0, startBit);
    var end := SomeBits(mem, 0, first, startBit, startBit + n, answers, tick);
    m := end - startBit;
    forall k | 0 <= k < 8 * |mem|
      ensures BitAt(WriteBits(mem, 0, first, startBit, end), k)
          == if startBit <= k < end then BitAt(buffer, k - startBit) else BitAt(mem, k)
    {
      FirstByteBits(mem, buffer, startBit, end, k);
    }
  }

  lemma FirstByteBits(mem: seq<bv8>, buffer: seq<bv8>, startBit: nat, end: nat, k: nat)
    requires 1 <= startBit <= end <= 8 && startBit < 8 && buffer != [] && mem != [] && k < 8 * |mem|
    ensures BitAt(WriteBits(mem, 0, ShiftedByte(buffer, 0, startBit), startBit, end), k)
        == if startBit <= k < end then BitAt(buffer, k - startBit) else BitAt(mem, k)
  {
    WriteBitsAt(mem, 0, ShiftedByte(buffer, 0, startBit), startBit, end, k);
    if k < 8 {
      FirstShiftedBits(buffer, startBit, k);
    }
  }

  lemma WholeBytesPart(mem: seq<bv8>, buffer: seq<bv8>, n: nat, answers: nat -> Answer, tick: nat) returns (m: nat)
    requires 1 <= n && |buffer| == BytesFor(n) && |mem| == BytesFor(n) + 4
    ensures var p := TryMiddle(mem, buffer, n, 0, answers, tick);
            m <= n && (p.success ==> m == 8 * (n / 8)) && WroteRun(mem, buffer, m, 0, p.bytes)
  {
    m := 0;
    if n >= 8 && (answers(tick).Accepted? || answers(tick).done) {
      m := 8 * (n / 8);
      forall k | 0 <= k < 8 * |mem|
        ensures BitAt(PutBytes(mem, 0, buffer[..n / 8]), k) == if k < m then BitAt(buffer, k) else BitAt(mem, k)
      {
        WholeBytesBit(mem, buffer, n, k);
      }
    }
  }

  lemma LastBytePart(mem: seq<bv8>, now: seq<bv8>, buffer: seq<bv8>, n: nat, answers: nat -> Answer, tick: nat)
    returns (m: nat)
    requires n % 8 != 0 && |buffer| == BytesFor(n) && |mem| == BytesFor(n) + 4
    requires WroteRun(mem, buffer, 8 * (n / 8), 0, now)
    ensures var p := TryBits(now, 8 * (n / 8), buffer[n / 8], 0, n % 8, answers, tick);
            m <= n && (p.success ==> m == n) && WroteRun(mem, buffer, m, 0, p.bytes)
  {
    var whole := 8 * (n / 8);
    var end := SomeBits(now, whole, buffer[n / 8], 0, n % 8, answers, tick);
    m := whole + end;
    forall k | 0 <= k < 8 * |mem|
      ensures BitAt(WriteBits(now, whole, buffer[n / 8], 0, end), k)
          == if k < m then BitAt(buffer, k) else BitAt(mem, k)
    {
      LastByteBits(mem, now, buffer, n, end, k);
    }
  }

  lemma LastByteBits(mem: seq<bv8>, now: seq<bv8>, buffer: seq<bv8>, n: nat, end: nat, k: nat)
    requires end <= n % 8 && |buffer| == BytesFor(n) && n % 8 != 0 && |now| == |mem| == BytesFor(n) + 4 && k < 8 * |mem|
    requires BitAt(now, k) == if k < 8 * (n / 8) then BitAt(buffer, k) else BitAt(mem, k)
    ensures BitAt(WriteBits(now, 8 * (n / 8), buffer[n / 8], 0, end), k)
        == if k < 8 * (n / 8) + end then BitAt(buffer, k) else BitAt(mem, k)
  {
    WriteBitsAt(now, 8 * (n / 8), buffer[n / 8], 0, end, k);
  }

  lemma WholeBytesBit(mem: seq<bv8>, buffer: seq<bv8>, n: nat, k: nat)
    requires |buffer| == BytesFor(n) && |mem| == BytesFor(n) + 4 && k < 8 * |mem|
    ensures BitAt(PutBytes(mem, 0, buffer[..n / 8]), k) == if k < 8 * (n / 8) then BitAt(buffer, k) else BitAt(mem, k)
  {
  }

  /** Moves the bits of the buffer up, for a run that starts within a byte. */
  method ShiftUp(buffer: seq<bv8>, bufferUsed: array<bv8>, startBit: nat)
    requires 1 <= startBit <= 7 && bufferUsed.Length <= |buffer| + 1
    modifies bufferUsed
    ensures forall pos | 0 <= pos < bufferUsed.Length :: bufferUsed[pos] == ShiftedByte(buffer, pos, startBit)
  {
    for pos := 0 to bufferUsed.Length
      invariant forall p | 0 <= p < pos :: bufferUsed[p] == ShiftedByte(buffer, p, startBit)
    {
      bufferUsed[pos] := ShiftByteUp(buffer, pos, startBit);
    }
  }

  method ShiftByteUp(buffer: seq<bv8>, pos: nat, startBit: nat) returns (shifted: bv8)
    requires pos <= |buffer| && 1 <= startBit <= 7
    ensures shifted == ShiftedByte(buffer, pos, startBit)
  {
    shifted := 0;
    if pos < |buffer| {
      shifted := Raised(buffer[pos], startBit);
    }
    if pos > 0 {
      shifted := shifted | Carried(buffer[pos - 1], startBit);
    }
  }

  /** A bit of a byte; there are none above 7. */
  method BitValue(b: bv8, bitNumber: nat) returns (value: bool)
    ensures value == (bitNumber < 8 && Bit(b, bitNumber))
  {
    value := false;
    if bitNumber < 8 {
      TestBit(b, bitNumber);
      value := b & OneBit(bitNumber) != 0;
    }
  }

  /** Writes the bits of the first byte, for a run that starts within a byte. */
  method WriteHead(plc: BitPlc, first: bv8, n: nat, startBit: nat) returns (numBitsWritten: nat, success: bool)
    requires 1 <= n && 1 <= startBit <= 7 && |plc.bytes| >= 2
    modifies plc
    ensures Progress(plc.bytes, success, plc.tick)
        == TryBits(old(plc.bytes), 0, first, startBit, startBit + HeadBits(n, startBit), plc.answers, old(plc.tick))
    ensures success ==> numBitsWritten == HeadBits(n, startBit)
  {
    numBitsWritten, success := 0, true;
    var bitNumber := startBit;
    ghost var end := startBit + HeadBits(n, startBit);
    ghost var whole := TryBits(plc.bytes, 0, first, startBit, end, plc.answers, plc.tick);
    while bitNumber < 8 && bitNumber != 0
      invariant startBit <= bitNumber <= 8 && numBitsWritten == bitNumber - startBit < n
          && |plc.bytes| == |old(plc.bytes)|
      invariant success && TryBits(plc.bytes, 0, first, bitNumber, end, plc.answers, plc.tick) == whole
      decreases 8 - bitNumber
    {
      var bitValue := BitValue(first, bitNumber);
      success := plc.PlcWriteBit(0, bitNumber, bitValue);
      if !success {
        break;
      }
      numBitsWritten := numBitsWritten + 1;
      bitNumber := bitNumber + 1;
      if numBitsWritten == n {
        break;
      }
    }
  }

  /** Writes bits of the last byte, from its first bit on. */
  method WriteTail(plc: BitPlc, at: nat, lastByte: bv8, endBit: nat) returns (success: bool)
    requires 8 * at + endBit <= 8 * |plc.bytes|
    modifies plc
    ensures Progress(plc.bytes, success, plc.tick)
        == TryBits(old(plc.bytes), 8 * at, lastByte, 0, endBit, plc.answers, old(plc.tick))
  {
    success := true;
    ghost var whole := TryBits(plc.bytes, 8 * at, lastByte, 0, endBit, plc.answers, plc.tick);
    for bitNumber := 0 to endBit
      invariant success && |plc.bytes| == |old(plc.bytes)|
      invariant TryBits(plc.bytes, 8 * at, lastByte, bitNumber, endBit, plc.answers, plc.tick) == whole
    {
      var bitValue := BitValue(lastByte, bitNumber);
      success := plc.PlcWriteBit(at, bitNumber, bitValue);
      if !success {
        break;
      }
    }
  }

  /** The first part of a write: the first byte, if it is not written as a whole, and the whole bytes. */
  method WriteHeadAndMiddle(plc: BitPlc, buffer: array<bv8>, n: nat, startBit: nat)
      returns (numBitsWritten: int, bytesOffset: nat, bytesWriteLength: int, success: bool)
    requires 1 <= n && startBit <= 7 && buffer.Length == BytesFor(n) && |plc.bytes| == BytesFor(n) + 4
    modifies plc
    ensures Progress(plc.bytes, success, plc.tick)
        == TryMiddle(old(plc.bytes), buffer[..], n, startBit, plc.answers, old(plc.tick))
    ensures success ==> numBitsWritten == BitsBeforeTail(n, startBit)
    ensures bytesOffset == (if startBit == 0 then 0 else 1) && bytesWriteLength == WholeBytes(n, startBit)
  {
    ghost var mem, bits := plc.bytes, buffer[..];
    var bufferUsed := buffer;
    numBitsWritten, bytesOffset, success := 0, 0, true;
    if startBit != 0 {
      bufferUsed := new bv8[BytesFor(n + startBit)];
      ShiftUp(buffer[..], bufferUsed, startBit);
    }
    bytesWriteLength := bufferUsed.Length;
    if (n + startBit) % 8 != 0 {
      bytesWriteLength := bytesWriteLength - 1;
    }
    if startBit != 0 {
      numBitsWritten, success := WriteHead(plc, bufferUsed[0], n, startBit);
      bytesOffset, bytesWriteLength := 1, bytesWriteLength - 1;
    }
    assert Progress(plc.bytes, success, plc.tick) == TryHead(mem, bits, n, startBit, plc.answers, old(plc.tick));
    assert bytesWriteLength == WholeBytes(n, startBit);
    if success && n - numBitsWritten >= 8 {
      assert bufferUsed[..][..bytesWriteLength] == Middle(bits, n, startBit);
      var bytesWritten;
      success, bytesWritten := plc.PlcWrite(bytesOffset, bytesWriteLength, bufferUsed[..]);
      success := success && bytesWritten == bytesWriteLength;
      numBitsWritten := numBitsWritten + 8 * bytesWriteLength;
    }
  }

  /**
   * Writes n bits of the buffer to the PLC, from `startBit` on. The single writes are made one
   * after the other until one fails; if all are accepted, the memory is what `PlcAfter` says.
   */
  method WriteToPlc(plc: BitPlc, buffer: array<bv8>, beyond: bv8, n: nat, startBit: nat) returns (success: bool)
    requires 1 <= n && startBit <= 7 && buffer.Length == BytesFor(n) && |plc.bytes| == BytesFor(n) + 4
    modifies plc
    ensures Progress(plc.bytes, success, plc.tick)
        == TryRun(old(plc.bytes), buffer[..], beyond, n, startBit, plc.answers, old(plc.tick))
    ensures success <==> Accepts(plc.answers, old(plc.tick), WriteCount(n, startBit))
    ensures success ==> plc.bytes == PlcAfter(old(plc.bytes), buffer[..], beyond, n, startBit)
  {
    ghost var mem, bits, tick := plc.bytes, buffer[..], plc.tick;
    var numBitsWritten, bytesOffset, bytesWriteLength;
    numBitsWritten, bytesOffset, bytesWriteLength, success := WriteHeadAndMiddle(plc, buffer, n, startBit);
    ghost var p := Progress(plc.bytes, success, plc.tick);
    if success && numBitsWritten < n {
      var at := bytesOffset + bytesWriteLength;
      var lastByte := if at < buffer.Length then buffer[at] else beyond;
      assert at == TailAt(n, startBit) && lastByte == TailByte(bits, beyond, n, startBit);
      success := WriteTail(plc, at, lastByte, startBit + n % 8);
    }
    assert Progress(plc.bytes, success, plc.tick) == TryTail(p, bits, beyond, n, startBit, plc.answers);
    RunSucceedsIff(mem, bits, beyond, n, startBit, plc.answers, tick);
  }

  /**
   * Writing an array of booleans and reading it back gives the array again, if both succeed, as they do
   * if the PLC accepts everything; whatever fails, no other bit of the PLC changes.
   */
  method WriteThenRead(plc: BitPlc, values: seq<int>, beyond: bv8, startBit: nat)
      returns (written: bool, success: bool, back: array<int>)
    requires values != [] && startBit <= 7 && (startBit == 0 || startBit + |values| <= 8)
        && |plc.bytes| == BytesFor(|values|) + 4
    modifies plc
    ensures back.Length == |values|
    ensures written && success ==> forall i | 0 <= i < |values| :: back[i] == if values[i] != 0 then 1 else 0
    ensures (forall t: nat :: plc.answers(t).Accepted?) ==> written && success
    ensures |plc.bytes| == |old(plc.bytes)|
    ensures forall k | 0 <= k < 8 * |plc.bytes| && !(startBit <= k < startBit + |values|) ::
        BitAt(plc.bytes, k) == old(BitAt(plc.bytes, k))
  {
    var n := |values|;
    var buffer := new bv8[BytesFor(n)];
    ConvertRecordToBoolBuffer(values, buffer, n);
    ghost var m := WrittenPart(plc.bytes, buffer[..], beyond, n, startBit, plc.answers, plc.tick);
    written := WriteToPlc(plc, buffer, beyond, n, startBit);
    var again := new bv8[BytesFor(n)];
    success := ReadFromPlc(plc, again, n, startBit);
    back := new int[n];
    if success {
      ConvertBoolBufferToRecord(again, back, n);
    }
  }
}

/** The transport below the telegrams: TPKT and COTP framing (section 6 of RFC 1006), and reassembly of fragments. */
module IsoTcp {
  import opened PlcTypes
  import opened S7Wire

  const ISO_TCP_VERSION: byte := 3
  const DATA_HEADER_SIZE := 7
  const ISO_FRAME_SIZE := ISO_PAYLOAD_SIZE + DATA_HEADER_SIZE
  const MAX_ISO_FRAGMENTS := 64

  const PDU_TYPE_CR: byte := 0xE0
  const PDU_TYPE_DR: byte := 0x80
  const PDU_TYPE_DT: byte := 0xF0
  const PDU_EOT: byte := 0x80

  const ERR_ISO_INVALID_PDU := 0x0003_0000
  const ERR_ISO_INVALID_DATA_SIZE := 0x0004_0000
  const ERR_ISO_TOO_MANY_FRAGMENTS := 0x0007_0000
  const ERR_ISO_SEND_PACKET := 0x0009_0000
  const ERR_ISO_RECV_PACKET := 0x000A_0000

  /** What lies in memory from the start of the payload on; more than any run of fragments can reach. */
  const REACH := ISO_PAYLOAD_SIZE * (MAX_ISO_FRAGMENTS + 1)

  // ---------- what the receiver makes of a stream of bytes ----------

  function PduSize(header: seq<byte>): int
    requires |header| >= 4
  {
    WordAt(header, 2)
  }

  /** The header of a frame passes the checks. */
  predicate HeaderOk(header: seq<byte>)
    requires |header| >= 7
  {
    7 <= PduSize(header) <= ISO_PAYLOAD_SIZE && header[4] >= 2
  }

  datatype Fragment = Got(eot: bool, data: seq<byte>, rest: seq<byte>) | Failed(error: int)

  /** What a receiver with room for `max` bytes gets from the stream. */
  function FragmentOf(input: seq<byte>, max: int, tcpError: int): (f: Fragment)
    ensures if f.Got? then |f.data| <= max || f.data == [] else tcpError >= 0 ==> f.error > 0
  {
    if |input| < DATA_HEADER_SIZE then Failed(ERR_ISO_RECV_PACKET + tcpError)
    else FragmentBehind(input[..7], input[7..], max, tcpError)
  }

  /** The fragment that a header announces. */
  function FragmentBehind(header: seq<byte>, rest: seq<byte>, max: int, tcpError: int): (f: Fragment)
    requires |header| == 7
    ensures if f.Got? then |f.data| <= max || f.data == [] else tcpError >= 0 ==> f.error > 0
  {
    if header[5] != PDU_TYPE_CR && header[5] != PDU_TYPE_DR && header[5] != PDU_TYPE_DT then Failed(ERR_ISO_INVALID_PDU)
    else if !HeaderOk(header) then Failed(ERR_ISO_INVALID_PDU)
    else
      var length := PduSize(header) - DATA_HEADER_SIZE;
      var eot := header[5] != PDU_TYPE_DT || header[6] >= 0x80;
      if length > max then Failed(ERR_ISO_PDU_OVERFLOW)
      else if |rest| < length then Failed(ERR_ISO_RECV_PACKET + tcpError)
      else Got(eot, rest[..length], rest[length..])
  }

  datatype Reassembly = Parts(parts: seq<seq<byte>>, rest: seq<byte>) | Failure(error: int)

  /** What a receiver makes of a stream that has room for some bytes. */
  type Receiver = (seq<byte>, int) -> Fragment

  /** Receives over a link that reports the error when it fails. */
  function FragmentsOf(tcpError: int): Receiver {
    (input: seq<byte>, max: int) => FragmentOf(input, max, tcpError)
  }

  /** The data of the fragments up to the one that ends the transmission. */
  function Reassemble(input: seq<byte>, offset: nat, numParts: nat, receive: Receiver): Reassembly
    decreases MAX_ISO_FRAGMENTS - numParts
  {
    if offset >= ISO_PAYLOAD_SIZE then Failure(ERR_ISO_TOO_MANY_FRAGMENTS) else
      match receive(input, ISO_PAYLOAD_SIZE - offset)
      case Failed(error) => Failure(error)
      case Got(eot, data, rest) =>
        if eot then Parts([data], rest)
        else if numParts >= MAX_ISO_FRAGMENTS then Failure(ERR_ISO_TOO_MANY_FRAGMENTS)
        else Prepend([data], Reassemble(rest, offset + |data|, numParts + 1, receive))
  }

  function Prepend(parts: seq<seq<byte>>, r: Reassembly): Reassembly {
    if r.Failure? then r else Parts(parts + r.parts, r.rest)
  }

  lemma PrependTwice(a: seq<seq<byte>>, b: seq<seq<byte>>, r: Reassembly)
    ensures Prepend(a, Prepend(b, r)) == Prepend(a + b, r)
  {
    if r.Parts? {
      assert a + (b + r.parts) == (a + b) + r.parts;
    }
  }

  // ---------- where the receiver puts the fragments ----------

  /** The number of bytes before the k-th part. */
  function Offset(parts: seq<seq<byte>>, k: nat): nat
    requires k <= |parts|
  {
    if k == 0 then 0 else Offset(parts, k - 1) + |parts[k - 1]|
  }

  /**
   * Where the k-th part is put: behind the parts before it, as the diagram in the source
   * shows, or, as the code is written, the offset further than the part before it.
   */
  function PlaceOf(parts: seq<seq<byte>>, k: nat, asWritten: bool): nat
    requires k <= |parts|
  {
    if !asWritten || k == 0 then Offset(parts, k) else PlaceOf(parts, k - 1, asWritten) + Offset(parts, k)
  }

  function Put(memory: seq<byte>, at: nat, data: seq<byte>): (r: seq<byte>)
    requires at + |data| <= |memory|
    ensures |r| == |memory|
    ensures forall i | 0 <= i < |r| :: r[i] == if at <= i < at + |data| then data[i - at] else memory[i]
  {
    memory[..at] + data + memory[at + |data|..]
  }

  /** Memory after the first n parts have been put into it. */
  function Laid(memory: seq<byte>, parts: seq<seq<byte>>, n: nat, asWritten: bool): (r: seq<byte>)
    requires n <= |parts| <= MAX_ISO_FRAGMENTS && Offset(parts, |parts|) <= ISO_PAYLOAD_SIZE && |memory| == REACH
    ensures |r| == |memory|
  {
    if n == 0 then memory else
      PlaceInReach(parts, n - 1, asWritten);
      Put(Laid(memory, parts, n - 1, asWritten), PlaceOf(parts, n - 1, asWritten), parts[n - 1])
  }

  lemma {:induction false} OffsetGrows(parts: seq<seq<byte>>, j: nat, k: nat)
    requires j <= k <= |parts|
    ensures Offset(parts, j) <= Offset(parts, k)
    decreases k
  {
    if j < k {
      OffsetGrows(parts, j, k - 1);
    }
  }

  /** No part reaches beyond the memory that the model gives to the payload. */
  lemma {:induction false} PlaceInReach(parts: seq<seq<byte>>, k: nat, asWritten: bool)
    requires k < |parts| <= MAX_ISO_FRAGMENTS && Offset(parts, |parts|) <= ISO_PAYLOAD_SIZE
    ensures Offset(parts, k) <= PlaceOf(parts, k, asWritten) <= ISO_PAYLOAD_SIZE * (k + 1)
    ensures PlaceOf(parts, k, asWritten) + |parts[k]| <= REACH
    decreases k
  {
    OffsetGrows(parts, k, |parts|);
    OffsetGrows(parts, k + 1, |parts|);
    if k > 0 {
      PlaceInReach(parts, k - 1, asWritten);
    }
  }

  function Concat(parts: seq<seq<byte>>): (r: seq<byte>)
    ensures |r| == Offset(parts, |parts|)
  {
    OffsetOfFront(parts);
    if parts == [] then [] else Concat(parts[..|parts| - 1]) + parts[|parts| - 1]
  }

  lemma {:induction false} OffsetOfPrefix(parts: seq<seq<byte>>, n: nat, k: nat)
    requires k <= n <= |parts|
    ensures Offset(parts[..n], k) == Offset(parts, k)
    decreases k
  {
    if k > 0 {
      OffsetOfPrefix(parts, n, k - 1);
    }
  }

  lemma OffsetOfFront(parts: seq<seq<byte>>)
    ensures parts != [] ==> Offset(parts, |parts|) == Offset(parts[..|parts| - 1], |parts| - 1) + |parts[|parts| - 1]|
  {
    if parts != [] {
      OffsetOfPrefix(parts, |parts| - 1, |parts| - 1);
    }
  }

  /** The k-th part is empty or at its place in the concatenation. */
  ghost predicate PlacedRight(parts: seq<seq<byte>>, k: nat, asWritten: bool)
    requires k < |parts|
  {
    parts[k] == [] || PlaceOf(parts, k, asWritten) == Offset(parts, k)
  }

  /** The first n parts are empty or at their places. */
  ghost predicate InPlace(parts: seq<seq<byte>>, n: nat, asWritten: bool)
    requires n <= |parts|
  {
    forall k {:trigger PlacedRight(parts, k, asWritten)} | 0 <= k < n :: PlacedRight(parts, k, asWritten)
  }

  lemma {:induction false} PlaceZero(parts: seq<seq<byte>>, k: nat)
    requires k <= |parts|
    ensures PlaceOf(parts, k, true) == 0 <==> Offset(parts, k) == 0
    decreases k
  {
    if k > 0 {
      PlaceZero(parts, k - 1);
      OffsetGrows(parts, k - 1, k);
    }
  }

  /** If the parts are at their places, the payload is their concatenation. */
  lemma {:induction false} LaidInOrder(memory: seq<byte>, parts: seq<seq<byte>>, n: nat, asWritten: bool)
    requires n <= |parts| <= MAX_ISO_FRAGMENTS && Offset(parts, |parts|) <= ISO_PAYLOAD_SIZE && |memory| == REACH
    requires InPlace(parts, |parts|, asWritten)
    ensures Offset(parts, n) <= ISO_PAYLOAD_SIZE
        && Laid(memory, parts, n, asWritten)[..Offset(parts, n)] == Concat(parts[..n])
    decreases n
  {
    OffsetGrows(parts, n, |parts|);
    OffsetOfPrefix(parts, n, n);
    if n > 0 {
      LaidInOrder(memory, parts, n - 1, asWritten);
      PlaceInReach(parts, n - 1, asWritten);
      assert PlacedRight(parts, n - 1, asWritten);
      assert parts[..n][..n - 1] == parts[..n - 1];
      var before, now := Laid(memory, parts, n - 1, asWritten), Laid(memory, parts, n, asWritten);
      assert now[..Offset(parts, n)] == before[..Offset(parts, n - 1)] + parts[n - 1];
    }
  }

  lemma {:induction false} PlacesGrow(parts: seq<seq<byte>>, j: nat, k: nat)
    requires j <= k <= |parts|
    ensures PlaceOf(parts, j, true) <= PlaceOf(parts, k, true)
    decreases k
  {
    if j < k {
      PlacesGrow(parts, j, k - 1);
    }
  }

  /** Laying one more part changes only what is at its place. */
  lemma LaidStep(memory: seq<byte>, parts: seq<seq<byte>>, n: nat, asWritten: bool, i: nat)
    requires 0 < n <= |parts| <= MAX_ISO_FRAGMENTS && Offset(parts, |parts|) <= ISO_PAYLOAD_SIZE && |memory| == REACH
        && i < REACH
    requires parts[n - 1] == [] || i < PlaceOf(parts, n - 1, asWritten)
        || PlaceOf(parts, n - 1, asWritten) + |parts[n - 1]| <= i
    ensures Laid(memory, parts, n, asWritten)[i] == Laid(memory, parts, n - 1, asWritten)[i]
  {
    PlaceInReach(parts, n - 1, asWritten);
  }

  /** Before the first misplaced part there is a gap that no part fills. */
  lemma {:induction false} GapStays(memory: seq<byte>, parts: seq<seq<byte>>, n: nat, k: nat, p: nat)
    requires n <= |parts| <= MAX_ISO_FRAGMENTS && Offset(parts, |parts|) <= ISO_PAYLOAD_SIZE && |memory| == REACH
        && k < |parts|
    requires p == Offset(parts, k) && PlaceOf(parts, k, true) > p && InPlace(parts, k, true)
    ensures p < REACH && Laid(memory, parts, n, true)[p] == memory[p]
    decreases n
  {
    OffsetGrows(parts, k, |parts|);
    if n > 0 {
      GapStays(memory, parts, n - 1, k, p);
      if n - 1 < k {
        assert PlacedRight(parts, n - 1, true);
        OffsetGrows(parts, n, k);
      } else {
        PlacesGrow(parts, k, n - 1);
      }
      LaidStep(memory, parts, n, true, p);
    }
  }

  lemma {:induction false} FirstMisplaced(parts: seq<seq<byte>>, k: nat) returns (first: nat)
    requires k < |parts| && !PlacedRight(parts, k, true)
    ensures first < |parts| && !PlacedRight(parts, first, true) && InPlace(parts, first, true)
    decreases k
  {
    if j: nat :| j < k && !PlacedRight(parts, j, true) {
      first := FirstMisplaced(parts, j);
    } else {
      first := k;
    }
  }

  /** If a part is misplaced, the payload can differ from the concatenation: it depends on what was there before. */
  lemma MisplacedShows(parts: seq<seq<byte>>, k: nat) returns (memory: seq<byte>)
    requires k < |parts| <= MAX_ISO_FRAGMENTS && Offset(parts, |parts|) <= ISO_PAYLOAD_SIZE
    requires !PlacedRight(parts, k, true)
    ensures |memory| == REACH && Laid(memory, parts, |parts|, true)[..Offset(parts, |parts|)] != Concat(parts)
  {
    var first := FirstMisplaced(parts, k);
    var p, whole := Offset(parts, first), Concat(parts);
    OffsetGrows(parts, first + 1, |parts|);
    memory := seq(REACH, i => if i == p && p < |whole| && whole[p] == 0 then 1 else 0);
    PlaceInReach(parts, first, true);
    GapStays(memory, parts, |parts|, first, p);
    var laid := Laid(memory, parts, |parts|, true);
    assert laid[..Offset(parts, |parts|)][p] == laid[p] != whole[p];
  }

  /** The k-th part has no data, or all parts before the previous one have none. */
  ghost predicate NothingEarlier(parts: seq<seq<byte>>, k: nat)
    requires 2 <= k < |parts|
  {
    parts[k] == [] || Offset(parts, k - 1) == 0
  }

  /** Whenever a part has data, all parts before the previous one have none. */
  ghost predicate AtMostTwoInARow(parts: seq<seq<byte>>) {
    forall k {:trigger NothingEarlier(parts, k)} | 2 <= k < |parts| :: NothingEarlier(parts, k)
  }

  /**
   * The code as written puts the fragments together as it should, whatever the buffer held
   * before, if and only if no data comes after data that came after data: for every
   * fragment with data, all fragments before the previous one are empty.
   */
  lemma LiteralPlacementIff(parts: seq<seq<byte>>)
    requires |parts| <= MAX_ISO_FRAGMENTS && Offset(parts, |parts|) <= ISO_PAYLOAD_SIZE
    ensures (forall memory: seq<byte> | |memory| == REACH ::
               Laid(memory, parts, |parts|, true)[..Offset(parts, |parts|)] == Concat(parts))
            <==> AtMostTwoInARow(parts)
  {
    if AtMostTwoInARow(parts) {
      assert parts[..|parts|] == parts;
      forall k | 0 <= k < |parts| ensures PlacedRight(parts, k, true) {
        RightIff(parts, k);
      }
      forall memory: seq<byte> | |memory| == REACH
        ensures Laid(memory, parts, |parts|, true)[..Offset(parts, |parts|)] == Concat(parts)
      {
        LaidInOrder(memory, parts, |parts|, true);
      }
    } else {
      var k: nat :| 2 <= k < |parts| && !NothingEarlier(parts, k);
      RightIff(parts, k);
      var memory := MisplacedShows(parts, k);
    }
  }

  lemma RightIff(parts: seq<seq<byte>>, k: nat)
    requires k < |parts|
    ensures PlacedRight(parts, k, true) <==> k < 2 || NothingEarlier(parts, k)
  {
    if k > 0 {
      PlaceZero(parts, k - 1);
    }
  }

  /** Placed as the diagram shows, fragments always form their concatenation. */
  lemma DiagramPlacement(memory: seq<byte>, parts: seq<seq<byte>>)
    requires |parts| <= MAX_ISO_FRAGMENTS && Offset(parts, |parts|) <= ISO_PAYLOAD_SIZE && |memory| == REACH
    ensures Laid(memory, parts, |parts|, false)[..Offset(parts, |parts|)] == Concat(parts)
  {
    assert parts[..|parts|] == parts;
    assert forall k | 0 <= k < |parts| :: PlacedRight(parts, k, false);
    LaidInOrder(memory, parts, |parts|, false);
  }

  /** Where the last part with data ends among the first n ones, as the code is written. */
  function EndOf(parts: seq<seq<byte>>, n: nat): nat
    requires n <= |parts|
  {
    if n == 0 then 0
    else if parts[n - 1] == [] then EndOf(parts, n - 1)
    else PlaceOf(parts, n - 1, true) + |parts[n - 1]|
  }

  /** The last byte of the first n parts. */
  function LastByte(parts: seq<seq<byte>>, n: nat): byte
    requires n <= |parts|
  {
    if n == 0 then 0
    else if parts[n - 1] == [] then LastByte(parts, n - 1)
    else parts[n - 1][|parts[n - 1]| - 1]
  }

  lemma {:induction false} EndBefore(parts: seq<seq<byte>>, n: nat)
    requires n <= |parts|
    ensures EndOf(parts, n) <= PlaceOf(parts, n, true)
  {
    if n > 0 {
      EndBefore(parts, n - 1);
    }
  }

  lemma {:induction false} EndInReach(parts: seq<seq<byte>>, n: nat)
    requires n <= |parts| <= MAX_ISO_FRAGMENTS && Offset(parts, |parts|) <= ISO_PAYLOAD_SIZE
    ensures EndOf(parts, n) <= REACH
  {
    if n > 0 {
      EndInReach(parts, n - 1);
      PlaceInReach(parts, n - 1, true);
    }
  }

  /** Nothing behind the last part is changed. */
  lemma {:induction false} NothingBehind(memory: seq<byte>, parts: seq<seq<byte>>, n: nat, i: nat)
    requires n <= |parts| <= MAX_ISO_FRAGMENTS && Offset(parts, |parts|) <= ISO_PAYLOAD_SIZE && |memory| == REACH
    requires EndOf(parts, n) <= i < REACH
    ensures Laid(memory, parts, n, true)[i] == memory[i]
  {
    if n > 0 {
      EndBefore(parts, n - 1);
      LaidStep(memory, parts, n, true, i);
      NothingBehind(memory, parts, n - 1, i);
    }
  }

  /** The last byte stays where it has been put. */
  lemma {:induction false} LastStays(memory: seq<byte>, parts: seq<seq<byte>>, n: nat)
    requires n <= |parts| <= MAX_ISO_FRAGMENTS && Offset(parts, |parts|) <= ISO_PAYLOAD_SIZE && |memory| == REACH
    requires 0 < EndOf(parts, n) <= REACH
    ensures Laid(memory, parts, n, true)[EndOf(parts, n) - 1] == LastByte(parts, n)
  {
    PlaceInReach(parts, n - 1, true);
    if parts[n - 1] == [] {
      LastStays(memory, parts, n - 1);
      LaidStep(memory, parts, n, true, EndOf(parts, n) - 1);
    }
  }

  lemma StaysInside(memory: seq<byte>, parts: seq<seq<byte>>)
    requires |parts| <= MAX_ISO_FRAGMENTS && Offset(parts, |parts|) <= ISO_PAYLOAD_SIZE && |memory| == REACH
    requires EndOf(parts, |parts|) <= ISO_PAYLOAD_SIZE
    ensures Laid(memory, parts, |parts|, true)[ISO_PAYLOAD_SIZE..] == memory[ISO_PAYLOAD_SIZE..]
  {
    forall i | ISO_PAYLOAD_SIZE <= i < REACH ensures Laid(memory, parts, |parts|, true)[i] == memory[i] {
      NothingBehind(memory, parts, |parts|, i);
    }
  }

  lemma RunsOver(parts: seq<seq<byte>>) returns (memory: seq<byte>)
    requires |parts| <= MAX_ISO_FRAGMENTS && Offset(parts, |parts|) <= ISO_PAYLOAD_SIZE
    requires EndOf(parts, |parts|) > ISO_PAYLOAD_SIZE
    ensures |memory| == REACH
        && Laid(memory, parts, |parts|, true)[ISO_PAYLOAD_SIZE..] != memory[ISO_PAYLOAD_SIZE..]
  {
    var other: byte := if LastByte(parts, |parts|) == 0 then 1 else 0;
    memory := seq(REACH, i => other);
    EndInReach(parts, |parts|);
    LastStays(memory, parts, |parts|);
    var laid, at := Laid(memory, parts, |parts|, true), EndOf(parts, |parts|) - 1;
    assert laid[ISO_PAYLOAD_SIZE..][at - ISO_PAYLOAD_SIZE] == laid[at];
    assert memory[ISO_PAYLOAD_SIZE..][at - ISO_PAYLOAD_SIZE] == other;
  }

  /**
   * The code as written leaves alone what lies behind the buffer, whatever that is, if and
   * only if the last part with data ends inside the buffer.
   */
  lemma StaysInsideIff(parts: seq<seq<byte>>)
    requires |parts| <= MAX_ISO_FRAGMENTS && Offset(parts, |parts|) <= ISO_PAYLOAD_SIZE
    ensures (forall memory: seq<byte> | |memory| == REACH ::
               Laid(memory, parts, |parts|, true)[ISO_PAYLOAD_SIZE..] == memory[ISO_PAYLOAD_SIZE..])
            <==> EndOf(parts, |parts|) <= ISO_PAYLOAD_SIZE
  {
    if EndOf(parts, |parts|) <= ISO_PAYLOAD_SIZE {
      forall memory: seq<byte> | |memory| == REACH
        ensures Laid(memory, parts, |parts|, true)[ISO_PAYLOAD_SIZE..] == memory[ISO_PAYLOAD_SIZE..]
      {
        StaysInside(memory, parts);
      }
    } else {
      var memory := RunsOver(parts);
    }
  }

  /** Parts that are put together as they should be also stay inside the buffer. */
  lemma {:induction false} RightStaysInside(parts: seq<seq<byte>>, n: nat)
    requires n <= |parts| && AtMostTwoInARow(parts)
    ensures EndOf(parts, n) <= Offset(parts, n)
  {
    if n > 0 {
      RightStaysInside(parts, n - 1);
      RightIff(parts, n - 1);
      assert n - 1 >= 2 ==> NothingEarlier(parts, n - 1);
    }
  }

  /** In the place of a later part, the bytes of an earlier one are counted as often as parts follow it up to there. */
  function Weighted(parts: seq<seq<byte>>, n: nat, k: nat): nat
    requires n <= |parts| && n <= k
  {
    if n == 0 then 0 else Weighted(parts, n - 1, k) + (k - (n - 1)) * |parts[n - 1]|
  }

  lemma {:induction false} OnceMore(parts: seq<seq<byte>>, n: nat, k: nat)
    requires n <= |parts| && n <= k
    ensures Weighted(parts, n, k + 1) == Weighted(parts, n, k) + Offset(parts, n)
  {
    if n > 0 {
      OnceMore(parts, n - 1, k);
    }
  }

  /** As the code is written, the place of a part is a weighted sum of the sizes of all the parts before it. */
  lemma {:induction false} PlaceIsWeighted(parts: seq<seq<byte>>, k: nat)
    requires k <= |parts|
    ensures PlaceOf(parts, k, true) == Weighted(parts, k, k)
  {
    if k > 0 {
      PlaceIsWeighted(parts, k - 1);
      OnceMore(parts, k - 1, k - 1);
    }
  }

  /** Four fragments of 1000 bytes fit into the buffer, but the last one ends behind it at 7000. */
  lemma FourFragments(part: seq<byte>)
    requires |part| == 1000
    ensures var parts := [part, part, part, part];
            Offset(parts, 4) == 4000 <= ISO_PAYLOAD_SIZE && EndOf(parts, 4) == 7000 > ISO_PAYLOAD_SIZE
  {
    var parts := [part, part, part, part];
    assert Offset(parts, 1) == 1000 && Offset(parts, 2) == 2000 && Offset(parts, 3) == 3000;
    assert PlaceOf(parts, 1, true) == 1000 && PlaceOf(parts, 2, true) == 3000;
  }

  // ---------- fragments on the wire ----------

  function FrameHeader(length: nat, eot: bool): (header: seq<byte>)
    ensures |header| == 7
  {
    [ISO_TCP_VERSION, 0, Hi(length + DATA_HEADER_SIZE), Lo(length + DATA_HEADER_SIZE), 2, PDU_TYPE_DT, if eot
        then PDU_EOT else 0]
  }

  /** A frame with data. */
  function Frame(data: seq<byte>, eot: bool): seq<byte> {
    FrameHeader(|data|, eot) + data
  }

  /** The frames of a message: the last one ends the transmission. */
  function Stream(parts: seq<seq<byte>>): seq<byte> {
    if parts == [] then [] else Frame(parts[0], |parts| == 1) + Stream(parts[1..])
  }

  lemma HeaderSays(length: nat, eot: bool)
    requires length + DATA_HEADER_SIZE < 0x1_0000
    ensures var header := FrameHeader(length, eot);
            PduSize(header) == length + DATA_HEADER_SIZE && header[4] == 2 && header[5] == PDU_TYPE_DT
                && (header[6] >= 0x80 <==> eot)
  {
    WordStands(FrameHeader(length, eot), 2, length + DATA_HEADER_SIZE);
  }

  lemma HeaderArrives(header: seq<byte>, length: nat, eot: bool, behind: seq<byte>, max: nat, tcpError: int)
    requires |header| == 7 && PduSize(header) == length + DATA_HEADER_SIZE && header[4] == 2 && header[5] == PDU_TYPE_DT
    requires (header[6] >= 0x80 <==> eot) && length <= |behind|
    ensures FragmentBehind(header, behind, max, tcpError)
            == if length + DATA_HEADER_SIZE > ISO_PAYLOAD_SIZE then Failed(ERR_ISO_INVALID_PDU)
               else if length > max then Failed(ERR_ISO_PDU_OVERFLOW)
               else Got(eot, behind[..length], behind[length..])
  {
  }

  lemma FragmentSplits(header: seq<byte>, behind: seq<byte>, max: nat, tcpError: int)
    requires |header| == 7
    ensures FragmentOf(header + behind, max, tcpError) == FragmentBehind(header, behind, max, tcpError)
  {
    SplitAt(header, behind);
  }

  /** What a receiver with room for `max` bytes should make of a frame. */
  ghost function FrameSeen(data: seq<byte>, eot: bool, rest: seq<byte>, max: int): Fragment {
    if |data| + DATA_HEADER_SIZE > ISO_PAYLOAD_SIZE then Failed(ERR_ISO_INVALID_PDU)
    else if |data| > max then Failed(ERR_ISO_PDU_OVERFLOW)
    else Got(eot, data, rest)
  }

  lemma FrameArrives(data: seq<byte>, eot: bool, rest: seq<byte>, max: nat, tcpError: int)
    requires |data| + DATA_HEADER_SIZE < 0x1_0000
    ensures FragmentOf(Frame(data, eot) + rest, max, tcpError)
            == FrameSeen(data, eot, rest, max)
  {
    var header := FrameHeader(|data|, eot);
    Regroup(header, data, rest);
    FragmentSplits(header, data + rest, max, tcpError);
    HeaderSays(|data|, eot);
    SplitAt(data, rest);
    HeaderArrives(header, |data|, eot, data + rest, max, tcpError);
  }

  lemma SplitAt(a: seq<byte>, b: seq<byte>)
    ensures (a + b)[..|a|] == a && (a + b)[|a|..] == b
  {
  }

  /** From this offset and part number on, the receiver accepts the message. */
  ghost predicate AcceptsFrom(parts: seq<seq<byte>>, offset: nat, numParts: nat) {
    && parts != [] && offset < ISO_PAYLOAD_SIZE && |parts[0]| <= ISO_PAYLOAD_SIZE - DATA_HEADER_SIZE
    && |parts[0]| <= ISO_PAYLOAD_SIZE - offset
    && (|parts| == 1 || (numParts < MAX_ISO_FRAGMENTS && AcceptsFrom(parts[1..], offset + |parts[0]|, numParts + 1)))
  }

  /** What becomes of a frame, given what becomes of the stream behind it. */
  ghost function FrameThen(data: seq<byte>, offset: nat, numParts: nat, later: Reassembly): Reassembly {
    if offset >= ISO_PAYLOAD_SIZE then Failure(ERR_ISO_TOO_MANY_FRAGMENTS)
    else if |data| + DATA_HEADER_SIZE > ISO_PAYLOAD_SIZE then Failure(ERR_ISO_INVALID_PDU)
    else if |data| > ISO_PAYLOAD_SIZE - offset then Failure(ERR_ISO_PDU_OVERFLOW)
    else later
  }

  ghost function InnerThen(data: seq<byte>, numParts: nat, later: Reassembly): Reassembly {
    if numParts >= MAX_ISO_FRAGMENTS then Failure(ERR_ISO_TOO_MANY_FRAGMENTS) else Prepend([data], later)
  }

  /** What becomes of a stream, given its first fragment and what becomes of the rest. */
  lemma FirstFragment(bytes: seq<byte>, offset: nat, numParts: nat, receive: Receiver, f: Fragment, all: Reassembly,
      later: Reassembly)
    requires offset < ISO_PAYLOAD_SIZE && f == receive(bytes, ISO_PAYLOAD_SIZE - offset)
    requires all == Reassemble(bytes, offset, numParts, receive)
    requires f.Got? ==> later == Reassemble(f.rest, offset + |f.data|, numParts + 1, receive)
    ensures all == AfterFragment(f, numParts, later)
  {
  }

  /** The receiver makes of a frame what it should. */
  ghost predicate ReadsFrame(receive: Receiver, data: seq<byte>, eot: bool, rest: seq<byte>, max: int) {
    receive(Frame(data, eot) + rest, max) == FrameSeen(data, eot, rest, max)
  }

  ghost predicate ReadsFrames(receive: Receiver) {
    forall data, eot, rest, max: nat {:trigger ReadsFrame(receive, data, eot, rest, max)} | FitsFrame(data) ::
      ReadsFrame(receive, data, eot, rest, max)
  }

  lemma FramesRead(tcpError: int)
    ensures ReadsFrames(FragmentsOf(tcpError))
  {
    forall data, eot, rest, max: nat | FitsFrame(data) ensures ReadsFrame(FragmentsOf(tcpError), data, eot, rest, max) {
      FrameArrives(data, eot, rest, max, tcpError);
    }
  }

  /** What becomes of a stream that starts with a frame. */
  lemma FrameReassembled(data: seq<byte>, last: bool, behind: seq<byte>, offset: nat, numParts: nat, receive: Receiver,
                         all: Reassembly, later: Reassembly)
    requires FitsFrame(data) && ReadsFrames(receive)
    requires all == Reassemble(Frame(data, last) + behind, offset, numParts, receive)
    requires later == Reassemble(behind, offset + |data|, numParts + 1, receive)
    ensures all == FrameThen(data, offset, numParts, if last then Parts([data], behind)
        else InnerThen(data, numParts, later))
  {
    if offset < ISO_PAYLOAD_SIZE {
      assert ReadsFrame(receive, data, last, behind, ISO_PAYLOAD_SIZE - offset);
      FirstFragment(Frame(data, last) + behind, offset, numParts, receive,
          FrameSeen(data, last, behind, ISO_PAYLOAD_SIZE - offset), all, later);
    }
  }

  /** What the receiver makes of a message, fragment by fragment. */
  ghost function ReassembleParts(parts: seq<seq<byte>>, rest: seq<byte>, offset: nat, numParts: nat): Reassembly
    requires parts != []
    decreases |parts|
  {
    FrameThen(parts[0], offset, numParts,
              if |parts| == 1 then Parts([parts[0]], rest)
              else InnerThen(parts[0], numParts, ReassembleParts(parts[1..], rest, offset + |parts[0]|, numParts + 1)))
  }

  lemma Regroup(a: seq<byte>, b: seq<byte>, c: seq<byte>)
    ensures (a + b) + c == a + (b + c)
  {
  }

  /** The header of a frame can tell the length of the part. */
  predicate FitsFrame(part: seq<byte>) {
    |part| + DATA_HEADER_SIZE < 0x1_0000
  }

  ghost predicate AllFit(parts: seq<seq<byte>>) {
    forall k {:trigger FitsFrame(parts[k])} | 0 <= k < |parts| :: FitsFrame(parts[k])
  }

  lemma LastFrame(part: seq<byte>, rest: seq<byte>, offset: nat, numParts: nat, receive: Receiver, all: Reassembly)
    requires ReadsFrames(receive) && FitsFrame(part)
        && all == Reassemble(Stream([part]) + rest, offset, numParts, receive)
    ensures all == FrameThen(part, offset, numParts, Parts([part], rest))
  {
    assert Stream([part]) == Frame(part, true) by {
      assert [part][1..] == [];
    }
    FrameReassembled(part, true, rest, offset, numParts, receive, all,
        Reassemble(rest, offset + |part|, numParts + 1, receive));
  }

  lemma StreamSplits(parts: seq<seq<byte>>, rest: seq<byte>)
    requires |parts| > 1
    ensures Stream(parts) + rest == Frame(parts[0], false) + (Stream(parts[1..]) + rest)
  {
    Regroup(Frame(parts[0], false), Stream(parts[1..]), rest);
  }

  lemma InnerFrame(parts: seq<seq<byte>>, rest: seq<byte>, offset: nat, numParts: nat, receive: Receiver,
      all: Reassembly, later: Reassembly)
    requires ReadsFrames(receive) && |parts| > 1 && FitsFrame(parts[0])
    requires all == Reassemble(Stream(parts) + rest, offset, numParts, receive)
    requires later == Reassemble(Stream(parts[1..]) + rest, offset + |parts[0]|, numParts + 1, receive)
    ensures all == FrameThen(parts[0], offset, numParts, InnerThen(parts[0], numParts, later))
  {
    StreamSplits(parts, rest);
    FrameReassembled(parts[0], false, Stream(parts[1..]) + rest, offset, numParts, receive, all, later);
  }

  lemma TailFits(parts: seq<seq<byte>>)
    requires parts != [] && AllFit(parts)
    ensures FitsFrame(parts[0]) && AllFit(parts[1..])
  {
    forall k | 0 <= k < |parts[1..]| ensures FitsFrame(parts[1..][k]) {
      assert FitsFrame(parts[k + 1]);
    }
  }

  lemma {:induction false} StreamIsParts(parts: seq<seq<byte>>, rest: seq<byte>, offset: nat, numParts: nat,
      receive: Receiver, all: Reassembly)
    requires ReadsFrames(receive) && parts != [] && AllFit(parts)
        && all == Reassemble(Stream(parts) + rest, offset, numParts, receive)
    ensures all == ReassembleParts(parts, rest, offset, numParts)
    decreases |parts|
  {
    TailFits(parts);
    if |parts| == 1 {
      assert parts == [parts[0]];
      LastFrame(parts[0], rest, offset, numParts, receive, all);
    } else {
      var later := Reassemble(Stream(parts[1..]) + rest, offset + |parts[0]|, numParts + 1, receive);
      InnerFrame(parts, rest, offset, numParts, receive, all, later);
      StreamIsParts(parts[1..], rest, offset + |parts[0]|, numParts + 1, receive, later);
    }
  }

  lemma {:induction false} PartsAccepted(parts: seq<seq<byte>>, rest: seq<byte>, offset: nat, numParts: nat,
      all: Reassembly)
    requires parts != [] && all == ReassembleParts(parts, rest, offset, numParts)
    ensures if AcceptsFrom(parts, offset, numParts) then all == Parts(parts, rest) else all.Failure?
    decreases |parts|
  {
    assert parts == [parts[0]] + parts[1..];
    if |parts| == 1 {
      assert parts == [parts[0]];
    } else {
      PartsAccepted(parts[1..], rest, offset + |parts[0]|, numParts + 1,
          ReassembleParts(parts[1..], rest, offset + |parts[0]|, numParts + 1));
    }
  }

  /** The receiver recovers exactly the fragments that were sent if it accepts the message; otherwise it fails. */
  lemma StreamReassembled(parts: seq<seq<byte>>, rest: seq<byte>, tcpError: int)
    requires parts != [] && AllFit(parts)
    ensures if Acceptable(parts)
        then Reassemble(Stream(parts) + rest, 0, 1, FragmentsOf(tcpError)) == Parts(parts, rest)
            else Reassemble(Stream(parts) + rest, 0, 1, FragmentsOf(tcpError)).Failure?
  {
    FramesRead(tcpError);
    var all := Reassemble(Stream(parts) + rest, 0, 1, FragmentsOf(tcpError));
    StreamIsParts(parts, rest, 0, 1, FragmentsOf(tcpError), all);
    PartsAccepted(parts, rest, 0, 1, all);
    AcceptsIff(parts, 0, 1);
  }

  /** At most 64 fragments, none too long for a frame, that fit into the payload and leave room before the last one. */
  ghost predicate Acceptable(parts: seq<seq<byte>>)
    requires parts != []
  {
    && |parts| <= MAX_ISO_FRAGMENTS
        && (forall k | 0 <= k < |parts| :: |parts[k]| <= ISO_PAYLOAD_SIZE - DATA_HEADER_SIZE)
    && Offset(parts, |parts| - 1) < ISO_PAYLOAD_SIZE && Offset(parts, |parts|) <= ISO_PAYLOAD_SIZE
  }

  lemma {:induction false} OffsetOfTail(parts: seq<seq<byte>>, k: nat)
    requires parts != [] && k < |parts|
    ensures Offset(parts, k + 1) == |parts[0]| + Offset(parts[1..], k)
    decreases k
  {
    if k > 0 {
      OffsetOfTail(parts, k - 1);
    }
  }

  /**
   * What the receiver accepts: at most 64 fragments, each short enough, that fill the payload at
   * most, and not before the last one.
   */
  lemma {:induction false} AcceptsIff(parts: seq<seq<byte>>, offset: nat, numParts: nat)
    requires parts != [] && numParts <= MAX_ISO_FRAGMENTS
    ensures AcceptsFrom(parts, offset, numParts) <==>
              && |parts| + numParts <= MAX_ISO_FRAGMENTS + 1
              && (forall k | 0 <= k < |parts| :: |parts[k]| <= ISO_PAYLOAD_SIZE - DATA_HEADER_SIZE)
              && offset + Offset(parts, |parts| - 1) < ISO_PAYLOAD_SIZE
                  && offset + Offset(parts, |parts|) <= ISO_PAYLOAD_SIZE
    decreases |parts|
  {
    OffsetOfTail(parts, |parts| - 1);
    OffsetGrows(parts, 0, |parts| - 1);
    if |parts| > 1 {
      OffsetOfTail(parts, |parts| - 2);
      OffsetGrows(parts, 1, |parts| - 1);
      if numParts < MAX_ISO_FRAGMENTS {
        AcceptsIff(parts[1..], offset + |parts[0]|, numParts + 1);
      }
      assert forall k | 0 < k < |parts| :: parts[k] == parts[1..][k - 1];
    }
  }

  /** A message sent in one frame is received unchanged if and only if it has at most 4089 bytes. */
  lemma RoundTripIff(data: seq<byte>, rest: seq<byte>, tcpError: int)
    requires |data| <= ISO_PAYLOAD_SIZE
    ensures Reassemble(Frame(data, true) + rest, 0, 1, FragmentsOf(tcpError)) == Parts([data], rest)
        <==> |data| <= ISO_PAYLOAD_SIZE - DATA_HEADER_SIZE
  {
    FramesRead(tcpError);
    OneFrame(data, rest, FragmentsOf(tcpError), Reassemble(Frame(data, true) + rest, 0, 1, FragmentsOf(tcpError)));
  }

  lemma OneFrame(data: seq<byte>, rest: seq<byte>, receive: Receiver, all: Reassembly)
    requires |data| <= ISO_PAYLOAD_SIZE && ReadsFrames(receive)
        && all == Reassemble(Frame(data, true) + rest, 0, 1, receive)
    ensures all == Parts([data], rest) <==> |data| <= ISO_PAYLOAD_SIZE - DATA_HEADER_SIZE
  {
    FrameReassembled(data, true, rest, 0, 1, receive, all, Reassemble(rest, |data|, 2, receive));
  }

  lemma {:induction false} PlaceOfLonger(parts: seq<seq<byte>>, data: seq<byte>, k: nat, asWritten: bool)
    requires k <= |parts|
    ensures Offset(parts + [data], k) == Offset(parts, k)
        && PlaceOf(parts + [data], k, asWritten) == PlaceOf(parts, k, asWritten)
    decreases k
  {
    if k > 0 {
      PlaceOfLonger(parts, data, k - 1, asWritten);
    }
  }

  lemma {:induction false} LaidLonger(memory: seq<byte>, parts: seq<seq<byte>>, data: seq<byte>, n: nat,
      asWritten: bool)
    requires n <= |parts| < MAX_ISO_FRAGMENTS && Offset(parts, |parts|) + |data| <= ISO_PAYLOAD_SIZE
        && |memory| == REACH
    ensures Offset(parts + [data], |parts| + 1) == Offset(parts, |parts|) + |data|
    ensures Laid(memory, parts + [data], n, asWritten) == Laid(memory, parts, n, asWritten)
    decreases n
  {
    PlaceOfLonger(parts, data, |parts|, asWritten);
    if n > 0 {
      LaidLonger(memory, parts, data, n - 1, asWritten);
      PlaceOfLonger(parts, data, n - 1, asWritten);
      PlaceInReach(parts, n - 1, asWritten);
    }
  }

  lemma NextPlaceInReach(got: seq<seq<byte>>, asWritten: bool)
    requires |got| < MAX_ISO_FRAGMENTS && Offset(got, |got|) <= ISO_PAYLOAD_SIZE
    ensures (if got == [] then 0 else PlaceOf(got, |got| - 1, asWritten)) + ISO_PAYLOAD_SIZE <= REACH
    ensures PlaceOf(got, |got|, asWritten) + (ISO_PAYLOAD_SIZE - Offset(got, |got|)) <= REACH
  {
    if got != [] {
      PlaceInReach(got, |got| - 1, asWritten);
    }
  }

  /** One more part is put at the next place. */
  lemma NextPart(memory: seq<byte>, got: seq<seq<byte>>, data: seq<byte>, asWritten: bool)
    requires |got| < MAX_ISO_FRAGMENTS && Offset(got, |got|) + |data| <= ISO_PAYLOAD_SIZE && |memory| == REACH
    ensures var more := got + [data];
            && Offset(more, |more|) == Offset(got, |got|) + |data|
            && PlaceOf(more, |got|, asWritten) == PlaceOf(got, |got|, asWritten)
            && PlaceOf(got, |got|, asWritten) + |data| <= REACH
            && Laid(memory, more, |more|, asWritten) == Put(Laid(memory, got, |got|, asWritten),
                PlaceOf(got, |got|, asWritten), data)
  {
    PlaceOfLonger(got, data, |got|, asWritten);
    LaidLonger(memory, got, data, |got|, asWritten);
    NextPlaceInReach(got, asWritten);
  }

  /** What becomes of a stream after its first fragment, given what becomes of the rest. */
  ghost function AfterFragment(f: Fragment, numParts: nat, later: Reassembly): Reassembly {
    if f.Failed? then Failure(f.error)
    else if f.eot then Parts([f.data], f.rest)
    else if numParts >= MAX_ISO_FRAGMENTS then Failure(ERR_ISO_TOO_MANY_FRAGMENTS)
    else Prepend([f.data], later)
  }

  lemma NextStep(got: seq<seq<byte>>, f: Fragment, numParts: nat, later: Reassembly)
    requires f.Got?
    ensures Prepend(got, AfterFragment(f, numParts, later))
            == if f.eot then Parts(got + [f.data], f.rest)
               else if numParts >= MAX_ISO_FRAGMENTS then Failure(ERR_ISO_TOO_MANY_FRAGMENTS)
               else Prepend(got + [f.data], later)
  {
    PrependTwice(got, [f.data], later);
  }

  /** How far the reassembly has come: what has been got so far, where it has been put, and what is still to come. */
  ghost predicate Receiving(whole: Reassembly, memory: seq<byte>, now: seq<byte>, rest: seq<byte>, receive: Receiver,
      got: seq<seq<byte>>, offset: int, numParts: int, place: int, received: int, complete: bool, asWritten: bool)
  {
    && |got| <= MAX_ISO_FRAGMENTS && Offset(got, |got|) <= ISO_PAYLOAD_SIZE && 0 < numParts <= MAX_ISO_FRAGMENTS
        && 0 <= offset
    && |memory| == REACH && now == Laid(memory, got, |got|, asWritten)
    && if complete then whole == Parts(got, rest) && Offset(got, |got|) == offset + received
       else
         && whole == Prepend(got, Reassemble(rest, offset, numParts, receive))
         && offset == Offset(got, |got|) && numParts == |got| + 1
         && place == if got == [] then 0 else PlaceOf(got, |got| - 1, asWritten)
  }

  function NextPlace(place: int, offset: int, asWritten: bool): int {
    if asWritten then place + offset else offset
  }

  /** There is room for the next fragment. */
  lemma RoomForNext(whole: Reassembly, memory: seq<byte>, now: seq<byte>, rest: seq<byte>, receive: Receiver,
      got: seq<seq<byte>>, offset: int, numParts: int, place: int, received: int, asWritten: bool)
    requires Receiving(whole, memory, now, rest, receive, got, offset, numParts, place, received, false, asWritten)
    ensures 0 <= offset <= ISO_PAYLOAD_SIZE && 0 < numParts <= MAX_ISO_FRAGMENTS
        && 0 <= NextPlace(place, offset, asWritten)
    ensures NextPlace(place, offset, asWritten) + (ISO_PAYLOAD_SIZE - offset) <= REACH == |now|
    ensures offset < ISO_PAYLOAD_SIZE && receive(rest, ISO_PAYLOAD_SIZE - offset).Failed? ==>
              whole == Failure(receive(rest, ISO_PAYLOAD_SIZE - offset).error)
    ensures offset == ISO_PAYLOAD_SIZE ==> whole == Failure(ERR_ISO_TOO_MANY_FRAGMENTS)
  {
    NextPlaceInReach(got, asWritten);
  }

  lemma NextWhole(whole: Reassembly, got: seq<seq<byte>>, rest: seq<byte>, offset: nat, numParts: nat,
      receive: Receiver, f: Fragment, later: Reassembly)
    requires offset < ISO_PAYLOAD_SIZE && f == receive(rest, ISO_PAYLOAD_SIZE - offset) && f.Got?
    requires whole == Prepend(got, Reassemble(rest, offset, numParts, receive))
    requires later == Reassemble(f.rest, offset + |f.data|, numParts + 1, receive)
    ensures whole == if f.eot then Parts(got + [f.data], f.rest)
                     else if numParts >= MAX_ISO_FRAGMENTS then Failure(ERR_ISO_TOO_MANY_FRAGMENTS)
                     else Prepend(got + [f.data], later)
  {
    FirstFragment(rest, offset, numParts, receive, f, Reassemble(rest, offset, numParts, receive), later);
    NextStep(got, f, numParts, later);
  }

  /** One more fragment keeps the reassembly on its way. */
  lemma NextReceiving(whole: Reassembly, memory: seq<byte>, now: seq<byte>, rest: seq<byte>, receive: Receiver,
      got: seq<seq<byte>>, offset: int, numParts: int, place: int, received: int, asWritten: bool, f: Fragment)
    requires Receiving(whole, memory, now, rest, receive, got, offset, numParts, place, received, false, asWritten)
    requires offset < ISO_PAYLOAD_SIZE && f == receive(rest, ISO_PAYLOAD_SIZE - offset) && f.Got?
        && |f.data| <= ISO_PAYLOAD_SIZE - offset
    ensures var next := NextPlace(place, offset, asWritten);
            && 0 <= next && next + |f.data| <= |now|
            && (f.eot || numParts < MAX_ISO_FRAGMENTS ==>
                  Whole(Receiving(whole, memory, Put(now, next, f.data), f.rest, receive, got + [f.data], if f.eot
                      then offset else offset + |f.data|,
                                  if f.eot then numParts else numParts + 1, next, |f.data|, f.eot, asWritten)))
            && (!f.eot && numParts >= MAX_ISO_FRAGMENTS ==> whole == Failure(ERR_ISO_TOO_MANY_FRAGMENTS))
  {
    NextPlaceInReach(got, asWritten);
    NextPart(memory, got, f.data, asWritten);
    NextWhole(whole, got, rest, offset, numParts, receive, f,
        Reassemble(f.rest, offset + |f.data|, numParts + 1, receive));
    assert NextPlace(place, offset, asWritten) == PlaceOf(got, |got|, asWritten);
  }

  /** The payload holds the concatenation of the parts, if they have been put where they belong. */
  lemma ReceivedData(memory: seq<byte>, parts: seq<seq<byte>>, asWritten: bool)
    requires |parts| <= MAX_ISO_FRAGMENTS && Offset(parts, |parts|) <= ISO_PAYLOAD_SIZE && |memory| == REACH
    ensures (asWritten ==> AtMostTwoInARow(parts)) ==>
              Laid(memory, parts, |parts|, asWritten)[..Offset(parts, |parts|)] == Concat(parts)
  {
    if asWritten {
      LiteralPlacementIff(parts);
    } else {
      DiagramPlacement(memory, parts);
    }
  }

  // ---------- the socket ----------

  class IsoTcpSocket {
    /** The seven header bytes of the frame, and the memory from the start of its payload on. */
    const header: array<byte>
    const payload: array<byte>
    /** The bytes that still come from the peer before the link fails, and those sent to it. */
    var input: seq<byte>
    var output: seq<byte>
    /** Whether the link takes what is sent, and the error it reports otherwise. */
    const sends: bool
    const tcpError: int
    var lastIsoError: int

    constructor (input: seq<byte>, sends: bool, tcpError: int)
      requires 0 < tcpError < 0x1_0000
      ensures Valid() && this.input == input && output == [] && this.sends == sends && this.tcpError == tcpError
      ensures fresh(header) && fresh(payload)
    {
      header, payload := new byte[DATA_HEADER_SIZE](_ => 0), new byte[REACH](_ => 0);
      this.input, output, this.sends, this.tcpError, lastIsoError := input, [], sends, tcpError, 0;
    }

    ghost predicate Valid()
    {
      header.Length == DATA_HEADER_SIZE && payload.Length == REACH && header != payload && 0 < tcpError < 0x1_0000
    }

    method SetIsoError(error: int) returns (result: int)
      modifies this`lastIsoError
      ensures result == error == lastIsoError
    {
      lastIsoError := error;
      result := error;
    }

    /** Sends the data in one frame. */
    method IsoSendBuffer(data: seq<byte>) returns (result: int)
      requires Valid()
      modifies this`output, this`lastIsoError, header, payload
      ensures output == old(output) + if |data| <= ISO_PAYLOAD_SIZE && sends then Frame(data, true) else []
      ensures result == if |data| > ISO_PAYLOAD_SIZE then ERR_ISO_INVALID_DATA_SIZE else if sends then 0
          else ERR_ISO_SEND_PACKET + tcpError
      ensures lastIsoError == result
    {
      lastIsoError, result := 0, 0;
      var isoSize := |data| + DATA_HEADER_SIZE;
      if 0 < isoSize <= ISO_FRAME_SIZE {
        header[0], header[1], header[2], header[3] := ISO_TCP_VERSION, 0, Hi(isoSize), Lo(isoSize);
        header[4], header[5], header[6] := 2, PDU_TYPE_DT, PDU_EOT;
        forall i | 0 <= i < |data| {
          payload[i] := data[i];
        }
        assert header[..] + payload[..|data|] == Frame(data, true);
        if sends {
          output := output + (header[..] + payload[..|data|]);
        } else {
          result := SetIsoError(ERR_ISO_SEND_PACKET + tcpError);
        }
      } else {
        result := SetIsoError(ERR_ISO_INVALID_DATA_SIZE);
      }
    }

    /** Checks the header of a received frame; its type has to be the expected one. */
    method CheckPDU(pduTypeExpected: byte) returns (result: int)
      requires Valid()
      modifies this`lastIsoError
      ensures result == lastIsoError == if HeaderOk(header[..]) && header[5] == pduTypeExpected then 0
          else ERR_ISO_INVALID_PDU
    {
      lastIsoError, result := 0, 0;
      var size := WordAt(header[..], 2);
      if size < 7 || size > ISO_PAYLOAD_SIZE || header[4] < 2 || header[5] != pduTypeExpected {
        result := SetIsoError(ERR_ISO_INVALID_PDU);
      }
    }

    /** Receives a number of bytes to a place in the header or in the payload. */
    method RecvPacket(target: array<byte>, at: nat, n: nat) returns (ok: bool)
      requires at + n <= target.Length
      modifies this`input, target
      ensures ok == (n <= |old(input)|)
      ensures input == if ok then old(input)[n..] else []
      ensures target[..] == if ok then Put(old(target[..]), at, old(input)[..n]) else old(target[..])
    {
      ok := n <= |input|;
      if ok {
        forall i | 0 <= i < n {
          target[at + i] := input[i];
        }
        input := input[n..];
      } else {
        input := [];
      }
    }

    /** Receives one fragment to a place in the payload where it has room for `max` bytes. */
    method IsoRecvFragment(place: nat, max: int) returns (result: int, size: int, eot: bool)
      requires Valid() && 0 < max && place + max <= payload.Length
      modifies this`input, this`lastIsoError, header, payload
      ensures Obtained(FragmentOf(old(input), max, tcpError), result, size, eot, place, old(payload[..]))
      ensures lastIsoError == result
    {
      size, eot, lastIsoError := 0, false, 0;
      ghost var bytes := input;
      var ok := RecvPacket(header, 0, DATA_HEADER_SIZE);
      if !ok {
        result := SetIsoError(ERR_ISO_RECV_PACKET + tcpError);
        return;
      }
      assert header[..] == bytes[..7];
      var pduType := header[5];
      if pduType == PDU_TYPE_CR || pduType == PDU_TYPE_DR {
        eot := true;
      } else if pduType == PDU_TYPE_DT {
        eot := header[6] >= 0x80;
      } else {
        result := SetIsoError(ERR_ISO_INVALID_PDU);
        return;
      }
      var dataLength := WordAt(header[..], 2) - DATA_HEADER_SIZE;
      result := CheckPDU(pduType);
      if result != 0 {
        return;
      }
      result, size := RecvData(place, max, dataLength);
    }

    /** Receives the data of a fragment. */
    method RecvData(place: nat, max: int, dataLength: nat) returns (result: int, size: int)
      requires Valid() && 0 < max && place + max <= payload.Length
      modifies this`input, this`lastIsoError, payload
      ensures if dataLength > max then result == ERR_ISO_PDU_OVERFLOW
              else if dataLength > |old(input)| then result == ERR_ISO_RECV_PACKET + tcpError
              else result == 0 && size == dataLength && input == old(input)[dataLength..]
                   && payload[..] == Put(old(payload[..]), place, old(input)[..dataLength])
      ensures lastIsoError == if result == 0 then old(lastIsoError) else result
    {
      result, size := 0, 0;
      if dataLength > 0 {
        if dataLength <= max {
          var ok := RecvPacket(payload, place, dataLength);
          if !ok {
            result := SetIsoError(ERR_ISO_RECV_PACKET + tcpError);
          } else {
            size := dataLength;
          }
        } else {
          result := SetIsoError(ERR_ISO_PDU_OVERFLOW);
        }
      } else {
        assert Put(payload[..], place, []) == payload[..];
      }
    }

    /** What has been obtained from the stream. */
    ghost predicate Obtained(f: Fragment, result: int, size: int, eot: bool, place: nat, before: seq<byte>)
      reads this, payload
    {
      match f
      case Failed(error) => result == error != 0
      case Got(e, data, rest) =>
        result == 0 && eot == e && size == |data| && input == rest
        && place + |data| <= |before| && payload[..] == Put(before, place, data)
    }

    /** One round of the loop: receives one fragment and counts it. */
    method ReceiveNext(offset: int, numParts: int, place: int, asWritten: bool, ghost last: int,
                       ghost whole: Reassembly, ghost memory: seq<byte>, ghost got: seq<seq<byte>>)
        returns (result: int, nextOffset: int, nextParts: int, nextPlace: int, received: int, complete: bool,
            ghost more: seq<seq<byte>>)
      requires Valid()
      requires Whole(Receiving(whole, memory, payload[..], input, FragmentsOf(tcpError), got, offset, numParts, place,
          last, false, asWritten))
      modifies this`input, this`lastIsoError, header, payload
      ensures if result != 0 then whole == Failure(result) else
                Whole(Receiving(whole, memory, payload[..], input, FragmentsOf(tcpError), more, nextOffset, nextParts,
                    nextPlace, received, complete, asWritten))
      ensures numParts <= nextParts && (old(lastIsoError) == 0 ==> lastIsoError == result)
      ensures result == 0 ==> nextParts <= MAX_ISO_FRAGMENTS && (complete || nextParts == numParts + 1)
    {
      RoomForNext(whole, memory, payload[..], input, FragmentsOf(tcpError), got, offset, numParts, place, last,
          asWritten);
      nextPlace := if asWritten then place + offset else offset;
      nextOffset, nextParts, received, complete, more := offset, numParts, 0, false, got;
      var max := ISO_PAYLOAD_SIZE - offset;
      if max > 0 {
        ghost var now, f := payload[..], FragmentOf(input, max, tcpError);
        assert f == FragmentsOf(tcpError)(input, max);
        if f.Got? {
          NextReceiving(whole, memory, now, input, FragmentsOf(tcpError), got, offset, numParts, place, last,
              asWritten, f);
          more := got + [f.data];
        }
        result, received, complete := IsoRecvFragment(nextPlace, max);
        assert if f.Failed? then result == f.error != 0 else
                 result == 0 && received == |f.data| && complete == f.eot && input == f.rest
                     && payload[..] == Put(now, nextPlace, f.data);
        if result == 0 && !complete {
          nextParts := nextParts + 1;
          nextOffset := nextOffset + received;
          if nextParts > MAX_ISO_FRAGMENTS {
            result := SetIsoError(ERR_ISO_TOO_MANY_FRAGMENTS);
          }
        }
      } else {
        result := SetIsoError(ERR_ISO_TOO_MANY_FRAGMENTS);
      }
    }

    /** Receives fragments until one ends the transmission, and rebuilds the header. */
    method IsoRecvPDU(asWritten: bool) returns (result: int)
      requires Valid()
      modifies this`input, this`lastIsoError, header, payload
      ensures var r := Reassemble(old(input), 0, 1, FragmentsOf(tcpError));
              if r.Failure? then result == r.error != 0 else
                && result == 0 && input == r.rest && |r.parts| <= MAX_ISO_FRAGMENTS
                    && Offset(r.parts, |r.parts|) <= ISO_PAYLOAD_SIZE
                && payload[..] == Laid(old(payload[..]), r.parts, |r.parts|, asWritten)
                && PduSize(header[..]) == Offset(r.parts, |r.parts|) + DATA_HEADER_SIZE
      ensures lastIsoError == result
    {
      var numParts, offset, place, received, complete := 1, 0, 0, 0, false;
      lastIsoError, result := 0, 0;
      ghost var got: seq<seq<byte>> := [];
      ghost var memory, whole := payload[..], Reassemble(input, 0, 1, FragmentsOf(tcpError));
      assert Prepend([], whole) == whole;
      while !complete && result == 0
        invariant if result == 0
            then Whole(Receiving(whole, memory, payload[..], input, FragmentsOf(tcpError), got, offset, numParts,
            place, received, complete, asWritten))
                  else whole == Failure(result)
        invariant (result == 0 ==> numParts <= MAX_ISO_FRAGMENTS) && lastIsoError == result
        decreases MAX_ISO_FRAGMENTS - numParts, !complete, result == 0
      {
        result, offset, numParts, place, received, complete, got :=
          ReceiveNext(offset, numParts, place, asWritten, received, whole, memory, got);
      }
      if result == 0 {
        assert whole == Parts(got, input) && Offset(got, |got|) == offset + received;
        RebuildHeader(offset + received);
      }
    }

    /** Puts the length of the whole data into the header. */
    method RebuildHeader(dataLength: nat)
      requires Valid() && dataLength <= ISO_PAYLOAD_SIZE
      modifies header
      ensures PduSize(header[..]) == dataLength + DATA_HEADER_SIZE
    {
      var size := dataLength + DATA_HEADER_SIZE;
      header[2], header[3] := Hi(size), Lo(size);
      WordStands(header[..], 2, size);
    }

    /**
     * Receives a message; its data is what the fragments carried, if they have been put together in
     * the right places.
     */
    method IsoRecvBuffer(asWritten: bool) returns (result: int, data: seq<byte>)
      requires Valid()
      modifies this`input, this`lastIsoError, header, payload
      ensures var r := Reassemble(old(input), 0, 1, FragmentsOf(tcpError));
              if r.Failure? then result == r.error && data == [] else
                && result == 0 && input == r.rest && |data| == Offset(r.parts, |r.parts|)
                && ((asWritten ==> AtMostTwoInARow(r.parts)) ==>
                      data == Concat(r.parts))
      ensures lastIsoError == result
    {
      ghost var memory, r := payload[..], Reassemble(input, 0, 1, FragmentsOf(tcpError));
      lastIsoError, data := 0, [];
      result := IsoRecvPDU(asWritten);
      if result == 0 {
        ReceivedData(memory, r.parts, asWritten);
        data := payload[..WordAt(header[..], 2) - DATA_HEADER_SIZE];
      }
    }
  }
}

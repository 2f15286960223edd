/** The read operation for many requests: optimize, read, and hand the results on. */
module BatchedRead {
  import opened PlcTypes
  import opened ReadItems
  import opened ReadOptimizer
  import opened OptimizedList
  import opened S7Wire
  import opened S7Server
  import opened MicroClient
  import opened PortDriver
  import opened ResultDispatch

  /** One telegram can name the range of the request. */
  ghost predicate Nameable(r: AsynReadItem) {
    0 <= r.areaNumber <= 0xFFFF && 0 <= r.startByte && 0 <= r.readBytes <= 0xFFFF
        && r.startByte + r.readBytes <= 0x20_0000
  }

  /** The requests have buffers of their own, and have not been read yet. */
  ghost predicate ReadRequests(chain: seq<AsynReadItem>, payload: array<byte>)
    reads ResultsOf(chain)
  {
    Requested(chain, payload) && forall r | r in chain :: r.result.bytesRead == 0 && r.result.status == Success
  }

  ghost predicate Requested(chain: seq<AsynReadItem>, payload: array<byte>) {
    OwnBuffers(chain) && forall r | r in chain :: Nameable(r) && r.buffer != payload
  }

  ghost function ResultsOf(chain: seq<AsynReadItem>): set<ReadResult> {
    set r | r in chain :: r.result
  }

  ghost function TargetsOf(chain: seq<AsynReadItem>): set<array<byte>> {
    set r | r in chain :: r.buffer
  }

  /** The request has got nothing, maybe an error, or exactly what the PLC stores. */
  ghost predicate Sound(r: AsynReadItem, memory: Memory)
    reads r.result, r.buffer
  {
    || r.result.bytesRead == 0
    || (r.result.status == Success && r.result.bytesRead == r.readBytes
        && Holds(memory, r.area, r.areaNumber, r.startByte, r.buffer[..]))
  }

  ghost predicate FullyRead(r: AsynReadItem)
    reads r.result
  {
    r.result.status == Success && r.result.bytesRead == r.readBytes
  }

  /** The PLC tells no errors about what it has from now on, and responses fit into the buffer of the client. */
  ghost predicate PlcFaithful(pduLength: int, plc: Plc, tick: nat) {
    plc.FaithfulFrom(tick) && pduLength <= ISO_PAYLOAD_SIZE
  }

  /** The request does not fit into a telegram, not even alone. */
  predicate Oversized(readBytes: int, pduLength: int) {
    WireBytes(readBytes) > pduLength - 14
  }

  /** For an even length of the telegrams, the fill byte makes no difference. */
  lemma OversizedIff(readBytes: int, pduLength: int)
    requires pduLength % 2 == 0
    ensures Oversized(readBytes, pduLength) <==> readBytes + 4 > pduLength - 14
  {
  }

  /**
   * The measures of the optimizer and the packer agree about all requests if and only if telegrams
   * have an even length.
   */
  lemma MeasuresAgreeIff(pduLength: int)
    requires 24 <= pduLength
    ensures (forall n: nat | n + 4 <= pduLength - 14 :: !Oversized(n, pduLength)) <==> pduLength % 2 == 0
  {
    if pduLength % 2 != 0 {
      assert Oversized(pduLength - 18, pduLength);
    }
  }

  /** The bytes that a request asks for. */
  datatype Range = Range(area: Area, areaNumber: int, startByte: int, readBytes: int)

  function RangeOf(r: AsynReadItem): Range {
    Range(r.area, r.areaNumber, r.startByte, r.readBytes)
  }

  function RangesOf(chain: seq<AsynReadItem>): seq<Range> {
    seq(|chain|, i requires 0 <= i < |chain| => RangeOf(chain[i]))
  }

  predicate SameMemory(q: Range, r: Range) {
    q.area == r.area && q.areaNumber == r.areaNumber
  }

  /** From the start of one range to the end of the other one, it is just the length that is measured differently. */
  predicate Tight(q: Range, r: Range, pduLength: int) {
    SameMemory(q, r) && r.startByte + r.readBytes - q.startByte == pduLength - 18
  }

  /** No merged block is measured differently: telegrams have an even length, or no two ranges are tight. */
  ghost predicate WellMeasured(ranges: seq<Range>, pduLength: int) {
    pduLength % 2 == 0
    || forall i, j | 0 <= i < |ranges| && 0 <= j < |ranges| && i != j :: !Tight(ranges[i], ranges[j], pduLength)
  }

  predicate Contains(q: Range, r: Range) {
    q.startByte <= r.startByte && r.startByte + r.readBytes <= q.startByte + q.readBytes
  }

  predicate Existing(q: Range, memory: Memory) {
    WithinRun(memory, q.area, q.areaNumber, q.startByte, q.readBytes)
  }

  /** The PLC has what is asked for in the memory area of the range, and no oversized range there contains it. */
  ghost predicate InOrder(ranges: seq<Range>, r: Range, memory: Memory, pduLength: int) {
    forall q | q in ranges && SameMemory(q, r) ::
        Existing(q, memory) && (Oversized(q.readBytes, pduLength) ==> !Contains(q, r))
  }

  /** The PLC has not got the range, and no oversized range of its memory area contains it. */
  ghost predicate Missing(ranges: seq<Range>, r: Range, memory: Memory, pduLength: int) {
    && r.readBytes > 0 && !Existing(r, memory)
    && forall q | q in ranges && SameMemory(q, r) :: Oversized(q.readBytes, pduLength) ==> !Contains(q, r)
  }

  /** The PLC has the ranges that do not fit into a telegram. */
  ghost predicate LongOnesOnPlc(ranges: seq<Range>, memory: Memory, pduLength: int) {
    forall q | q in ranges && Oversized(q.readBytes, pduLength) :: Existing(q, memory)
  }

  /**
   * What a request gets: nothing, maybe an error, or exactly what the PLC stores, and always
   * nothing if it is oversized. If all has been served, it gets what the PLC stores, provided that
   * it is in order with the other requests for its memory area, and an error if the PLC has not got
   * its range and no oversized request contains it.
   */
  ghost predicate Obtains(r: AsynReadItem, chain: seq<AsynReadItem>, memory: Memory, pduLength: int, served: bool)
    reads r.result, r.buffer
  {
    && Sound(r, memory) && (Oversized(r.readBytes, pduLength) ==> r.result.bytesRead == 0)
    && (served && InOrder(RangesOf(chain), RangeOf(r), memory, pduLength) ==> FullyRead(r))
    && (served && Missing(RangesOf(chain), RangeOf(r), memory, pduLength) ==>
          r.result.status == Error && r.result.bytesRead == 0)
  }

  ghost predicate AllObtain(chain: seq<AsynReadItem>, memory: Memory, pduLength: int, served: bool)
    reads ResultsOf(chain), TargetsOf(chain)
  {
    forall r | r in chain :: r.result in ResultsOf(chain) && r.buffer in TargetsOf(chain)
        && Obtains(r, chain, memory, pduLength, served)
  }

  // ---------- from requests to read items ----------

  /** A wrapper has the range, the buffer and the result of its request. */
  lemma WrapperOf(chain: seq<AsynReadItem>, wrappers: seq<ReadItem>, maxPayloadSize: int, finalList: seq<ReadItem>,
      sh: Places, n: ReadItem)
    returns (r: AsynReadItem)
    requires Planned(chain, wrappers, maxPayloadSize, finalList, sh) && n in wrappers
    ensures r in chain && n in sh && MirrorsRequest(n, sh[n]) && n.request == r
  {
    var j :| 0 <= j < |wrappers| && wrappers[j] == n;
    r := chain[j];
    assert NodeOk(n, sh);
  }

  /** A root wraps a request, or starts with one and ends with another one of its area. */
  lemma RootBetween(chain: seq<AsynReadItem>, wrappers: seq<ReadItem>, maxPayloadSize: int, finalList: seq<ReadItem>,
                    sh: Places, n: ReadItem)
    returns (i: nat, j: nat)
    requires Planned(chain, wrappers, maxPayloadSize, finalList, sh) && n in finalList
    ensures n in sh && i < |chain| && j < |chain| && SameMemory(RangeOf(chain[i]), RangeOf(chain[j]))
    ensures chain[i].area == n.area && chain[i].areaNumber == n.areaNumber
    ensures chain[i].startByte == sh[n].startByte && chain[j].startByte + chain[j].readBytes == sh[n].End()
    ensures 0 <= sh[n].readBytes == sh[n].buffer.Length
    ensures if n in wrappers then i == j && wrappers[i] == n else i != j && sh[n].readBytes + 4 <= maxPayloadSize
  {
    assert NodeOk(n, sh);
    if n in wrappers {
      i :| 0 <= i < |wrappers| && wrappers[i] == n;
      j := i;
    } else {
      var a, b :| a in Members(wrappers) && b in Members(wrappers) && a != b && a in sh && b in sh
                  && SameArea([n, a, b]) && sh[a].startByte == sh[n].startByte && sh[b].End() == sh[n].End();
      i :| 0 <= i < |wrappers| && wrappers[i] == a;
      j :| 0 <= j < |wrappers| && wrappers[j] == b;
      assert NodeOk(a, sh) && NodeOk(b, sh);
      assert n in [n, a, b] && a in [n, a, b] && b in [n, a, b];
    }
  }

  /** One telegram can name the range of every root. */
  lemma RootAskable(chain: seq<AsynReadItem>, wrappers: seq<ReadItem>, maxPayloadSize: int, finalList: seq<ReadItem>,
      sh: Places, n: ReadItem)
    requires Planned(chain, wrappers, maxPayloadSize, finalList, sh) && n in finalList && maxPayloadSize <= 0xFFFF
    requires forall r | r in chain :: Nameable(r)
    ensures Askable(n, sh)
  {
    var i, j := RootBetween(chain, wrappers, maxPayloadSize, finalList, sh, n);
    assert Nameable(chain[i]) && Nameable(chain[j]);
  }

  /** A root that is too long for a telegram wraps an oversized request: a merged block fits. */
  lemma LongRootIsRequest(chain: seq<AsynReadItem>, wrappers: seq<ReadItem>, finalList: seq<ReadItem>, sh: Places,
                          n: ReadItem, pduLength: int)
    returns (i: nat)
    requires Planned(chain, wrappers, pduLength - 14, finalList, sh) && n in finalList
    requires WellMeasured(RangesOf(chain), pduLength)
    requires TooLong(n, sh, pduLength)
    ensures i < |chain| && n == wrappers[i] && !n.usingInternalBuffer && Oversized(chain[i].readBytes, pduLength)
    ensures chain[i].startByte == sh[n].startByte && chain[i].readBytes == sh[n].readBytes
    ensures chain[i].area == n.area && chain[i].areaNumber == n.areaNumber
  {
    var j;
    i, j := RootBetween(chain, wrappers, pduLength - 14, finalList, sh, n);
    if i != j {
      assert Tight(RangesOf(chain)[i], RangesOf(chain)[j], pduLength);
    }
  }

  /** The root of a request that is in order can be read with telegrams: it does not take the way around them. */
  lemma RootInOrder(chain: seq<AsynReadItem>, wrappers: seq<ReadItem>, finalList: seq<ReadItem>, sh: Places,
                    n: ReadItem, r: AsynReadItem, memory: Memory, pduLength: int)
    requires Planned(chain, wrappers, pduLength - 14, finalList, sh) && n in finalList
    requires WellMeasured(RangesOf(chain), pduLength)
    requires n in sh && r.area == n.area && r.areaNumber == n.areaNumber
    requires sh[n].startByte <= r.startByte && r.startByte + r.readBytes <= sh[n].End()
    requires InOrder(RangesOf(chain), RangeOf(r), memory, pduLength)
    ensures OnPlc(n, sh, memory) && !TooLong(n, sh, pduLength)
  {
    var i, j := RootBetween(chain, wrappers, pduLength - 14, finalList, sh, n);
    var ranges := RangesOf(chain);
    assert ranges[i] in ranges && ranges[j] in ranges;
    assert SameMemory(ranges[i], RangeOf(r)) && SameMemory(ranges[j], RangeOf(r));
    if TooLong(n, sh, pduLength) {
      var k := LongRootIsRequest(chain, wrappers, finalList, sh, n, pduLength);
      assert ranges[k] in ranges && SameMemory(ranges[k], RangeOf(r)) && Contains(ranges[k], RangeOf(r));
    }
  }

  /** The root of a request that the PLC has not got is not there either, and is asked for in a telegram. */
  lemma RootMissing(chain: seq<AsynReadItem>, wrappers: seq<ReadItem>, finalList: seq<ReadItem>, sh: Places,
                    n: ReadItem, r: AsynReadItem, memory: Memory, pduLength: int)
    requires Planned(chain, wrappers, pduLength - 14, finalList, sh) && n in finalList
    requires WellMeasured(RangesOf(chain), pduLength)
    requires n in sh && r.area == n.area && r.areaNumber == n.areaNumber
    requires sh[n].startByte <= r.startByte && r.startByte + r.readBytes <= sh[n].End()
    requires Missing(RangesOf(chain), RangeOf(r), memory, pduLength)
    ensures !OnPlc(n, sh, memory) && !TooLong(n, sh, pduLength) && sh[n].readBytes != 0
  {
    if TooLong(n, sh, pduLength) {
      var k := LongRootIsRequest(chain, wrappers, finalList, sh, n, pduLength);
      var ranges := RangesOf(chain);
      assert ranges[k] in ranges && SameMemory(ranges[k], RangeOf(r)) && Contains(ranges[k], RangeOf(r));
    }
  }

  // ---------- from read items to requests ----------

  /**
   * What an item gets from its root is sound, complete if the root has been read, nothing if
   * nothing has been read for the root, and an error if the root has one.
   */
  lemma ItemGets(n: ReadItem, sh: Places, memory: Memory)
    requires NodesOk(sh) && n in sh
    requires forall m | m in sh && sh[m].parent != null :: Settled(m, sh)
    requires ReadOk(RootOf(n, sh), sh, memory)
    ensures ReadOk(n, sh, memory) && (Complete(RootOf(n, sh), sh) ==> Complete(n, sh))
    ensures (Unread(RootOf(n, sh)) ==> Unread(n)) && (Failed(RootOf(n, sh)) ==> Failed(n))
  {
    var root := RootOf(n, sh);
    assert NodeOk(n, sh) && NodeOk(root, sh);
    if n != root {
      RootReachesItem(n, sh);
      RootCovers(n, sh);
      GetsFrom(root, n, sh, memory);
    }
  }

  /** What is passed on from an item to one that it covers is sound if it has been. */
  lemma GetsFrom(root: ReadItem, n: ReadItem, sh: Places, memory: Memory)
    requires root in sh && n in sh && Covers(root, n, sh) && ReadOk(root, sh, memory)
    requires sh[root].buffer.Length == sh[root].readBytes && sh[n].buffer.Length == sh[n].readBytes
    requires Passes(ResultOf(root, sh), sh[n].startByte - sh[root].startByte, sh[n].readBytes, ResultOf(n, sh))
    ensures ReadOk(n, sh, memory) && (Complete(root, sh) ==> Complete(n, sh)) && (Unread(root) ==> Unread(n))
    ensures Failed(root) ==> Failed(n)
  {
    PassesSoundly(ResultOf(root, sh), ResultOf(n, sh), memory, n.area, n.areaNumber,
                  sh[root].startByte, sh[root].readBytes, sh[n].startByte, sh[n].readBytes);
  }

  /** No bytes at all, or all bytes as the PLC stores them. */
  ghost predicate SoundOutcome(o: Outcome, memory: Memory, area: Area, number: int, start: int, length: int) {
    o.bytesRead == 0 || (o.status == Success && o.bytesRead == length && Holds(memory, area, number, start, o.bytes))
  }

  /** What is passed on from a sound result is sound, and complete or nothing if that is. */
  lemma PassesSoundly(from: Outcome, to: Outcome, memory: Memory, area: Area, number: int,
                      fromStart: int, fromLength: int, toStart: int, toLength: int)
    requires SoundOutcome(from, memory, area, number, fromStart, fromLength)
    requires Passes(from, toStart - fromStart, toLength, to) && |from.bytes| == fromLength && |to.bytes| == toLength
    requires fromStart <= toStart && toStart + toLength <= fromStart + fromLength
    ensures SoundOutcome(to, memory, area, number, toStart, toLength)
    ensures from.status == Success && from.bytesRead == fromLength ==> to.status == Success && to.bytesRead == toLength
    ensures from.status == Success && from.bytesRead == 0 ==> to.status == Success && to.bytesRead == 0
  {
    if from.status == Success && from.bytesRead != 0 {
      HoldsPart(memory, area, number, fromStart, from.bytes, toStart - fromStart, toLength);
    }
  }

  /** The roots of the plan are ready to be read. */
  lemma PlanReady(chain: seq<AsynReadItem>, wrappers: seq<ReadItem>, finalList: seq<ReadItem>, sh: Places,
      client: Client, calm: bool)
    requires Whole(Planned(chain, wrappers, client.PDULength - 14, finalList, sh)) && 24 <= client.PDULength <= 0xFFFF
    requires client.Valid() && Current(sh) && Whole(ReadRequests(chain, client.payload))
    requires forall n | n in sh && n !in wrappers :: sh[n].buffer != client.payload && Unread(n)
    requires calm ==> Calm(RangesOf(chain), client.plc.memory, client.PDULength, client.plc, client.plc.tick)
    ensures Whole(RootsReady(client, finalList, sh, calm))
  {
    forall n | n in finalList ensures Askable(n, sh) && Unread(n) {
      RootAskable(chain, wrappers, client.PDULength - 14, finalList, sh, n);
      if n in wrappers {
        var r := WrapperOf(chain, wrappers, client.PDULength - 14, finalList, sh, n);
      }
    }
    forall n | n in sh ensures sh[n].buffer != client.payload {
      if n in wrappers {
        var r := WrapperOf(chain, wrappers, client.PDULength - 14, finalList, sh, n);
      }
    }
    if calm {
      forall n | n in finalList && TooLong(n, sh, client.PDULength) ensures OnPlc(n, sh, client.plc.memory) {
        var i := LongRootIsRequest(chain, wrappers, finalList, sh, n, client.PDULength);
        assert RangesOf(chain)[i] in RangesOf(chain);
      }
    }
  }

  /** The objects of the plan belong to the requests or have been created for it. */
  ghost predicate Owned(chain: seq<AsynReadItem>, wrappers: seq<ReadItem>, sh: Places) {
    forall n | n in sh && n in wrappers :: n.result in ResultsOf(chain) && sh[n].buffer in TargetsOf(chain)
  }

  lemma PlanOwned(chain: seq<AsynReadItem>, wrappers: seq<ReadItem>, maxPayloadSize: int, finalList: seq<ReadItem>,
      sh: Places)
    requires Whole(Planned(chain, wrappers, maxPayloadSize, finalList, sh))
    ensures Owned(chain, wrappers, sh)
  {
    forall n | n in sh && n in wrappers ensures n.result in ResultsOf(chain) && sh[n].buffer in TargetsOf(chain) {
      var r := WrapperOf(chain, wrappers, maxPayloadSize, finalList, sh, n);
    }
  }

  /** The root of a request belongs to the same memory area, and is too long for a telegram if the request is. */
  lemma RootOfRequest(chain: seq<AsynReadItem>, wrappers: seq<ReadItem>, finalList: seq<ReadItem>, sh: Places,
      pduLength: int, j: nat)
    returns (n: ReadItem, root: ReadItem)
    requires Planned(chain, wrappers, pduLength - 14, finalList, sh) && j < |chain|
    ensures n in sh && n == wrappers[j] && MirrorsRequest(n, sh[n]) && n.request == chain[j]
        && sh[n].buffer.Length == sh[n].readBytes
    ensures root == RootOf(n, sh) && root in finalList && root.area == chain[j].area
        && root.areaNumber == chain[j].areaNumber && root in sh
    ensures sh[root].startByte <= chain[j].startByte && chain[j].startByte + chain[j].readBytes <= sh[root].End()
    ensures Oversized(chain[j].readBytes, pduLength) ==> TooLong(root, sh, pduLength)
  {
    n := wrappers[j];
    assert NodeOk(n, sh);
    root := RootOf(n, sh);
    RootCovers(n, sh);
  }

  /** When the roots have been read and everything else is settled, every request has its result. */
  lemma RequestGets(chain: seq<AsynReadItem>, wrappers: seq<ReadItem>, finalList: seq<ReadItem>, sh: Places,
      memory: Memory, pduLength: int, served: bool, j: nat)
    requires Whole(Planned(chain, wrappers, pduLength - 14, finalList, sh)) && j < |chain|
    requires Whole(RootsRead(finalList, sh, memory, pduLength, served)) && Whole(AllSettled(sh))
        && (served ==> WellMeasured(RangesOf(chain), pduLength))
    ensures Whole(Obtains(chain[j], chain, memory, pduLength, served))
  {
    var n, root := RootOfRequest(chain, wrappers, finalList, sh, pduLength, j);
    if served && InOrder(RangesOf(chain), RangeOf(chain[j]), memory, pduLength) {
      RootInOrder(chain, wrappers, finalList, sh, root, chain[j], memory, pduLength);
    }
    if served && Missing(RangesOf(chain), RangeOf(chain[j]), memory, pduLength) {
      RootMissing(chain, wrappers, finalList, sh, root, chain[j], memory, pduLength);
    }
    RootRead(finalList, root, sh, memory, pduLength, served);
    ItemGets(n, sh, memory);
  }

  /**
   * For telegrams of any length: if all has been served and the PLC has the root, a request
   * is fully read if and only if its root fits into a telegram, or there is nothing to read.
   */
  lemma RootDecides(chain: seq<AsynReadItem>, wrappers: seq<ReadItem>, finalList: seq<ReadItem>, sh: Places,
                    memory: Memory, pduLength: int, j: nat)
    returns (root: ReadItem)
    requires Whole(Planned(chain, wrappers, pduLength - 14, finalList, sh)) && j < |chain|
    requires Whole(RootsRead(finalList, sh, memory, pduLength, true)) && Whole(AllSettled(sh))
    ensures root in finalList && root in sh && Covers(root, wrappers[j], sh)
    ensures OnPlc(root, sh, memory) ==>
        (FullyRead(chain[j]) <==> chain[j].readBytes == 0 || !TooLong(root, sh, pduLength))
  {
    var n;
    n, root := RootOfRequest(chain, wrappers, finalList, sh, pduLength, j);
    RootCovers(n, sh);
    RootRead(finalList, root, sh, memory, pduLength, true);
    ItemGets(n, sh, memory);
  }

  lemma RootRead(roots: seq<ReadItem>, root: ReadItem, sh: Places, memory: Memory, pduLength: int, served: bool)
    requires RootsRead(roots, sh, memory, pduLength, served) && root in roots
    ensures root in sh && ReadOk(root, sh, memory)
    ensures if TooLong(root, sh, pduLength) then Unread(root) else served ==> ReadOrFailed(root, sh, memory)
  {
  }

  lemma RequestsGet(chain: seq<AsynReadItem>, wrappers: seq<ReadItem>, finalList: seq<ReadItem>, sh: Places,
      memory: Memory, pduLength: int, served: bool)
    requires Whole(Planned(chain, wrappers, pduLength - 14, finalList, sh))
    requires served ==> WellMeasured(RangesOf(chain), pduLength)
    requires Whole(RootsRead(finalList, sh, memory, pduLength, served)) && Whole(AllSettled(sh))
    ensures Whole(AllObtain(chain, memory, pduLength, served))
  {
    forall r | r in chain ensures Whole(Obtains(r, chain, memory, pduLength, served)) {
      var j :| 0 <= j < |chain| && chain[j] == r;
      RequestGets(chain, wrappers, finalList, sh, memory, pduLength, served, j);
    }
  }

  /** The roots can be read; in calm circumstances, the PLC answers and has those that are too long for a telegram. */
  ghost predicate RootsReady(client: Client, roots: seq<ReadItem>, sh: Places, calm: bool)
    reads client, client.plc, sh.Keys, Results(Members(roots))
  {
    && client.Valid() && 24 <= client.PDULength && Current(sh) && WellFormed(sh) && Roots(roots, sh)
    && (forall n | n in sh && sh[n].parent == null :: n in roots)
    && Isolated(Members(roots), sh, client) && (forall n | n in roots :: n in Members(roots) && Unread(n))
    && (calm ==> RunFrom(client, Members(roots), sh).calm)
  }

  /**
   * Roots that are too long for a telegram are unread; if all has been served, the others have been
   * read if the PLC has them, and have an error otherwise.
   */
  ghost predicate RootsRead(roots: seq<ReadItem>, sh: Places, memory: Memory, pduLength: int, served: bool)
    reads Results(sh.Keys), Buffers(sh)
  {
    forall n | n in roots ::
      && n in sh && n.result in Results(sh.Keys) && sh[n].buffer in Buffers(sh) && ReadOk(n, sh, memory)
      && if TooLong(n, sh, pduLength) then Unread(n) else served ==> ReadOrFailed(n, sh, memory)
  }

  ghost predicate AllSettled(sh: Places)
    reads Results(sh.Keys), Buffers(sh)
  {
    forall m | m in sh && sh[m].parent != null ::
      && m.result in Results(sh.Keys) && sh[m].buffer in Buffers(sh)
      && sh[m].parent in sh && sh[m].parent.result in Results(sh.Keys) && sh[sh[m].parent].buffer in Buffers(sh)
          && Settled(m, sh)
  }

  /**
   * The telegrams of a batch tell its status: none follows one that has failed, and the last one decides.
   * A telegram for more than one item is one of a multi-variable read.
   */
  ghost predicate BatchTold(verdicts: nat -> Verdict, from: nat, to: nat, before: seq<seq<byte>>, now: seq<seq<byte>>,
                            ops: seq<Operation>, status: int) {
    && |now| == |before| + |ops| && now[..|before|] == before && to == from + |ops|
    && Series(verdicts, from, ops, status) && (status != 0 ==> ops != []) && AreaWrite !in ops
    && forall k {:trigger ops[k]} | 0 <= k < |ops| :: SentFor(now[|before| + k], ops[k])
  }

  predicate SentFor(req: seq<byte>, op: Operation) {
    |req| >= 12 && (req[11] != 1 ==> op.ItemsRead?)
  }

  lemma HistoryTold(verdicts: nat -> Verdict, from: nat, to: nat, before: seq<seq<byte>>, now: seq<seq<byte>>,
                    h: History, sh: Places, pduLength: int, status: int)
    requires Reported(verdicts, from, to, h, status) && OnWire(before, now, h.wire + h.failed, sh, pduLength)
    ensures Whole(BatchTold(verdicts, from, to, before, now, OpsOf(h.wire + h.failed), status))
  {
    var wire, ops := h.wire + h.failed, OpsOf(h.wire + h.failed);
    assert (status != 0 ==> |ops| > 0) && forall k | 0 <= k < |ops| :: ops[k] != AreaWrite;
    forall k {:trigger ops[k]} | 0 <= k < |ops| ensures SentFor(now[|before| + k], ops[k]) {
      assert SentAs(now[|before|..][k], wire[k], sh, pduLength) && now[|before|..][k] == now[|before| + k];
    }
  }

  /** If the last telegram of a batch has been lost or refused, its status is the one for that. */
  lemma FailureTold(verdicts: nat -> Verdict, from: nat, to: nat, before: seq<seq<byte>>, now: seq<seq<byte>>,
                    ops: seq<Operation>, status: int)
    requires BatchTold(verdicts, from, to, before, now, ops, status) && from < to
    ensures forall u | from <= u < to - 1 :: verdicts(u).Served?
    ensures match verdicts(to - 1)
            case Lost(isoError, _) => status == isoError
            case Refused(error) =>
              status == CpuError(error) || (now[|now| - 1][11] == 1 && status == ERR_CLI_FUNCTION_REFUSED)
            case Served(_, _) => true
  {
    forall u | from <= u < to - 1 ensures verdicts(u).Served? {
      assert GoesOn(ops[..|ops| - 1][u - from], verdicts(from + (u - from)));
    }
    var last := |ops| - 1;
    assert SentFor(now[|before| + last], ops[last]);
  }

  /** Items that were unread at the start of a run are as the batch needs them at its end. */
  lemma RunRead(roots: seq<ReadItem>, todo: set<ReadItem>, sh: Places, memory: Memory, run: Run,
                reset: bool, done: bool)
    requires Whole(Progress(Members(roots), todo, sh, memory, run, reset)) && (done ==> todo == {})
    requires forall n | n in Members(roots) :: Askable(n, sh) && n in run.initial && run.initial[n].1 == 0
                 && run.initial[n].0 == Success
    ensures Whole(RootsRead(roots, sh, memory, run.pduLength, done && run.faithful))
  {
    forall n | n in roots
      ensures n in Members(roots) && n in sh && ReadOk(n, sh, memory)
      ensures if TooLong(n, sh, run.pduLength) then Unread(n)
              else done && run.faithful ==> ReadOrFailed(n, sh, memory)
    {
      assert n in Members(roots);
      assert ItemProgress(n, n in todo, sh, memory, run, reset);
    }
  }

  /** Reads the roots with telegrams. */
  method ReadRoots(client: Client, readItems: seq<ReadItem>, ghost sh: Places, ghost calm: bool)
      returns (status: int, ghost ops: seq<Operation>)
    requires Whole(RootsReady(client, readItems, sh, calm))
    modifies client, client.payload, client.plc, Results(sh.Keys), Buffers(sh)
    ensures client.Valid() && client.plc.memory == old(client.plc.memory) && old(client.plc.tick) <= client.plc.tick
    ensures Whole(RootsRead(readItems, sh, client.plc.memory, client.PDULength,
                            status == 0 && PlcFaithful(client.PDULength, client.plc, old(client.plc.tick))))
    ensures Whole(BatchTold(client.plc.verdicts, old(client.plc.tick), client.plc.tick, old(client.plc.requests),
                            client.plc.requests, ops, status))
    ensures calm ==> status == 0
  {
    ghost var todo, h, run := {}, History([], {}, {}, [], []), RunFrom(client, Members(readItems), sh);
    status, todo, h := SendRequestToPlc(client, readItems, sh);
    ops := OpsOf(h.wire + h.failed);
    HistoryTold(client.plc.verdicts, old(client.plc.tick), client.plc.tick, old(client.plc.requests),
                client.plc.requests, h, sh, client.PDULength, status);
    RunRead(readItems, todo, sh, client.plc.memory, run, WasReset(h), status == 0);
  }

  /** What has been read for the roots can be handed down: all of their bytes or none. */
  lemma RootsDeliver(roots: seq<ReadItem>, sh: Places, memory: Memory, pduLength: int, served: bool)
    requires NodesOk(sh) && Whole(RootsRead(roots, sh, memory, pduLength, served))
    ensures forall n | n in roots && n in sh :: DeliversFrom(n, sh)
  {
    forall n | n in roots && n in sh ensures DeliversFrom(n, sh) {
      RootRead(roots, n, sh, memory, pduLength, served);
      AllDeliverable(n, sh);
    }
  }

  /** Hands the results of the roots on. */
  method HandOn(readItems: seq<ReadItem>, ghost sh: Places, ghost memory: Memory, ghost pduLength: int,
      ghost served: bool)
    requires Current(sh) && WellFormed(sh) && Roots(readItems, sh) && forall n | n in sh && sh[n].parent == null ::
        n in readItems
    requires Whole(RootsRead(readItems, sh, memory, pduLength, served))
    modifies Results(sh.Keys), Buffers(sh)
    ensures Whole(RootsRead(readItems, sh, memory, pduLength, served)) && Whole(AllSettled(sh))
  {
    RootsDeliver(readItems, sh, memory, pduLength, served);
    DispatchResults(readItems, sh);
    forall n | n in readItems
      ensures ReadOk(n, sh, memory)
      ensures if TooLong(n, sh, pduLength) then Unread(n) else served ==> ReadOrFailed(n, sh, memory)
    {
      assert ResultOf(n, sh) == old(ResultOf(n, sh));
    }
    forall m | m in sh && sh[m].parent != null ensures sh[m].parent in sh {
      assert Settled(m, sh);
    }
  }

  method ReadAndHandOn(client: Client, readItems: seq<ReadItem>, ghost sh: Places, ghost calm: bool)
      returns (status: int, ghost ops: seq<Operation>)
    requires Whole(RootsReady(client, readItems, sh, calm))
    modifies client, client.payload, client.plc, Results(sh.Keys), Buffers(sh)
    ensures client.Valid() && client.plc.memory == old(client.plc.memory) && old(client.plc.tick) <= client.plc.tick
    ensures Whole(RootsRead(readItems, sh, client.plc.memory, client.PDULength,
                            status == 0 && PlcFaithful(client.PDULength, client.plc, old(client.plc.tick))))
    ensures Whole(BatchTold(client.plc.verdicts, old(client.plc.tick), client.plc.tick, old(client.plc.requests),
                            client.plc.requests, ops, status))
    ensures Whole(AllSettled(sh)) && (calm ==> status == 0)
  {
    ghost var answers := PlcFaithful(client.PDULength, client.plc, client.plc.tick);
    status, ops := ReadRoots(client, readItems, sh, calm);
    ghost var served := status == 0 && answers;
    HandOn(readItems, sh, client.plc.memory, client.PDULength, served);
  }

  /**
   * What has become of a batch. With telegrams that the PLC answers, and blocks that are well
   * measured, the status is 0 if it has what is read alone, and then every request that is in
   * order gets its bytes.
   */
  ghost predicate BatchDone(chain: seq<AsynReadItem>, memory: Memory, pduLength: int, plc: Plc, tick: nat,
      success: bool)
    reads ResultsOf(chain), TargetsOf(chain)
  {
    var answering := PlcFaithful(pduLength, plc, tick) && WellMeasured(RangesOf(chain), pduLength);
    && AllObtain(chain, memory, pduLength, success && answering)
    && (Calm(RangesOf(chain), memory, pduLength, plc, tick) ==> success)
  }

  /** Reads all requests: optimizes them, reads the roots, and hands the results on. */
  method ReadBatch(client: Client, firstItem: AsynReadItem?, ghost chain: seq<AsynReadItem>)
      returns (status: int, ghost ops: seq<Operation>)
    requires client.Valid() && 24 <= client.PDULength <= 0xFFFF && Chain(firstItem, chain)
        && ReadRequests(chain, client.payload)
    modifies client, client.payload, client.plc, ResultsOf(chain), TargetsOf(chain)
    ensures client.Valid() && client.plc.memory == old(client.plc.memory) && old(client.plc.tick) <= client.plc.tick
    ensures Whole(BatchDone(chain, client.plc.memory, client.PDULength, client.plc, old(client.plc.tick), status == 0))
    ensures Whole(BatchTold(client.plc.verdicts, old(client.plc.tick), client.plc.tick, old(client.plc.requests),
                            client.plc.requests, ops, status))
  {
    var readItems;
    ghost var wrappers, sh;
    readItems, wrappers, sh := CreateOptimizedList(firstItem, client.PDULength - 14, chain);
    PlanOwned(chain, wrappers, client.PDULength - 14, readItems, sh);
    ghost var calm := Calm(RangesOf(chain), client.plc.memory, client.PDULength, client.plc, client.plc.tick);
    PlanReady(chain, wrappers, readItems, sh, client, calm);
    status, ops := ReadPlan(client, readItems, chain, wrappers, sh, calm);
  }

  /** The PLC answers all telegrams and has what does not fit into one, and no block is measured differently. */
  ghost predicate Calm(ranges: seq<Range>, memory: Memory, pduLength: int, plc: Plc, tick: nat) {
    && plc.HealthyFrom(tick) && pduLength <= ISO_PAYLOAD_SIZE
    && WellMeasured(ranges, pduLength) && LongOnesOnPlc(ranges, memory, pduLength)
  }

  method ReadPlan(client: Client, readItems: seq<ReadItem>, ghost chain: seq<AsynReadItem>,
      ghost wrappers: seq<ReadItem>, ghost sh: Places, ghost calm: bool)
      returns (status: int, ghost ops: seq<Operation>)
    requires Whole(Planned(chain, wrappers, client.PDULength - 14, readItems, sh))
        && Whole(RootsReady(client, readItems, sh, calm))
    requires calm == Calm(RangesOf(chain), client.plc.memory, client.PDULength, client.plc, client.plc.tick)
    modifies client, client.payload, client.plc, Results(sh.Keys), Buffers(sh)
    ensures client.Valid() && client.plc.memory == old(client.plc.memory) && old(client.plc.tick) <= client.plc.tick
    ensures Whole(BatchDone(chain, client.plc.memory, client.PDULength, client.plc, old(client.plc.tick), status == 0))
    ensures Whole(BatchTold(client.plc.verdicts, old(client.plc.tick), client.plc.tick, old(client.plc.requests),
                            client.plc.requests, ops, status))
  {
    status, ops := ReadAndHandOn(client, readItems, sh, calm);
    BatchIsDone(chain, wrappers, readItems, sh, client.plc.memory, client.PDULength, client.plc, old(client.plc.tick),
        status == 0);
  }

  lemma BatchIsDone(chain: seq<AsynReadItem>, wrappers: seq<ReadItem>, finalList: seq<ReadItem>, sh: Places,
      memory: Memory, pduLength: int, plc: Plc, tick: nat, success: bool)
    requires Whole(Planned(chain, wrappers, pduLength - 14, finalList, sh)) && Whole(AllSettled(sh))
    requires Whole(RootsRead(finalList, sh, memory, pduLength, success && PlcFaithful(pduLength, plc, tick)))
    requires Calm(RangesOf(chain), memory, pduLength, plc, tick) ==> success
    ensures Whole(BatchDone(chain, memory, pduLength, plc, tick, success))
  {
    var answering := PlcFaithful(pduLength, plc, tick) && WellMeasured(RangesOf(chain), pduLength);
    RootsServed(finalList, sh, memory, pduLength, success && PlcFaithful(pduLength, plc, tick), success && answering);
    RequestsGet(chain, wrappers, finalList, sh, memory, pduLength, success && answering);
  }

  lemma BatchObtains(chain: seq<AsynReadItem>, memory: Memory, pduLength: int, plc: Plc, tick: nat, success: bool,
      served: bool)
    requires Whole(BatchDone(chain, memory, pduLength, plc, tick, success))
    requires served == (success && PlcFaithful(pduLength, plc, tick) && WellMeasured(RangesOf(chain), pduLength))
    ensures Whole(AllObtain(chain, memory, pduLength, served))
    ensures Calm(RangesOf(chain), memory, pduLength, plc, tick) ==> success
  {
  }

  lemma RootsServed(roots: seq<ReadItem>, sh: Places, memory: Memory, pduLength: int, served: bool, less: bool)
    requires Whole(RootsRead(roots, sh, memory, pduLength, served)) && (less ==> served)
    ensures Whole(RootsRead(roots, sh, memory, pduLength, less))
  {
  }

  /**
   * Where the batched read does what reading every request alone would do: if the PLC
   * answers and has all the ranges, all requests get their bytes if and only if each of
   * them fits into a telegram.
   */
  lemma AllReadIff(chain: seq<AsynReadItem>, memory: Memory, pduLength: int)
    requires pduLength >= 24 && forall r | r in chain :: Existing(RangeOf(r), memory)
    requires AllObtain(chain, memory, pduLength, true)
    ensures (forall r | r in chain :: FullyRead(r)) <==> (forall r | r in chain :: !Oversized(r.readBytes, pduLength))
    ensures pduLength % 2 == 0 ==>
        ((forall r | r in chain :: FullyRead(r)) <==> (forall r | r in chain :: r.readBytes + 4 <= pduLength - 14))
  {
    forall r | r in chain ensures Oversized(r.readBytes, pduLength) ==> !FullyRead(r) {
      assert Obtains(r, chain, memory, pduLength, true);
    }
    if forall r | r in chain :: !Oversized(r.readBytes, pduLength) {
      forall r | r in chain ensures FullyRead(r) {
        AllInOrder(chain, RangeOf(r), memory, pduLength);
      }
    }
    if pduLength % 2 == 0 {
      forall r | r in chain ensures Oversized(r.readBytes, pduLength) <==> r.readBytes + 4 > pduLength - 14 {
        OversizedIff(r.readBytes, pduLength);
      }
    }
  }

  lemma AllInOrder(chain: seq<AsynReadItem>, r: Range, memory: Memory, pduLength: int)
    requires forall q | q in chain :: Existing(RangeOf(q), memory) && !Oversized(q.readBytes, pduLength)
    ensures InOrder(RangesOf(chain), r, memory, pduLength)
  {
    forall q | q in RangesOf(chain) ensures Existing(q, memory) && !Oversized(q.readBytes, pduLength) {
      var i :| 0 <= i < |chain| && RangesOf(chain)[i] == q;
      assert chain[i] in chain;
    }
  }

  // ---------- the port driver ----------

  const ERR_ISO_SHORT_PACKET := 0x0006_0000
  const ERR_ISO_SEND_PACKET := 0x0009_0000
  const ERR_ISO_RECV_PACKET := 0x000A_0000

  /** The four bits of a status that tell an error of the transport. */
  function IsoError(status: int): int {
    status / 0x1_0000 % 16 * 0x1_0000
  }

  /** Errors after which the connection is closed. */
  predicate Disconnects(status: int) {
    IsoError(status) == ERR_ISO_RECV_PACKET || IsoError(status) == ERR_ISO_SEND_PACKET
        || IsoError(status) == ERR_ISO_SHORT_PACKET
  }

  class Driver {
    const client: Client
    var connected: bool

    constructor (client: Client)
      ensures this.client == client && connected
    {
      this.client, connected := client, true;
    }

    /** Closes the connection. */
    method AsynDisconnect()
      modifies this
      ensures !connected
    {
      connected := false;
    }

    /** Sets the number of bytes read to zero, from one request to the end of the chain. */
    method SetAllBytesReadToZero(first: AsynReadItem?, ghost chain: seq<AsynReadItem>, ghost k: nat)
      requires k <= |chain| && Linked(chain) && first == if k < |chain| then chain[k] else null
      modifies ResultsOf(chain)
      ensures forall j | k <= j < |chain| :: chain[j].result.bytesRead == 0
      ensures forall r | r in chain :: r.result.bytesRead in {0, old(r.result.bytesRead)}
      ensures forall r | r in chain :: r.result.status == old(r.result.status)
    {
      var item := first;
      ghost var i := k;
      while item != null
        invariant k <= i <= |chain| && item == if i < |chain| then chain[i] else null
        invariant forall j | k <= j < i :: chain[j].result.bytesRead == 0
        invariant forall r | r in chain :: r.result.bytesRead in {0, old(r.result.bytesRead)}
        invariant forall r | r in chain :: r.result.status == old(r.result.status)
        decreases |chain| - i
      {
        assert item in chain;
        item.result.bytesRead := 0;
        item, i := item.next, i + 1;
      }
    }

    /** Sets the number of bytes read to zero for the whole chain, once for every request in it. */
    method SetAllToZero(firstItem: AsynReadItem?, ghost chain: seq<AsynReadItem>)
      requires Chain(firstItem, chain)
      modifies ResultsOf(chain)
      ensures forall r | r in chain :: r.result.bytesRead == 0 && r.result.status == old(r.result.status)
    {
      var nextItem := firstItem;
      ghost var i := 0;
      while nextItem != null
        invariant 0 <= i <= |chain| && nextItem == if i < |chain| then chain[i] else null
        invariant forall j | 0 <= j < i :: chain[j].result.bytesRead == 0
        invariant forall r | r in chain :: r.result.status == old(r.result.status)
        decreases |chain| - i
      {
        SetAllBytesReadToZero(nextItem, chain, i);
        nextItem, i := nextItem.next, i + 1;
      }
    }

    /**
     * Reads all requests of the chain. Whatever happens, each request has got nothing or
     * exactly what the PLC stores. The connection is closed if and only if the status of the
     * telegrams tells an error of the transport; that of a telegram that is lost is told.
     */
    method AsynPlcReadMultipleItems(firstItem: AsynReadItem?, ghost chain: seq<AsynReadItem>)
        returns (result: AsynStatus, ghost status: int, ghost ops: seq<Operation>)
      requires client.Valid() && 24 <= client.PDULength <= 0xFFFF && Chain(firstItem, chain)
          && Requested(chain, client.payload)
      // what is read over a connection must not have been read before
      requires connected ==> ReadRequests(chain, client.payload)
      modifies this, client, client.payload, client.plc, ResultsOf(chain), TargetsOf(chain)
      ensures client.Valid() && client.plc.memory == old(client.plc.memory)
      ensures old(connected)
          ==> Whole(BatchDone(chain, client.plc.memory, client.PDULength, client.plc, old(client.plc.tick),
          result == Success))
      ensures !old(connected) ==>
          && result == Disconnected && !connected && client.plc.requests == old(client.plc.requests)
          && client.plc.tick == old(client.plc.tick)
          && (forall r | r in chain :: r.result.bytesRead == 0 && r.result.status == old(r.result.status))
          && forall r | r in chain :: r.buffer[..] == old(r.buffer[..])
      ensures old(connected) ==> result == (if status == 0 then Success else Error)
      ensures connected == (old(connected) && !Disconnects(status))
      // what the telegrams tell about the status, and what that means for the last one
      ensures old(connected) ==>
        Whole(BatchTold(client.plc.verdicts, old(client.plc.tick), client.plc.tick, old(client.plc.requests),
                        client.plc.requests, ops, status))
      ensures EndedWell(old(client.plc.tick), result)
    {
      status, ops := 0, [];
      if !connected {
        SetAllToZero(firstItem, chain);
        return Disconnected, status, ops;
      }
      result, status, ops := ReadConnected(firstItem, chain);
      if old(client.plc.tick) < client.plc.tick {
        FailureTold(client.plc.verdicts, old(client.plc.tick), client.plc.tick, old(client.plc.requests),
                    client.plc.requests, ops, status);
      }
    }

    /**
     * All telegrams since then but the last one have been answered. If that has been lost or refused, it is
     * an error; if the loss is an error of the transport, the connection is closed.
     */
    ghost predicate EndedWell(from: nat, result: AsynStatus)
      reads this, client.plc
    {
      && from <= client.plc.tick
      && (from < client.plc.tick ==>
            && (forall u | from <= u < client.plc.tick - 1 :: client.plc.verdicts(u).Served?)
            && match client.plc.verdicts(client.plc.tick - 1)
               case Lost(isoError, _) => result == Error && (Disconnects(isoError) ==> !connected)
               case Refused(_) => result == Error
               case Served(_, _) => true)
    }

    /** Reads all requests over the connection, and closes it after an error of the transport. */
    method ReadConnected(firstItem: AsynReadItem?, ghost chain: seq<AsynReadItem>)
        returns (result: AsynStatus, ghost status: int, ghost ops: seq<Operation>)
      requires client.Valid() && 24 <= client.PDULength <= 0xFFFF && Chain(firstItem, chain)
          && ReadRequests(chain, client.payload)
      modifies this, client, client.payload, client.plc, ResultsOf(chain), TargetsOf(chain)
      ensures client.Valid() && client.plc.memory == old(client.plc.memory)
      ensures Whole(BatchDone(chain, client.plc.memory, client.PDULength, client.plc, old(client.plc.tick),
          result == Success))
      ensures result == (if status == 0 then Success else Error)
      ensures connected == (old(connected) && !Disconnects(status))
      ensures Whole(BatchTold(client.plc.verdicts, old(client.plc.tick), client.plc.tick, old(client.plc.requests),
                              client.plc.requests, ops, status))
    {
      var reported;
      reported, ops := ReadBatch(client, firstItem, chain);
      status := reported;
      result := if reported == 0 then Success else Error;
      CloseAfter(reported, chain, old(client.plc.tick), result == Success);
    }

    /** Closes the connection after an error of the transport. */
    method CloseAfter(status: int, ghost chain: seq<AsynReadItem>, ghost tick: nat, ghost success: bool)
      requires Whole(BatchDone(chain, client.plc.memory, client.PDULength, client.plc, tick, success))
      modifies this
      ensures connected == (old(connected) && !Disconnects(status))
      ensures Whole(BatchDone(chain, client.plc.memory, client.PDULength, client.plc, tick, success))
    {
      if Disconnects(status) {
        AsynDisconnect();
      }
    }

    /** Reads a single range; its status and number of bytes are only told after success. */
    method AsynPlcRead(area: Area, areaNumber: int, startByte: int, readLength: int, buffer: array<byte>)
        returns (result: AsynStatus, bytesRead: int, ghost status: int, ghost got: nat)
      requires client.Valid() && 24 <= client.PDULength <= 0xFFFF && buffer != client.payload
          && 0 <= readLength <= buffer.Length
      requires readLength <= 0xFFFF && startByte + readLength <= 0x20_0000
      modifies this, client, client.payload, client.plc, buffer
      ensures client.Valid() && client.plc.memory == old(client.plc.memory)
      ensures result == Success ==> old(connected) && bytesRead == readLength
                                    && Holds(client.plc.memory, area, areaNumber, startByte, buffer[..readLength])
      // whatever happens, the buffer has got some first bytes of the range and is as before behind them
      ensures got <= readLength
          && GotSoFar(AreaCode(area), areaNumber, startByte, client.plc.memory, old(buffer[..]), buffer[..], got)
      ensures !old(connected) ==> got == 0
      ensures result == if !old(connected) then Disconnected else if status == 0 then Success else Error
      ensures connected == (old(connected) && !Disconnects(status))
      ensures && old(connected) && client.plc.HealthyFrom(old(client.plc.tick)) && client.PDULength <= ISO_PAYLOAD_SIZE
              && ByteAddressed(area)
              && readLength >= 1 && 0 <= areaNumber <= 65535 && 0 <= startByte
              && InMemory(client.plc.memory, area, areaNumber, startByte, readLength) ==>
                result == Success
      ensures !old(connected) ==> client.plc.requests == old(client.plc.requests)
      // the status tells what has become of the last telegram
      ensures old(connected) ==>
          Whole(SeriesOf(AreaRead, client.plc.verdicts, old(client.plc.tick), client.plc.tick, status))
    {
      bytesRead, status, got := 0, 0, 0;
      if !connected {
        return Disconnected, 0, status, got;
      }
      var reported;
      if ByteAddressed(area) {
        AreaKnown(area);
      }
      reported, got := client.ReadArea(AreaCode(area), areaNumber, startByte, readLength, S7_WL_BYTE, buffer);
      status := reported;
      if reported == 0 {
        bytesRead, result := readLength, Success;
        if got > 0 {
          CodeOfArea(area);
        }
      } else {
        if Disconnects(reported) {
          AsynDisconnect();
        }
        result := Error;
      }
    }

    /**
     * Writes bytes. At every return the PLC has stored some first bytes of the buffer and nothing
     * else; after success all of them, and after one failed telegram none.
     */
    method AsynPlcWrite(area: Area, areaNumber: int, startByte: int, writeLength: int, buffer: seq<byte>)
        returns (result: AsynStatus, bytesWritten: int, ghost status: int, ghost put: nat)
      requires client.Valid() && 29 <= client.PDULength <= ISO_PAYLOAD_SIZE && 0 <= writeLength <= |buffer|
      requires startByte + writeLength <= 0x20_0000
      modifies this, client, client.payload, client.plc
      ensures client.Valid() && put <= |buffer|
      ensures Wrote(old(client.plc.memory), AreaCode(area), areaNumber, startByte, buffer[..put], client.plc.memory)
      ensures result == Success ==> put == writeLength == bytesWritten
      ensures status == ERR_CLI_PARTIAL_DATA_WRITTEN ==> 0 < put < writeLength
      ensures result == if !old(connected) then Disconnected else if status == 0 then Success else Error
      ensures connected == (old(connected) && !Disconnects(status))
      ensures && old(connected) && client.plc.HealthyFrom(old(client.plc.tick)) && ByteAddressed(area)
              && 1 <= writeLength <= 0xFFFF && 0 <= areaNumber <= 65535 && 0 <= startByte
              && InMemory(old(client.plc.memory), area, areaNumber, startByte, writeLength) ==>
                result == Success
      ensures !old(connected) ==> client.plc.requests == old(client.plc.requests) && put == 0
      // the status tells what has become of the last telegram; every telegram keeps the limit
      ensures old(connected) ==>
          Whole(SeriesOf(AreaWrite, client.plc.verdicts, old(client.plc.tick), client.plc.tick, status))
      ensures WritesOnly(old(client.plc.requests), client.plc.requests, AreaCode(area), S7_WL_BYTE, client.PDULength)
    {
      bytesWritten, status, put := 0, 0, 0;
      if !connected {
        return Disconnected, 0, status, put;
      }
      if ByteAddressed(area) {
        AreaKnown(area);
      }
      var reported;
      reported, put := client.WriteArea(AreaCode(area), areaNumber, startByte, writeLength, S7_WL_BYTE, buffer);
      status := reported;
      if reported == 0 {
        bytesWritten, result := writeLength, Success;
      } else {
        if Disconnects(reported) {
          AsynDisconnect();
        }
        result := Error;
      }
    }

    /** Writes one bit; a bit number above 7 means a bit of a later byte. No other bit of the PLC changes. */
    method AsynPlcWriteBit(area: Area, areaNumber: int, startByte: int, startBit: int, bitValue: byte)
        returns (result: AsynStatus, ghost status: int, ghost written: bool)
      requires client.Valid() && 29 <= client.PDULength <= ISO_PAYLOAD_SIZE && startByte * 8 + startBit < 0x100_0000
      modifies this, client, client.payload, client.plc
      ensures client.Valid()
      ensures if written then WroteBit(old(client.plc.memory), AreaCode(area), areaNumber, startByte * 8 + startBit,
                                       bitValue != 0, client.plc.memory)
              else client.plc.memory == old(client.plc.memory)
      ensures (result == Success ==> written) && (status >= 0x10_0000 ==> !written)
      ensures result == if !old(connected) then Disconnected else if status == 0 then Success else Error
      ensures connected == (old(connected) && !Disconnects(status))
      ensures && old(connected) && client.plc.HealthyFrom(old(client.plc.tick)) && ByteAddressed(area)
              && 0 <= areaNumber <= 65535
              && HasBit(old(client.plc.memory), area, areaNumber, startByte * 8 + startBit) ==>
                result == Success
      ensures !old(connected) ==> client.plc.requests == old(client.plc.requests)
      // the status tells what has become of the telegram
      ensures old(connected) && 0 <= areaNumber <= 65535 && 0 <= startByte * 8 + startBit ==>
          && client.plc.tick == old(client.plc.tick) + 1
          && Tells(AreaWrite, true, client.plc.verdicts(old(client.plc.tick)), status)
          && BitWriteSent(old(client.plc.requests), client.plc.requests, AreaCode(area), areaNumber,
                          startByte * 8 + startBit, if bitValue != 0 then 1 else 0)
    {
      status, written := 0, false;
      if !connected {
        return Disconnected, status, written;
      }
      if ByteAddressed(area) {
        AreaKnown(area);
      }
      var reported;
      reported, written := client.WriteBit(AreaCode(area), areaNumber, startByte * 8 + startBit,
                                           if bitValue != 0 then 1 else 0);
      status := reported;
      if reported == 0 {
        result := Success;
      } else {
        if Disconnects(reported) {
          AsynDisconnect();
        }
        result := Error;
      }
    }
  }
}

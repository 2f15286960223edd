/** A PLC that answers read and write telegrams as the protocol demands, over a memory of its own. */
module S7Server {
  import opened PlcTypes
  import opened S7Wire

  /**
   * What happens to one telegram. The connection may fail, before or after the PLC has
   * carried out the request; the PLC may refuse the telegram as a whole; or it answers
   * it, with a return code for each item (0xFF for success) and a length in bytes or bits.
   */
  datatype Verdict =
    | Lost(isoError: int, carriedOut: bool)
    | Refused(error: int)
    | Served(codes: nat -> byte, octets: nat -> bool)

  /** Errors are told by values that mean an error; return code 0 is reserved. */
  ghost predicate Conforming(v: Verdict) {
    match v
    case Lost(isoError, _) => 0 < isoError < 0x10_0000
    case Refused(error) => 0 < error < 0x1_0000
    case Served(codes, _) => forall k :: codes(k) != 0
  }

  /** Nothing goes wrong with this telegram. */
  ghost predicate Healthy(v: Verdict) {
    v.Served? && forall k :: v.codes(k) == 0xFF
  }

  function KnownAreas(): map<int, Area> {
    map[S7_AREA_DB as int := Db, S7_AREA_MK as int := Flags, S7_AREA_PE as int := Inputs, S7_AREA_PA as int := Outputs]
  }

  lemma AreaKnown(area: Area)
    requires ByteAddressed(area)
    ensures AreaCode(area) as int in KnownAreas() && KnownAreas()[AreaCode(area) as int] == area
  {
  }

  /** The reference names a run of bytes of the memory that the server has. */
  predicate Available(ref: Ref, memory: Memory) {
    && ref.areaCode in KnownAreas() && DataSizeByte(ref.transport) > 0 && !ElementAddressed(ref.transport)
    && 0 <= ref.length && 0 <= ref.address
    && InMemory(memory, KnownAreas()[ref.areaCode], ref.number, ref.address / 8,
        ref.length * DataSizeByte(ref.transport))
  }

  function ReadAnswer(ref: Ref, memory: Memory, code: byte, octet: bool): Answer {
    if code != 0xFF then Answer(code, 0, [])
    else if !Available(ref, memory) then Answer(0x05, 0, [])
    else Answer(0xFF, if octet then TS_RES_OCTET else TS_RES_BYTE,
                Slice(memory, KnownAreas()[ref.areaCode], ref.number, ref.address / 8,
                    ref.length * DataSizeByte(ref.transport)))
  }

  function ReadAnswers(refs: seq<Ref>, memory: Memory, v: Verdict): (answers: seq<Answer>)
    requires v.Served?
    ensures |answers| == |refs|
    ensures forall k | 0 <= k < |refs| :: answers[k] == ReadAnswer(refs[k], memory, v.codes(k), v.octets(k))
  {
    if refs == [] then []
    else ReadAnswers(refs[..|refs| - 1], memory,
        v) + [ReadAnswer(refs[|refs| - 1], memory, v.codes(|refs| - 1), v.octets(|refs| - 1))]
  }

  /** The bytes are a request: the lengths that its header tells are those of the telegram. */
  predicate IsRequest(req: seq<byte>) {
    && |req| >= 12 && Headed(req, WordAt(req, 6), |req| - 10 - WordAt(req, 6))
    && (req[10] == PDU_FUNC_READ ==> |req| == 12 + 12 * req[11] as int)
        && (req[10] == PDU_FUNC_WRITE ==> |req| >= 28)
  }

  /** The header of a response: the length of the data and the error, in two bytes each. */
  function Header(req: seq<byte>, lengthHi: byte, lengthLo: byte, errorHi: byte, errorLo: byte): (header: seq<byte>)
    requires |req| >= 12
    ensures |header| == 12 && header[10] == errorHi && header[11] == errorLo
  {
    [0x32, 0x03, 0, 0, req[4], req[5], 0, 2, lengthHi, lengthLo, errorHi, errorLo]
  }

  /** A response that refuses the request with an error. */
  function Refusal(req: seq<byte>, errorHi: byte, errorLo: byte): seq<byte>
    requires |req| >= 12
  {
    Header(req, 0, 0, errorHi, errorLo)
  }

  /** The data of a write telegram with one item, with the length that its header tells. */
  function WriteData(req: seq<byte>): seq<byte>
    requires |req| >= 28
  {
    var length := if CountsBytes(req[25]) then WordAt(req, 26) else WordAt(req, 26) / 8;
    if 28 + length <= |req| then req[28..28 + length] else []
  }

  /** The PLC can carry out the write request. */
  predicate Writable(req: seq<byte>, memory: Memory)
    requires |req| >= 28
  {
    BytesWritable(req, memory) || BitWritable(req, memory)
  }

  predicate BytesWritable(req: seq<byte>, memory: Memory)
    requires |req| >= 28
  {
    var ref := RefAt(req, 12);
    ref.length > 0 && Available(ref, memory) && |WriteData(req)| == ref.length * DataSizeByte(ref.transport)
  }

  /** The request is to write one bit; its address counts bits. */
  predicate BitWritable(req: seq<byte>, memory: Memory)
    requires |req| >= 28
  {
    var ref := RefAt(req, 12);
    && ref.transport == S7_WL_BIT && ref.length == 1 && ref.areaCode in KnownAreas()
    && HasBit(memory, KnownAreas()[ref.areaCode], ref.number, ref.address)
    && req[25] == TS_RES_BIT && |WriteData(req)| == 1
  }

  predicate HasBit(memory: Memory, area: Area, number: int, address: int) {
    0 <= address && InMemory(memory, area, number, address / 8, 1)
  }

  function PowerOf2(n: nat): (power: nat)
    ensures power > 0
  {
    if n == 0 then 1 else 2 * PowerOf2(n - 1)
  }

  predicate BitOf(b: nat, k: nat) {
    if k == 0 then b % 2 == 1 else BitOf(b / 2, k - 1)
  }

  /** The number with one of its bits replaced. */
  function WithBit(b: nat, k: nat, value: bool): nat {
    if k == 0 then b / 2 * 2 + (if value then 1 else 0) else WithBit(b / 2, k - 1, value) * 2 + b % 2
  }

  lemma {:induction false} WithBitBits(b: nat, k: nat, value: bool, j: nat)
    ensures BitOf(WithBit(b, k, value), j) == if j == k then value else BitOf(b, j)
  {
    if k > 0 && j > 0 {
      WithBitBits(b / 2, k - 1, value, j - 1);
    }
  }

  lemma {:induction false} WithBitFits(b: nat, k: nat, value: bool, n: nat)
    requires k < n && b < PowerOf2(n)
    ensures WithBit(b, k, value) < PowerOf2(n)
  {
    if k > 0 {
      WithBitFits(b / 2, k - 1, value, n - 1);
    }
  }

  function ByteWithBit(b: byte, k: nat, value: bool): byte
    requires k < 8
  {
    assert PowerOf2(2) == 4 && PowerOf2(4) == 16 && PowerOf2(6) == 64 && PowerOf2(8) == 256;
    WithBitFits(b, k, value, 8);
    WithBit(b, k, value)
  }

  /** The bit of the memory that an address names which counts bits. */
  predicate StoredBit(memory: Memory, area: Area, number: int, address: int)
    requires HasBit(memory, area, number, address)
  {
    BitOf(memory[MemoryKey(area, number)][address / 8], address % 8)
  }

  /** Memory with one bit replaced. */
  function StoredWithBit(memory: Memory, area: Area, number: int, address: int, value: bool): Memory
    requires HasBit(memory, area, number, address)
  {
    var b := memory[MemoryKey(area, number)][address / 8];
    Stored(memory, area, number, address / 8, [ByteWithBit(b, address % 8, value)])
  }

  /** After one bit has been replaced, it has the value, and no other bit of the memory has changed. */
  lemma OnlyOneBit(memory: Memory, area: Area, number: int, address: int, value: bool, other: Area, otherNumber: int,
      at: int)
    requires HasBit(memory, area, number, address) && HasBit(memory, other, otherNumber, at)
    ensures var after := StoredWithBit(memory, area, number, address, value);
            && after.Keys == memory.Keys && HasBit(after, other, otherNumber, at)
            && StoredBit(after, other, otherNumber, at)
               == if MemoryKey(other, otherNumber) == MemoryKey(area, number) && at == address then value
                  else StoredBit(memory, other, otherNumber, at)
  {
    var b := memory[MemoryKey(area, number)][address / 8];
    StoredMeaning(memory, area, number, address / 8, [ByteWithBit(b, address % 8, value)]);
    WithBitBits(b, address % 8, value, at % 8);
    var after := StoredWithBit(memory, area, number, address, value);
    var key := MemoryKey(area, number);
    assert after[key][address / 8..address / 8 + 1][0] == after[key][address / 8];
    if at / 8 == address / 8 {
      assert at == 8 * (at / 8) + at % 8 && address == 8 * (address / 8) + address % 8;
    }
  }

  /** Memory with `data` in place of what is stored from `start` on. */
  function Stored(memory: Memory, area: Area, number: int, start: int, data: seq<byte>): Memory
    requires InMemory(memory, area, number, start, |data|)
  {
    if data == [] then memory else
      var key := MemoryKey(area, number);
      memory[key := memory[key][..start] + data + memory[key][start + |data|..]]
  }

  /** After storing data, memory holds it, and nothing else has changed. */
  lemma StoredMeaning(memory: Memory, area: Area, number: int, start: int, data: seq<byte>)
    requires data != [] && InMemory(memory, area, number, start, |data|)
    ensures var after, key := Stored(memory, area, number, start, data), MemoryKey(area, number);
            && Holds(after, area, number, start, data)
            && after.Keys == memory.Keys
                && (forall other | other in memory && other != key :: after[other] == memory[other])
            && |after[key]| == |memory[key]|
            && (forall i | 0 <= i < |memory[key]| && !(start <= i < start + |data|) :: after[key][i] == memory[key][i])
  {
    var after, key := Stored(memory, area, number, start, data), MemoryKey(area, number);
    assert after[key][start..start + |data|] == data;
  }

  /** Storing two adjacent runs one after the other is storing one run. */
  lemma StoredJoin(memory: Memory, area: Area, number: int, start: int, first: seq<byte>, second: seq<byte>)
    requires first != [] && second != [] && InMemory(memory, area, number, start, |first|)
    requires InMemory(Stored(memory, area, number, start, first), area, number, start + |first|, |second|)
    ensures InMemory(memory, area, number, start, |first + second|)
    ensures Stored(Stored(memory, area, number, start, first), area, number, start + |first|, second)
            == Stored(memory, area, number, start, first + second)
  {
    var key := MemoryKey(area, number);
    var once := Stored(memory, area, number, start, first);
    var twice := Stored(once, area, number, start + |first|, second);
    assert once[key] == memory[key][..start] + first + memory[key][start + |first|..];
    assert twice[key] == memory[key][..start] + (first + second) + memory[key][start + |first + second|..];
    assert twice == Stored(memory, area, number, start, first + second);
  }

  function Written(req: seq<byte>, memory: Memory): Memory
    requires |req| >= 28 && Writable(req, memory)
  {
    var ref := RefAt(req, 12);
    if BitWritable(req, memory)
    then StoredWithBit(memory, KnownAreas()[ref.areaCode], ref.number, ref.address, WriteData(req)[0] != 0)
    else Stored(memory, KnownAreas()[ref.areaCode], ref.number, ref.address / 8, WriteData(req))
  }

  /** The memory after the PLC has dealt with a telegram. */
  function MemoryAfter(req: seq<byte>, memory: Memory, v: Verdict): Memory
    requires IsRequest(req)
  {
    var carriedOut := match v case Lost(_, done) => done case Refused(_) => false case Served(codes,
        _) => codes(0) == 0xFF;
    if carriedOut && req[10] == PDU_FUNC_WRITE && Writable(req, memory) then Written(req, memory) else memory
  }

  function AnswersTo(req: seq<byte>, memory: Memory, v: Verdict): seq<byte>
    requires IsRequest(req) && req[10] == PDU_FUNC_READ && v.Served?
  {
    Layout(ReadAnswers(RefsFrom(req, 12, req[11]), memory, v))
  }

  /** The message tells success or not; with success it has a number of items and data behind its header. */
  ghost predicate Carries(message: seq<byte>, success: bool, count: byte, data: seq<byte>) {
    && |message| >= 12 && (WordAt(message, 10) == 0 <==> success)
    && (success ==> |message| >= 14 && message[13] == count && Contains(message, 14, data))
  }

  function Behind(head: seq<byte>, data: seq<byte>): (message: seq<byte>)
    requires |head| == 14 && head[10] == 0 && head[11] == 0
    ensures |message| == 14 + |data| && Carries(message, true, head[13], data)
  {
    head + data
  }

  /** A response without error: the number of items and the data stand behind the header. */
  function Reply(req: seq<byte>, function_: byte, count: byte, data: seq<byte>): (message: seq<byte>)
    requires |req| >= 12
    ensures |message| == 14 + |data| && Whole(Carries(message, true, count, data))
  {
    Behind(Header(req, Hi(|data|), Lo(|data|), 0, 0) + [function_, count], data)
  }

  /** The response that carries the data; if it does not fit into a telegram, the request is refused. */
  function ReadResponse(req: seq<byte>, data: seq<byte>, pduLength: int): seq<byte>
    requires |req| >= 12
  {
    if 14 + |data| > pduLength then Refusal(req, 0x85, 0) else Reply(req, PDU_FUNC_READ, req[11], data)
  }

  /** What stands in a message also stands in a buffer that starts with it. */
  lemma CarriedOn(message: seq<byte>, after: seq<byte>, success: bool, count: byte, data: seq<byte>)
    requires Whole(Carries(message, success, count, data)) && message <= after
    ensures Carries(after, success, count, data)
  {
    assert forall i | 0 <= i < |message| :: after[i] == message[i];
  }

  lemma RefusalCarries(req: seq<byte>, errorHi: byte, errorLo: byte, count: byte, data: seq<byte>)
    requires |req| >= 12 && (errorHi != 0 || errorLo != 0)
    ensures |Refusal(req, errorHi, errorLo)| == 12 && Whole(Carries(Refusal(req, errorHi, errorLo), false, count, data))
  {
  }

  function WriteCode(req: seq<byte>, memory: Memory, code: byte): byte
    requires |req| >= 28
  {
    if code != 0xFF then code else if Writable(req, memory) then 0xFF else 0x05
  }

  function Response(req: seq<byte>, memory: Memory, pduLength: int, v: Verdict): seq<byte>
    requires IsRequest(req) && !v.Lost?
  {
    match v
    case Refused(error) => Refusal(req, Hi(error), Lo(error))
    case Served(codes, _) =>
      if req[10] == PDU_FUNC_READ then ReadResponse(req, AnswersTo(req, memory, v), pduLength)
      else if req[10] == PDU_FUNC_WRITE then Reply(req, PDU_FUNC_WRITE, 1, [WriteCode(req, memory, codes(0))])
      else Refusal(req, 0x81, 0x04)
  }

  /** The PLC at the other end of the connection. */
  class Plc {
    var memory: Memory
    /** What will happen to the telegrams, by their number. */
    const verdicts: nat -> Verdict
    var tick: nat
    /** The telegrams that have been sent so far. */
    ghost var requests: seq<seq<byte>>

    constructor (memory: Memory, verdicts: nat -> Verdict)
      ensures this.memory == memory && this.verdicts == verdicts && tick == 0 && requests == []
    {
      this.memory, this.verdicts, tick, requests := memory, verdicts, 0, [];
    }

    ghost predicate Valid() {
      forall t :: Conforming(verdicts(t))
    }

    /** All telegrams are answered from now on. */
    ghost predicate ServedFrom(t: nat) {
      forall u: nat | t <= u :: verdicts(u).Served?
    }

    /** No telegram that is answered tells an error about what the PLC has. */
    ghost predicate FaithfulFrom(t: nat) {
      forall u: nat | t <= u && verdicts(u).Served? :: Healthy(verdicts(u))
    }

    ghost predicate HealthyFrom(t: nat) {
      forall u: nat | t <= u :: Healthy(verdicts(u))
    }
  }

  /**
   * Sends the request in the buffer and receives the response into the same buffer. The
   * transport is taken to deliver a response as it is, as it does for one or two fragments.
   * Bytes of the buffer behind a short response are still those of the request.
   */
  method Exchange(plc: Plc, payload: array<byte>, size: int, pduLength: int) returns (result: int)
    requires 0 <= size <= payload.Length && IsRequest(payload[..size])
    modifies plc, payload
    ensures plc.tick == old(plc.tick) + 1
    ensures plc.requests == old(plc.requests) + [old(payload[..size])]
    ensures plc.memory == MemoryAfter(old(payload[..size]), old(plc.memory), plc.verdicts(old(plc.tick)))
    ensures Whole(Received(old(payload[..size]), old(payload[..]), old(plc.memory), pduLength,
        plc.verdicts(old(plc.tick)), result, payload[..]))
  {
    var v, req := plc.verdicts(plc.tick), payload[..size];
    ghost var before := payload[..];
    if v.Lost? {
      result := v.isoError;
    } else {
      var response := Response(req, plc.memory, pduLength, v);
      if |response| > payload.Length {
        result := ERR_ISO_PDU_OVERFLOW;
      } else {
        forall i | 0 <= i < |response| {
          payload[i] := response[i];
        }
        result := 0;
        assert payload[..] == response + before[|response|..];
      }
    }
    assert before[..size] == req;
    plc.memory := MemoryAfter(req, plc.memory, v);
    plc.tick, plc.requests := plc.tick + 1, plc.requests + [req];
  }

  /** What the buffer holds and the call returns after an exchange. */
  ghost predicate Received(req: seq<byte>, before: seq<byte>, memory: Memory, pduLength: int, v: Verdict, result: int,
      after: seq<byte>)
    requires IsRequest(req)
  {
    if v.Lost? then result == v.isoError && after == before
    else Transferred(Response(req, memory, pduLength, v), before, result, after)
  }

  /** The response stands at the beginning of the buffer, if it is not too long for it. */
  ghost predicate Transferred(response: seq<byte>, before: seq<byte>, result: int, after: seq<byte>) {
    if |response| > |before| then result == ERR_ISO_PDU_OVERFLOW && after == before
    else result == 0 && after == response + before[|response|..]
  }

  /** What a client finds in its buffer: a reply with data, or a refusal behind which its own bytes still stand. */
  ghost predicate Arrived(before: seq<byte>, result: int, after: seq<byte>, success: bool, count: byte, data: seq<byte>)
    requires |before| >= 12
  {
    && 0 <= result < 0x10_0000
    && (result == 0 ==> |after| == |before| && Carries(after, success, count, data))
    && (result == 0 && !success ==> after[12..] == before[12..])
    && (!success || 14 + |data| <= |before| ==> result == 0)
  }

  lemma MessageArrives(message: seq<byte>, before: seq<byte>, result: int, after: seq<byte>, success: bool,
      count: byte, data: seq<byte>)
    requires |before| >= 12 && Whole(Transferred(message, before, result, after))
        && Whole(Carries(message, success, count, data))
    requires |message| == if success then 14 + |data| else 12
    ensures Whole(Arrived(before, result, after, success, count, data))
  {
    if result == 0 {
      CarriedOn(message, after, success, count, data);
    }
  }

  lemma RefusalArrives(req: seq<byte>, errorHi: byte, errorLo: byte, count: byte, data: seq<byte>, before: seq<byte>,
      result: int, after: seq<byte>)
    requires |req| >= 12 && |before| >= 12 && (errorHi != 0 || errorLo != 0)
    requires Whole(Transferred(Refusal(req, errorHi, errorLo), before, result, after))
    ensures Whole(Arrived(before, result, after, false, count, data))
  {
    RefusalCarries(req, errorHi, errorLo, count, data);
    MessageArrives(Refusal(req, errorHi, errorLo), before, result, after, false, count, data);
  }

  /** A refusal tells its error. */
  lemma RefusalTells(req: seq<byte>, error: int, before: seq<byte>, result: int, after: seq<byte>)
    requires |req| >= 12 && |before| >= 12 && 0 < error < 0x1_0000
    requires Whole(Transferred(Refusal(req, Hi(error), Lo(error)), before, result, after))
    ensures result == 0 && |after| == |before| && WordAt(after, 10) == error
  {
    var header := Refusal(req, Hi(error), Lo(error));
    assert after[10] == header[10] && after[11] == header[11];
    WordStands(after, 10, error);
  }

  /** A read request is replied to if and only if the PLC serves it and the reply fits into a telegram. */
  lemma ReadArrives(req: seq<byte>, before: seq<byte>, memory: Memory, pduLength: int, v: Verdict, result: int,
      after: seq<byte>, data: seq<byte>)
    requires IsRequest(req) && req[10] == PDU_FUNC_READ && |before| >= 12 && Conforming(v)
    requires Whole(Received(req, before, memory, pduLength, v, result, after))
        && (v.Served? ==> data == AnswersTo(req, memory, v))
    ensures v.Lost? ==> result == v.isoError
    ensures !v.Lost? ==> Whole(Arrived(before, result, after, v.Served? && 14 + |data| <= pduLength, req[11], data))
    ensures v.Refused? ==> result == 0 && |after| == |before| && WordAt(after, 10) == v.error
  {
    if v.Refused? {
      RefusalTells(req, v.error, before, result, after);
      RefusalArrives(req, Hi(v.error), Lo(v.error), req[11], data, before, result, after);
    } else if v.Served? {
      if 14 + |data| <= pduLength {
        MessageArrives(Reply(req, PDU_FUNC_READ, req[11], data), before, result, after, true, req[11], data);
      } else {
        RefusalArrives(req, 0x85, 0, req[11], data, before, result, after);
      }
    }
  }

  /** A write request is replied to if and only if the PLC serves it; the reply tells the return code. */
  lemma WriteArrives(req: seq<byte>, before: seq<byte>, memory: Memory, pduLength: int, v: Verdict, result: int,
      after: seq<byte>, code: byte)
    requires IsRequest(req) && req[10] == PDU_FUNC_WRITE && |before| >= 12 && Conforming(v)
    requires Whole(Received(req, before, memory, pduLength, v, result, after))
        && (v.Served? ==> code == WriteCode(req, memory, v.codes(0)))
    ensures v.Lost? ==> result == v.isoError
    ensures !v.Lost? ==> Whole(Arrived(before, result, after, v.Served?, 1, [code]))
    ensures v.Refused? ==> result == 0 && |after| == |before| && WordAt(after, 10) == v.error
  {
    if v.Refused? {
      RefusalTells(req, v.error, before, result, after);
      RefusalArrives(req, Hi(v.error), Lo(v.error), 1, [code], before, result, after);
    } else if v.Served? {
      MessageArrives(Reply(req, PDU_FUNC_WRITE, 1, [code]), before, result, after, true, 1, [code]);
    }
  }
}

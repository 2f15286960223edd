/** The client library: reading and writing PLC memory with telegrams of limited size. */
module MicroClient {
  import opened PlcTypes
  import opened S7Wire
  import opened S7Server

  /** One item of a multi-variable request. */
  datatype DataItem = DataItem(area: byte, wordLen: int, result: int, dbNumber: int, start: int, amount: int,
      pdata: array<byte>)
  {
    function Size(): int { amount * DataSizeByte(wordLen) }

    /** The item after its result has been cleared; timers and counters have word lengths of their own. */
    function Cleared(): DataItem {
      this.(result := 0, wordLen := if area == S7_AREA_CT then S7_WL_COUNTER else if area == S7_AREA_TM
          then S7_WL_TIMER else wordLen)
    }

    /** What the telegram says about the item; numbers are cut off to the bytes that there are for them. */
    function ToRef(): Ref {
      ItemRef(area, wordLen, dbNumber, start, amount)
    }
  }

  /** One telegram can name the item, and its data has room in the target. */
  predicate Readable(it: DataItem) {
    && DataSizeByte(it.wordLen) > 0 && !ElementAddressed(it.wordLen) && 0 <= it.dbNumber <= 0xFFFF
    && 0 <= it.start && 0 <= it.amount <= 0xFFFF && it.start + it.Size() <= 0x20_0000 && it.Size() <= it.pdata.Length
  }

  predicate AllReadable(its: seq<DataItem>) {
    forall k | 0 <= k < |its| :: Readable(its[k])
  }

  function ItemRef(area: byte, wordLen: int, number: int, start: int, amount: int): Ref {
    Ref(wordLen % 256, amount % 0x1_0000, if area == S7_AREA_DB then number % 0x1_0000 else 0, area,
        (if ElementAddressed(wordLen) then start else start * 8) % 0x100_0000)
  }

  /** The target with the first bytes replaced by the data. */
  function Filled(before: seq<byte>, data: seq<byte>): seq<byte>
    requires |data| <= |before|
  {
    data + before[|data|..]
  }

  /** The target after an answer has been dealt with: only data without an error gets there. */
  function AfterAnswer(before: seq<byte>, found: Found): seq<byte>
    requires |found.data| <= |before|
  {
    if found.result == 0 then Filled(before, found.data) else before
  }

  class Client {
    const plc: Plc
    /** The negotiated length of a telegram. */
    const PDULength: int
    /** The telegram that is being built or has been received. */
    const payload: array<byte>
    var cntword: int

    ghost predicate Valid()
      reads this
    {
      plc.Valid() && payload.Length == ISO_PAYLOAD_SIZE && 0 <= cntword <= 0xFFFF
    }

    constructor (plc: Plc, pduLength: int)
      requires plc.Valid()
      ensures Valid() && this.plc == plc && PDULength == pduLength && fresh(payload)
    {
      this.plc, PDULength := plc, pduLength;
      payload := new byte[ISO_PAYLOAD_SIZE](_ => 0);
      cntword := 0;
    }

    method GetNextWord() returns (w: int)
      requires 0 <= cntword <= 0xFFFF
      modifies this
      ensures 0 <= w < 0xFFFF && cntword == w + 1 && w == if old(cntword) == 0xFFFF then 0 else old(cntword)
    {
      if cntword == 0xFFFF {
        cntword := 0;
      }
      w := cntword;
      cntword := cntword + 1;
    }

    /** Fills the header of a request and the two bytes behind it. */
    method PutHeader(parLen: int, dataLen: int, function_: byte, itemsCount: int)
      requires Valid() && 0 <= parLen <= 0xFFFF && 0 <= dataLen <= 0xFFFF
      modifies this, payload
      ensures Valid() && payload[10] == function_ && payload[11] == itemsCount % 256
      ensures Headed(payload[..], parLen, dataLen)
      // telegrams are numbered
      ensures WordAt(payload[..], 4) == cntword - 1 == if old(cntword) == 0xFFFF then 0 else old(cntword)
      ensures forall i | 12 <= i < payload.Length :: payload[i] == old(payload[i])
    {
      var sequence := GetNextWord();
      payload[0], payload[1], payload[2], payload[3] := 0x32, 0x01, 0, 0;
      payload[4], payload[5] := Hi(sequence), Lo(sequence);
      payload[6], payload[7] := Hi(parLen), Lo(parLen);
      payload[8], payload[9] := Hi(dataLen), Lo(dataLen);
      payload[10], payload[11] := function_, itemsCount % 256;
      WordStands(payload[..], 4, sequence);
      WordStands(payload[..], 6, parLen);
      WordStands(payload[..], 8, dataLen);
    }

    /** Fills the item reference of twelve bytes at `at`. */
    method PutItem(at: int, area: byte, wordLen: int, number: int, start: int, amount: int)
      requires 0 <= at && at + 12 <= payload.Length && 0 <= start
      modifies payload
      ensures RefAt(payload[..], at) == ItemRef(area, wordLen, number, start, amount)
      ensures ItemHead(payload[..], at)
      ensures forall i | 0 <= i < payload.Length && !(at <= i < at + 12) :: payload[i] == old(payload[i])
    {
      var dbNumber := if area == S7_AREA_DB then number else 0;
      var address := if ElementAddressed(wordLen) then start else start * 8;
      payload[at], payload[at + 1], payload[at + 2] := 0x12, 0x0A, 0x10;
      payload[at + 3] := wordLen % 256;
      payload[at + 4], payload[at + 5] := Hi(amount), Lo(amount);
      payload[at + 6], payload[at + 7] := Hi(dbNumber), Lo(dbNumber);
      payload[at + 8] := area;
      payload[at + 11] := address % 256;
      payload[at + 10] := address / 256 % 256;
      payload[at + 9] := address / 256 / 256 % 256;
      WordStands(payload[..], at + 4, amount);
      WordStands(payload[..], at + 6, dbNumber);
      AddressArrives(payload[..], at + 9, address);
    }

    /** Builds a read request for the items. */
    method BuildReadRequest(items: array<DataItem>, count: nat)
      requires Valid() && count <= items.Length && count <= MAX_VARS
      requires forall k | 0 <= k < count :: 0 <= items[k].start
      modifies this, payload
      ensures Valid() && IsReadOf(payload[..12 + 12 * count], items[..count])
    {
      PutHeader(2 + 12 * count, 0, PDU_FUNC_READ, count);
      ghost var header := payload[..];
      PutItems(items, count);
      ghost var req := payload[..12 + 12 * count];
      assert forall i | 0 <= i < 12 :: req[i] == header[i];
      forall k | 0 <= k < count ensures Refers(req, k, items[k]) {
        assert Refers(payload[..], k, items[k]);
      }
    }

    /** Fills the item references of a read request. */
    method PutItems(items: array<DataItem>, count: nat)
      requires Valid() && count <= items.Length && count <= MAX_VARS
      requires forall k | 0 <= k < count :: 0 <= items[k].start
      modifies payload
      ensures forall i | 0 <= i < 12 :: payload[i] == old(payload[i])
      ensures forall k | 0 <= k < count :: Refers(payload[..], k, items[k])
    {
      for c := 0 to count
        invariant forall i | 0 <= i < 12 :: payload[i] == old(payload[i])
        invariant forall k | 0 <= k < c :: Refers(payload[..], k, items[k])
      {
        ghost var before := payload[..];
        PutItem(12 + 12 * c, items[c].area, items[c].wordLen, items[c].dbNumber, items[c].start, items[c].amount);
        forall k | 0 <= k < c ensures Refers(payload[..], k, items[k]) {
          assert Refers(before, k, items[k]) && forall i | 12 + 12 * k <= i < 24 + 12 * k :: payload[i] == before[i];
        }
      }
    }

    /** Walks over the answers at `at`, stores the results and copies the data to the items. */
    method CollectAnswers(items: array<DataItem>, count: nat, at: nat, ghost found: seq<Found>,
        ghost befores: seq<seq<byte>>)
      returns (ghost nows: seq<seq<byte>>)
      requires count <= items.Length && SeparateTargets(items[..count], payload) && Holding(items[..count], befores)
      requires |found| == count && forall k | 0 <= k < count :: |found[k].data| <= |befores[k]|
      requires AllFound(payload[..], at, found)
      modifies items, Targets(items[..count])
      ensures forall k | 0 <= k < count :: items[k] == old(items[k]).(result := found[k].result)
      ensures forall k | count <= k < items.Length :: items[k] == old(items[k])
      ensures Holding(items[..count], nows)
      ensures |nows| == count && forall k | 0 <= k < count :: nows[k] == AfterAnswer(befores[k], found[k])
    {
      ghost var its, bytes := items[..count], payload[..];
      nows := befores;
      var offset := 0;
      for c := 0 to count
        invariant payload[..] == bytes && 0 <= offset && at + offset == AnswerOffset(bytes, at, c)
        invariant forall k | 0 <= k < items.Length ::
          items[k] == if k < c then old(items[k]).(result := found[k].result) else old(items[k])
        invariant |nows| == count && Holding(its, nows)
        invariant forall k | c <= k < count :: nows[k] == befores[k]
        invariant forall k | 0 <= k < c :: nows[k] == AfterAnswer(befores[k], found[k])
      {
        var result, slice;
        AnswerHere(bytes, at, found, c, at + offset);
        assert items[c].pdata == its[c].pdata;
        result, slice, nows := TakeForItem(items[c].pdata, at + offset, its, c, nows, found[c]);
        items[c] := items[c].(result := result);
        offset := offset + 4 + if slice % 2 != 0 then slice + 1 else slice;
      }
    }

    /** Clears the results; timers and counters get word lengths of their own. */
    method ClearResults(items: array<DataItem>, count: nat)
      requires count <= items.Length
      modifies items
      ensures forall k | 0 <= k < items.Length :: items[k] == if k < count then old(items[k]).Cleared()
          else old(items[k])
    {
      for c := 0 to count
        invariant forall k | 0 <= k < items.Length :: items[k] == if k < c then old(items[k]).Cleared()
            else old(items[k])
      {
        items[c] := items[c].(result := 0);
        if items[c].area == S7_AREA_CT {
          items[c] := items[c].(wordLen := S7_WL_COUNTER);
        }
        if items[c].area == S7_AREA_TM {
          items[c] := items[c].(wordLen := S7_WL_TIMER);
        }
      }
    }

    /** Sends the request for the items that stands in the buffer, and receives the response. */
    method ExchangeItems(count: nat, ghost asked: seq<DataItem>, ghost its: seq<DataItem>) returns (result: int,
        ghost found: seq<Found>)
      requires Valid() && Whole(AreCleared(asked, its)) && |its| == count && count <= MAX_VARS
      requires Whole(IsReadOf(payload[..12 + 12 * count], its))
      modifies payload, plc
      ensures Valid() && plc.memory == old(plc.memory) && plc.tick == old(plc.tick) + 1
      ensures Whole(AskedFor(old(plc.requests), plc.requests, its))
      ensures Whole(ReadOutcome(asked, plc.memory, PDULength, plc.verdicts(old(plc.tick)), result, payload[..], found))
    {
      ghost var req, before, v := payload[..12 + 12 * count], payload[..], plc.verdicts(plc.tick);
      result := Exchange(plc, payload, 12 + 12 * count, PDULength);
      found := FoundFor(its, plc.memory, v);
      RequestAdded(old(plc.requests), plc.requests, req, its);
      ItemsReady(req, before, plc.memory, PDULength, v, result, payload[..], asked, its, found);
    }

    /** The end of a read: checks the header of the response and collects the answers. */
    method TakeResponse(items: array<DataItem>, count: nat, ghost asked: seq<DataItem>, ghost found: seq<Found>,
        ghost befores: seq<seq<byte>>)
      returns (result: int, ghost nows: seq<seq<byte>>)
      requires count <= items.Length && AreCleared(asked, items[..count])
          && Whole(AnswersReady(payload[..], asked, plc.memory, found))
      requires SeparateTargets(items[..count], payload) && Holding(items[..count], befores)
      modifies items, Targets(items[..count])
      ensures Whole(Holding(items[..count], nows)) && forall k | count <= k < items.Length :: items[k] == old(items[k])
      ensures Whole(MultiRead(asked, items[..count], befores, nows, plc.memory, result))
      ensures old(WordAt(payload[..], 10)) != 0 ==> result == CpuError(old(WordAt(payload[..], 10)))
      ensures old(WordAt(payload[..], 10)) == 0 ==> result == 0 && forall k | 0 <= k < count ::
          items[k].result == found[k].result
    {
      nows := befores;
      if WordAt(payload[..], 10) != 0 {
        result := CpuError(WordAt(payload[..], 10));
      } else if payload[13] as int != count {
        result := ERR_CLI_INVALID_PLC_ANSWER;
      } else {
        FoundHaveRoom(asked, items[..count], plc.memory, found, befores);
        ghost var its := items[..count];
        nows := CollectAnswers(items, count, 14, found, befores);
        AllDelivered(asked, items[..count], plc.memory, found, befores, nows);
        result := 0;
      }
    }

    /**
     * Reads several items with one telegram. Items with result 0 hold what the PLC
     * stores; the targets of all other items are as before.
     */
    method ReadMultiVars(items: array<DataItem>, count: nat, ghost befores: seq<seq<byte>>)
      returns (result: int, ghost nows: seq<seq<byte>>)
      requires Valid() && count <= items.Length
      requires Whole(SeparateTargets(items[..count], payload)) && Whole(Holding(items[..count], befores))
      requires Whole(AllReadable(items[..count]))
      modifies this, payload, plc, items, Targets(items[..count])
      ensures Valid() && plc.memory == old(plc.memory) && old(plc.tick) <= plc.tick <= old(plc.tick) + 1
      ensures Whole(Holding(items[..count], nows))
          && forall k | (if count <= MAX_VARS then count else 0) <= k < items.Length :: items[k] == old(items[k])
      ensures if count > MAX_VARS then nows == befores
          else Whole(MultiRead(old(items[..count]), items[..count], befores, nows, plc.memory, result))
      ensures if count > MAX_VARS then result == ERR_CLI_TOO_MANY_ITEMS && plc.requests == old(plc.requests)
              else if 12 + 12 * count > PDULength then result == ERR_CLI_SIZE_OVER_PDU
                  && plc.requests == old(plc.requests)
              else Whole(AskedFor(old(plc.requests), plc.requests, items[..count]))
      // what the call returns, and the results of the items: whatever happens to the telegram
      ensures if count > MAX_VARS || 12 + 12 * count > PDULength then plc.tick == old(plc.tick)
              else plc.tick == old(plc.tick) + 1 && Tells(ItemsRead, true, plc.verdicts(old(plc.tick)), result)
                   && (result == 0 ==> plc.verdicts(old(plc.tick)).Served?)
      ensures Whole(Undisturbed(old(items[..count]), PDULength, plc.verdicts(old(plc.tick)))) ==>
                result == 0 && Whole(ResultsTold(old(items[..count]), items[..count], plc.memory,
                                                 plc.verdicts(old(plc.tick))))
    {
      nows := befores;
      if count > MAX_VARS {
        return ERR_CLI_TOO_MANY_ITEMS, nows;
      }
      ghost var asked := items[..count];
      ClearResults(items, count);
      SameTargets(asked, items[..count], payload, befores);
      BuildReadRequest(items, count);
      if 12 + 12 * count > PDULength {
        return ERR_CLI_SIZE_OVER_PDU, nows;
      }
      result, nows := FetchItems(items, count, asked, befores);
    }

    /** Sends the request that stands in the buffer, and collects the answers. */
    method FetchItems(items: array<DataItem>, count: nat, ghost asked: seq<DataItem>, ghost befores: seq<seq<byte>>)
      returns (result: int, ghost nows: seq<seq<byte>>)
      requires Valid() && count <= items.Length && count <= MAX_VARS
      requires Whole(AreCleared(asked, items[..count])) && Whole(IsReadOf(payload[..12 + 12 * count], items[..count]))
      requires Whole(SeparateTargets(items[..count], payload)) && Whole(Holding(items[..count], befores))
      modifies payload, plc, items, Targets(items[..count])
      ensures Valid() && plc.memory == old(plc.memory) && plc.tick == old(plc.tick) + 1
      ensures Whole(Holding(items[..count], nows)) && forall k | count <= k < items.Length :: items[k] == old(items[k])
      ensures Whole(MultiRead(asked, items[..count], befores, nows, plc.memory, result))
      ensures Whole(AskedFor(old(plc.requests), plc.requests, items[..count]))
      ensures Tells(ItemsRead, true, plc.verdicts(old(plc.tick)), result)
      ensures result == 0 ==> plc.verdicts(old(plc.tick)).Served?
      ensures Whole(Undisturbed(asked, PDULength, plc.verdicts(old(plc.tick)))) ==>
                result == 0 && Whole(ResultsTold(asked, items[..count], plc.memory, plc.verdicts(old(plc.tick))))
    {
      nows := befores;
      ghost var its, v := items[..count], plc.verdicts(plc.tick);
      ghost var found;
      result, found := ExchangeItems(count, asked, its);
      OutcomeTold(asked, plc.memory, PDULength, v, result, payload[..], found);
      if result == 0 {
        result, nows := TakeResponse(items, count, asked, found, befores);
        FoundTold(asked, items[..count], plc.memory, PDULength, v, found, result);
      }
      StillAskedFor(old(plc.requests), plc.requests, asked, its, items[..count]);
    }

    /** Builds a read request for one item. */
    method BuildSliceRequest(area: byte, number: int, start: int, num: int, wordLen: int, ghost it: DataItem)
      requires Valid() && Readable(it) && it == DataItem(area, wordLen, 0, number, start, num, it.pdata)
      modifies this, payload
      ensures Valid() && IsReadOf(payload[..24], [it]) && payload[14] == 0x10
    {
      PutHeader(14, 0, PDU_FUNC_READ, 1);
      PutItem(12, area, wordLen, number, start, num);
      assert RefAt(payload[..24], 12) == RefAt(payload[..], 12);
      assert Refers(payload[..24], 0, it);
    }

    /** Sends a read request for one item and receives the response. */
    method RequestSlice(area: byte, number: int, start: int, num: int, wordLen: int,
        ghost it: DataItem) returns (result: int)
      requires Valid() && Readable(it) && it == DataItem(area, wordLen, 0, number, start, num, it.pdata)
      modifies this, payload, plc
      ensures Valid() && plc.memory == old(plc.memory) && plc.tick == old(plc.tick) + 1
      ensures Whole(AskedFor(old(plc.requests), plc.requests, [it]))
      ensures result == 0 ==> Whole(AnswerReady(payload[..], it, plc.memory))
      ensures CodeArrives(it, plc.memory, PDULength, plc.verdicts(old(plc.tick)), result, payload[14])
    {
      BuildSliceRequest(area, number, start, num, wordLen, it);
      ghost var req, before := payload[..24], payload[..];
      result := Exchange(plc, payload, 24, PDULength);
      RequestAdded(old(plc.requests), plc.requests, req, [it]);
      SliceReady(req, before, plc.memory, PDULength, plc.verdicts(old(plc.tick)), result, payload[..], it);
    }

    /** Reads `num` elements with one telegram to `offset` of the target. */
    method ReadSlice(area: byte, number: int, start: int, num: int, wordLen: int, target: array<byte>, offset: nat,
        ghost it: DataItem)
      returns (result: int, size: nat)
      requires Valid() && target != payload && 18 <= PDULength
      requires Whole(Readable(it)) && it == DataItem(area, wordLen, 0, number, start, num, target)
          && offset + it.Size() <= target.Length
      modifies this, payload, plc, target
      ensures Valid() && plc.memory == old(plc.memory) && plc.tick == old(plc.tick) + 1
      ensures Whole(AskedFor(old(plc.requests), plc.requests, [it]))
      ensures if result == 0 then size == it.Size()
          && Whole(SliceRead(it, plc.memory, offset, old(target[..]), target[..]))
              else size == 0 && target[..] == old(target[..])
      ensures Whole(SliceTold(it, plc.memory, PDULength, plc.verdicts(old(plc.tick)), result))
    {
      size := 0;
      ghost var v := plc.verdicts(plc.tick);
      result := RequestSlice(area, number, start, num, wordLen, it);
      CodeTold(it, plc.memory, PDULength, v, result, payload[14],
               if result == 0 then ResultOfCode(payload[14]) else result);
      if result == 0 {
        if payload[14] == 0xFF {
          ghost var before, data := target[..], payload[18..18 + it.Size()];
          size := CopySlice(target, offset, it.Size());
          SliceCopied(it, plc.memory, offset, before, target[..], data);
        } else {
          result := CpuError(payload[14]);
        }
      }
    }

    /**
     * Reads any number of elements, with as many telegrams as needed. The first `got`
     * bytes of the target hold what the PLC stores; without an error that is everything.
     */
    method ReadArea(area: byte, number: int, start: int, amount: int, wordLen: int, target: array<byte>)
      returns (result: int, ghost got: nat)
      requires Valid() && target != payload && !ElementAddressed(wordLen)
      requires 18 + DataSizeByte(wordLen) <= PDULength && amount <= 0xFFFF
      requires amount * DataSizeByte(wordLen) <= target.Length && start + amount * DataSizeByte(wordLen) <= 0x20_0000
      modifies this, payload, plc, target
      ensures Valid() && plc.memory == old(plc.memory) && old(plc.tick) <= plc.tick
      ensures GotSoFar(area, number, start, plc.memory, old(target[..]), target[..], got)
      ensures (result == 0 ==> got == amount * DataSizeByte(wordLen))
          && (got == 0 || got <= amount * DataSizeByte(wordLen))
      ensures DataSizeByte(wordLen) == 0 ==> result == ERR_CLI_INVALID_WORD_LEN && plc.requests == old(plc.requests)
      ensures DataSizeByte(wordLen) > 0 && (number < 0 || number > 65535 || start < 0 || amount < 1) ==>
                result == ERR_CLI_INVALID_PARAMS && plc.requests == old(plc.requests)
      // every telegram asks for a part of the range whose response fits
      ensures Whole(SlicesAsked(old(plc.requests), plc.requests, area, number, wordLen, start,
          amount * DataSizeByte(wordLen), PDULength))
      ensures && ReadUndisturbed(area, number, start, amount, wordLen, plc.memory, PDULength)
              && plc.HealthyFrom(old(plc.tick)) ==>
                result == 0
      // the result tells what has become of the last telegram; a refusal is always reported as the same error
      ensures Whole(SeriesOf(AreaRead, plc.verdicts, old(plc.tick), plc.tick, result))
      ensures |plc.requests| - |old(plc.requests)| == plc.tick - old(plc.tick)
      ensures DataSizeByte(wordLen) > 0 && 0 <= number <= 65535 && 0 <= start && 1 <= amount ==>
                plc.tick > old(plc.tick)
                && (plc.verdicts(old(plc.tick)).Refused? ==> result == ERR_CLI_FUNCTION_REFUSED && got == 0)
    {
      var wordSize := DataSizeByte(wordLen);
      got := 0;
      NoTelegram(AreaRead, plc.verdicts, plc.tick);
      if wordSize == 0 {
        return ERR_CLI_INVALID_WORD_LEN, 0;
      }
      if number < 0 || number > 65535 || start < 0 || amount < 1 {
        return ERR_CLI_INVALID_PARAMS, 0;
      }
      if wordLen == S7_WL_BIT && amount > 1 {
        result := ERR_CLI_INVALID_TRANSPORT_SIZE;
        return;
      }
      result, got := ReadSlices(area, number, start, amount, wordLen, wordSize, target);
    }

    /** Reads with as many telegrams as needed. */
    method ReadSlices(area: byte, number: int, start: int, amount: nat, wordLen: int, wordSize: int,
                      target: array<byte>)
      returns (result: int, ghost got: nat)
      requires Valid() && target != payload && !ElementAddressed(wordLen) && wordSize == DataSizeByte(wordLen) > 0
      requires 18 + wordSize <= PDULength && 1 <= amount <= 0xFFFF && 0 <= number <= 0xFFFF && 0 <= start
      requires amount * wordSize <= target.Length && start + amount * wordSize <= 0x20_0000
      modifies this, payload, plc, target
      ensures Valid() && plc.memory == old(plc.memory) && old(plc.tick) < plc.tick
      ensures Whole(GotSoFar(area, number, start, plc.memory, old(target[..]), target[..], got))
      ensures (result == 0 ==> got == amount * wordSize) && got <= amount * wordSize
      ensures Whole(SlicesAsked(old(plc.requests), plc.requests, area, number, wordLen, start, amount * wordSize,
                                PDULength))
      ensures && ReadUndisturbed(area, number, start, amount, wordLen, plc.memory, PDULength)
              && plc.HealthyFrom(old(plc.tick)) ==>
                result == 0
      ensures Whole(SeriesOf(AreaRead, plc.verdicts, old(plc.tick), plc.tick, result))
      ensures |plc.requests| - |old(plc.requests)| == plc.tick - old(plc.tick)
      ensures plc.verdicts(old(plc.tick)).Refused? ==> result == ERR_CLI_FUNCTION_REFUSED && got == 0
    {
      got := 0;
      NoTelegram(AreaRead, plc.verdicts, plc.tick);
      ghost var original, total := target[..], amount * wordSize;
      ghost var undisturbed := ReadUndisturbed(area, number, start, amount, wordLen, plc.memory, PDULength)
          && plc.HealthyFrom(plc.tick);
      var maxElements := (PDULength - 18) / wordSize;
      var totElements, from, offset := amount, start, 0;
      result := 0;
      while totElements > 0 && result == 0
        invariant Valid() && plc.memory == old(plc.memory) && old(plc.tick) <= plc.tick && 0 <= totElements <= amount
        invariant Whole(GotSoFar(area, number, start, plc.memory, original, target[..], got))
        invariant got <= total
        invariant result == 0 ==> Whole(Reading(start, amount, wordSize, totElements, offset, from, got))
        invariant Whole(SlicesAsked(old(plc.requests), plc.requests, area, number, wordLen, start, total, PDULength))
        invariant undisturbed ==> result == 0
        invariant if totElements == amount then result == 0 && plc.tick == old(plc.tick) else plc.tick > old(plc.tick)
        invariant |plc.requests| - |old(plc.requests)| == plc.tick - old(plc.tick)
        invariant Whole(SeriesOf(AreaRead, plc.verdicts, old(plc.tick), plc.tick, result))
        invariant result != 0 && plc.tick == old(plc.tick) + 1 ==> got == 0
        decreases totElements
      {
        var elements := NextElements(totElements, maxElements);
        NextCount(amount, totElements, maxElements, wordSize, PDULength - 18);
        result, offset, got := ReadNext(area, number, start, amount, wordLen, wordSize, elements, target, totElements,
                                        offset, from, got, original, old(plc.requests), old(plc.tick));
        totElements, from := totElements - elements, from + elements * wordSize;
      }
      FirstRefused(plc.verdicts, old(plc.tick), plc.tick, result);
    }

    /** The number of elements in the next telegram: what is left, cut off to 16 bits, but no more than fit. */
    method NextElements(totElements: nat, maxElements: nat) returns (numElements: nat)
      ensures numElements == SliceElements(totElements, maxElements)
    {
      numElements := totElements % 0x1_0000;
      if numElements > maxElements {
        numElements := maxElements;
      }
    }

    /** One round of the loop: reads the next elements to `offset` of the target. */
    method ReadNext(area: byte, number: int, start: int, amount: nat, wordLen: int, wordSize: int, elements: nat,
                    target: array<byte>, ghost left: int, offset: int, from: int, ghost got: nat,
                    ghost original: seq<byte>, ghost first: seq<seq<byte>>, ghost begin: nat)
      returns (result: int, nextOffset: int, ghost nextGot: nat)
      requires Valid() && target != payload && !ElementAddressed(wordLen) && wordSize == DataSizeByte(wordLen) > 0
      requires 18 + wordSize <= PDULength && 0 <= number <= 0xFFFF && 0 <= start && left > 0
      requires amount * wordSize <= target.Length && start + amount * wordSize <= 0x20_0000
      requires Whole(Reading(start, amount, wordSize, left, offset, from, got))
      requires elements == SliceElements(left, (PDULength - 18) / wordSize)
      requires Whole(GotSoFar(area, number, start, plc.memory, original, target[..], got))
      requires Whole(SlicesAsked(first, plc.requests, area, number, wordLen, start, amount * wordSize, PDULength))
      requires begin <= plc.tick && Whole(SeriesOf(AreaRead, plc.verdicts, begin, plc.tick, 0))
      modifies this, payload, plc, target
      ensures Valid() && plc.memory == old(plc.memory) && plc.tick == old(plc.tick) + 1
      ensures |plc.requests| == old(|plc.requests|) + 1
      ensures Whole(GotSoFar(area, number, start, plc.memory, original, target[..], nextGot))
      ensures Whole(SlicesAsked(first, plc.requests, area, number, wordLen, start, amount * wordSize, PDULength))
      ensures if result == 0 then Whole(Reading(start, amount, wordSize, left - elements, nextOffset,
                                                from + elements * wordSize, nextGot))
              else nextGot == got
      ensures nextGot <= amount * wordSize
      ensures && ReadUndisturbed(area, number, start, amount, wordLen, plc.memory, PDULength)
              && Healthy(plc.verdicts(old(plc.tick))) ==>
                result == 0
      ensures Whole(SeriesOf(AreaRead, plc.verdicts, begin, plc.tick, result))
    {
      ghost var it := DataItem(area, wordLen, 0, number, from, elements, target);
      ghost var before, asked := target[..], plc.requests;
      assert Whole(Reading(start, amount, wordSize, left, offset, from, got)) && it.amount == elements;
      ReadStarts(plc.memory, plc.verdicts(plc.tick), start, amount, wordSize, PDULength - 18, left, offset, from, got,
                 it);
      var size;
      result, size := ReadSlice(area, number, from, elements, wordLen, target, offset, it);
      OneMoreTelegram(plc.verdicts, begin, old(plc.tick), AreaRead, result);
      MoreAsked(first, asked, plc.requests, it, start, amount * wordSize, PDULength);
      assert |plc.requests| == |asked| + 1 by {
        assert AskedFor(asked, plc.requests, [it]);
      }
      assert it.Size() == elements * wordSize;
      nextOffset, nextGot := offset + size, got;
      if result == 0 {
        ReadGoesOn(plc.memory, start, amount, wordSize, PDULength - 18, left, offset, from, got, it, original, before,
                   target[..]);
        nextGot := got + it.Size();
      }
    }

    /**
     * The loop of ReadArea, cut off after a number of rounds, for any amount. If nothing goes
     * wrong, more than 65535 elements never run out, however many rounds there are.
     */
    method ReadRounds(area: byte, number: int, start: int, amount: nat, wordLen: int, target: array<byte>, rounds: nat)
      returns (result: int, totElements: int, ghost got: nat)
      requires Valid() && target != payload && !ElementAddressed(wordLen) && DataSizeByte(wordLen) > 0
      requires 18 + DataSizeByte(wordLen) <= PDULength && 0 <= number <= 0xFFFF && 0 <= start && 1 <= amount
      requires amount * DataSizeByte(wordLen) <= target.Length && start + amount * DataSizeByte(wordLen) <= 0x20_0000
      modifies this, payload, plc, target
      ensures Valid() && plc.memory == old(plc.memory) && plc.tick <= old(plc.tick) + rounds
      ensures Whole(GotSoFar(area, number, start, plc.memory, old(target[..]), target[..], got))
      ensures result == 0 ==> got == (amount - totElements) * DataSizeByte(wordLen)
      ensures result == 0 ==> totElements == LeftAfter(amount, (PDULength - 18) / DataSizeByte(wordLen), rounds)
      ensures && ReadUndisturbed(area, number, start, amount, wordLen, plc.memory, PDULength)
              && plc.HealthyFrom(old(plc.tick)) ==>
                result == 0 && (amount > 0xFFFF ==> totElements > 0xFFFF && plc.tick == old(plc.tick) + rounds)
    {
      var wordSize := DataSizeByte(wordLen);
      ghost var original := target[..];
      ghost var undisturbed := ReadUndisturbed(area, number, start, amount, wordLen, plc.memory, PDULength)
          && plc.HealthyFrom(plc.tick);
      var maxElements := (PDULength - 18) / wordSize;
      var from, offset := start, 0;
      ghost var atEnd := LeftAfter(amount, maxElements, rounds);
      result, totElements, got := 0, amount, 0;
      for k := 0 to rounds
        invariant Valid() && plc.memory == old(plc.memory) && 0 <= totElements <= amount
        invariant old(plc.tick) <= plc.tick <= old(plc.tick) + k
        invariant Whole(GotSoFar(area, number, start, plc.memory, original, target[..], got))
        invariant result == 0 ==> Whole(Reading(start, amount, wordSize, totElements, offset, from, got))
        invariant result == 0 ==> Whole(LeftAfter(totElements, maxElements, rounds - k) == atEnd)
        invariant undisturbed ==> result == 0
        invariant undisturbed && amount > 0xFFFF ==> plc.tick == old(plc.tick) + k
      {
        if result == 0 {
          OneRound(totElements, maxElements, rounds - k, atEnd);
          NeverOut(start, amount, wordSize, totElements, offset, from, got);
        }
        if totElements > 0 && result == 0 {
          var elements := NextElements(totElements, maxElements);
          NextCount(amount, totElements, maxElements, wordSize, PDULength - 18);
          NoTelegram(AreaRead, plc.verdicts, plc.tick);
          NoneAsked(plc.requests, area, number, wordLen, start, amount * wordSize, PDULength);
          result, offset, got := ReadNext(area, number, start, amount, wordLen, wordSize, elements, target, totElements,
                                          offset, from, got, original, plc.requests, plc.tick);
          totElements, from := totElements - elements, from + elements * wordSize;
        }
      }
      if result == 0 {
        NeverOut(start, amount, wordSize, totElements, offset, from, got);
      }
    }

    /** Copies the data of a single answer to `offset` of the target. */
    method CopySlice(target: array<byte>, offset: nat, ghost length: nat) returns (size: nat)
      requires target != payload && payload.Length >= 18 && payload[14] == 0xFF
      requires AnswerFits(payload[..], 14) && SliceAt(payload[..], 14) == length && offset + length <= target.Length
      modifies target
      ensures size == length && target[offset..offset + size] == old(payload[18..18 + size])
      ensures target[..offset] == old(target[..offset]) && target[offset + size..] == old(target[offset + size..])
    {
      size := WordAt(payload[..], 16);
      if !CountsBytes(payload[15]) {
        size := size / 8;
      }
      forall i | 0 <= i < size {
        target[offset + i] := payload[18 + i];
      }
    }

    /** Builds a request that writes `num` elements from `offset` of the source. */
    method BuildWriteRequest(area: byte, number: int, start: int, num: int, wordLen: int, source: seq<byte>,
        offset: nat, ghost it: DataItem)
      requires Valid() && Readable(it) && it == DataItem(area, wordLen, 0, number, start, num, it.pdata)
      requires offset + it.Size() <= |source| && 28 + it.Size() <= payload.Length
      modifies this, payload
      ensures Valid() && IsWriteOf(payload[..28 + it.Size()], it, source[offset..offset + it.Size()])
    {
      var size := num * DataSizeByte(wordLen);
      PutHeader(14, size + 4, PDU_FUNC_WRITE, 1);
      PutItem(12, area, wordLen, number, start, num);
      ghost var before := payload[..];
      PutData(WriteTransport(wordLen), size, source, offset);
      HeadStays(before, payload[..28 + size]);
    }

    /** Fills the data part of a write request with one item. */
    method PutData(transport: byte, size: nat, source: seq<byte>, offset: nat)
      requires offset + size <= |source| && 28 + size <= payload.Length && size < 0x2000
      modifies payload
      ensures forall i | 0 <= i < 24 :: payload[i] == old(payload[i])
      ensures payload[24] == 0 && payload[25] == transport
      ensures WriteData(payload[..28 + size]) == source[offset..offset + size]
    {
      payload[24], payload[25] := 0, transport;
      var length := if CountsBytes(transport) then size else size * 8;
      payload[26], payload[27] := Hi(length), Lo(length);
      forall i | 0 <= i < size {
        payload[28 + i] := source[offset + i];
      }
      ghost var req := payload[..28 + size];
      assert req[25] == transport;
      WordStands(req, 26, length);
      WriteDataIs(req, length, source[offset..offset + size]);
    }

    /** Sends the write request that stands in the buffer, and receives the response. */
    method ExchangeWrite(size: nat, ghost it: DataItem, ghost data: seq<byte>) returns (result: int)
      requires Valid() && Readable(it) && size == |data| && 28 + size <= payload.Length
          && IsWriteOf(payload[..28 + size], it, data)
      modifies payload, plc
      ensures Valid() && plc.tick == old(plc.tick) + 1
      ensures plc.requests == old(plc.requests) + [old(payload[..28 + size])]
      ensures WriteAnswered(it, data, old(plc.memory), plc.memory, result, payload[..])
      ensures AnswerTold(Present(it, old(plc.memory)) && data != [], plc.verdicts(old(plc.tick)), result, payload[..])
    {
      ghost var req, before, v := payload[..28 + size], payload[..], plc.verdicts(plc.tick);
      result := Exchange(plc, payload, 28 + size, PDULength);
      WriteReady(req, before, old(plc.memory), PDULength, v, result, payload[..], it, data);
    }

    /** Writes `num` elements from `offset` of the source with one telegram. */
    method WriteSlice(area: byte, number: int, start: int, num: int, wordLen: int, source: seq<byte>, offset: nat,
        first: bool, ghost it: DataItem)
      returns (result: int, ghost written: bool)
      requires Valid() && Whole(Readable(it)) && it == DataItem(area, wordLen, 0, number, start, num, it.pdata)
          && num >= 0
      requires offset + it.Size() <= |source| && 28 + it.Size() <= PDULength <= payload.Length
      modifies this, payload, plc
      ensures Valid() && plc.tick == old(plc.tick) + 1 && |plc.requests| == |old(plc.requests)| + 1
      ensures Whole(WritesOnly(old(plc.requests), plc.requests, area, wordLen, PDULength))
      ensures if written then Whole(Wrote(old(plc.memory), area, number, start, source[offset..offset + it.Size()],
          plc.memory))
              else plc.memory == old(plc.memory)
      ensures (result == 0 ==> written) && (result >= 0x10_0000 ==> !written)
          && (result == ERR_CLI_PARTIAL_DATA_WRITTEN ==> !first)
      ensures num == 0 ==> !written
      ensures WriteTold(Present(it, old(plc.memory)) && num > 0, first, plc.verdicts(old(plc.tick)), result)
    {
      BuildWriteRequest(area, number, start, num, wordLen, source, offset, it);
      ghost var data := source[offset..offset + it.Size()];
      result := ExchangeWrite(num * DataSizeByte(wordLen), it, data);
      written := result != 0 && plc.memory != old(plc.memory);
      if result == 0 {
        result := CpuError(WordAt(payload[..], 10));
        if result == 0 {
          written := payload[14] == 0xFF;
          if payload[14] != 0xFF {
            result := if first then CpuError(payload[14]) else ERR_CLI_PARTIAL_DATA_WRITTEN;
          }
        }
      }
    }

    /**
     * Writes any number of elements, with as many telegrams as needed. At every return
     * the PLC has stored exactly the first `put` bytes of the source; `refused` says that
     * the last telegram has been answered with an error.
     */
    method WriteArea(area: byte, number: int, start: int, amount: int, wordLen: int, source: seq<byte>)
      returns (result: int, ghost put: nat)
      requires Valid() && !ElementAddressed(wordLen)
      requires 28 + DataSizeByte(wordLen) <= PDULength <= ISO_PAYLOAD_SIZE
      requires amount * DataSizeByte(wordLen) <= |source| && start + amount * DataSizeByte(wordLen) <= 0x20_0000
      modifies this, payload, plc
      ensures Valid() && old(plc.tick) <= plc.tick
      ensures put <= |source| && Wrote(old(plc.memory), area, number, start, source[..put], plc.memory)
      ensures result == 0 ==> put == amount * DataSizeByte(wordLen) && amount <= 0xFFFF
      // what has been stored ends with a telegram, and is no more than a counter of 16 bits counts
      ensures DataSizeByte(wordLen) > 0 && 1 <= amount ==>
                IsBoundary(put, (PDULength - 28) / DataSizeByte(wordLen) * DataSizeByte(wordLen),
                           amount % 0x1_0000 * DataSizeByte(wordLen))
      // an error that the PLC tells means that something is missing, and after one telegram that nothing is stored
      ensures result == ERR_CLI_PARTIAL_DATA_WRITTEN ==> 0 < put < amount * DataSizeByte(wordLen)
      ensures result >= 0x10_0000 && plc.tick <= old(plc.tick) + 1 ==> put == 0
      // what becomes of a write if nothing goes wrong
      ensures && ReadUndisturbed(area, number, start, amount, wordLen, old(plc.memory), PDULength)
              && plc.HealthyFrom(old(plc.tick)) ==>
                result == WriteResult(amount) && put == amount % 0x1_0000 * DataSizeByte(wordLen)
      // the result tells what has become of the last telegram, and every telegram keeps the limit
      ensures Whole(SeriesOf(AreaWrite, plc.verdicts, old(plc.tick), plc.tick, result))
      ensures WritesOnly(old(plc.requests), plc.requests, area, wordLen, PDULength)
          && |plc.requests| - |old(plc.requests)| == plc.tick - old(plc.tick)
      ensures DataSizeByte(wordLen) == 0 ==> result == ERR_CLI_INVALID_WORD_LEN && plc.tick == old(plc.tick)
      ensures DataSizeByte(wordLen) > 0 ==>
                if number < 0 || number > 65535 || start < 0 || amount < 1
                then result == ERR_CLI_INVALID_PARAMS && plc.tick == old(plc.tick)
                else plc.tick > old(plc.tick)
    {
      var wordSize := DataSizeByte(wordLen);
      put := 0;
      NoTelegram(AreaWrite, plc.verdicts, plc.tick);
      if wordSize == 0 {
        return ERR_CLI_INVALID_WORD_LEN, 0;
      }
      if number < 0 || number > 65535 || start < 0 || amount < 1 {
        return ERR_CLI_INVALID_PARAMS, 0;
      }
      if wordLen == S7_WL_BIT && amount > 1 {
        result := ERR_CLI_INVALID_TRANSPORT_SIZE;
        return;
      }
      result, put := WriteSlices(area, number, start, amount, wordLen, wordSize, source);
    }

    /** Writes with as many telegrams as needed. */
    method WriteSlices(area: byte, number: int, start: int, amount: nat, wordLen: int, wordSize: int, source: seq<byte>)
      returns (result: int, ghost put: nat)
      requires Valid() && !ElementAddressed(wordLen) && wordSize == DataSizeByte(wordLen) > 0
      requires 28 + wordSize <= PDULength <= ISO_PAYLOAD_SIZE && 1 <= amount && 0 <= number <= 0xFFFF && 0 <= start
      requires amount * wordSize <= |source| && start + amount * wordSize <= 0x20_0000
      modifies this, payload, plc
      ensures Valid() && old(plc.tick) <= plc.tick
      ensures Whole(WrittenSoFar(old(plc.memory), plc.memory, area, number, start, source, amount, wordSize,
                                 (PDULength - 28) / wordSize, put))
      ensures result == 0 ==> put == amount * wordSize && amount <= 0xFFFF
      ensures result == ERR_CLI_PARTIAL_DATA_WRITTEN ==> 0 < put < amount * wordSize
      ensures result >= 0x10_0000 && plc.tick <= old(plc.tick) + 1 ==> put == 0
      ensures && ReadUndisturbed(area, number, start, amount, wordLen, old(plc.memory), PDULength)
              && plc.HealthyFrom(old(plc.tick)) ==>
                result == WriteResult(amount) && put == amount % 0x1_0000 * wordSize
      ensures plc.tick > old(plc.tick)
      ensures Whole(SeriesOf(AreaWrite, plc.verdicts, old(plc.tick), plc.tick, result))
      ensures Whole(WritesOnly(old(plc.requests), plc.requests, area, wordLen, PDULength))
          && |plc.requests| - |old(plc.requests)| == plc.tick - old(plc.tick)
    {
      var first := true;
      put := 0;
      ghost var original := plc.memory;
      ghost var undisturbed := ReadUndisturbed(area, number, start, amount, wordLen, plc.memory, PDULength)
          && plc.HealthyFrom(plc.tick);
      var maxElements := (PDULength - 28) / wordSize;
      var totElements, to, offset := amount, start, 0;
      NoTelegram(AreaWrite, plc.verdicts, plc.tick);
      result := 0;
      while totElements > 0 && result == 0
        invariant Valid() && old(plc.tick) <= plc.tick && 0 <= totElements <= amount
        invariant Whole(WrittenSoFar(original, plc.memory, area, number, start, source, amount, wordSize, maxElements,
                                     put))
        invariant result == 0 ==> Whole(Writing(start, amount, wordSize, totElements, offset, to, first, put))
        invariant undisturbed ==> result == 0 || Whole(EndsEarly(amount, wordSize, result, put))
        invariant put > 0 || result != 0 || totElements < amount ==> plc.tick > old(plc.tick)
        invariant first <==> plc.tick == old(plc.tick)
        invariant Whole(WritesOnly(old(plc.requests), plc.requests, area, wordLen, PDULength))
        invariant |plc.requests| - |old(plc.requests)| == plc.tick - old(plc.tick)
        invariant Whole(SeriesOf(AreaWrite, plc.verdicts, old(plc.tick), plc.tick, result))
        invariant result >= 0x10_0000 && put > 0 ==> plc.tick > old(plc.tick) + 1
        invariant result == ERR_CLI_PARTIAL_DATA_WRITTEN ==> 0 < put < amount * wordSize
        decreases totElements, result == 0
      {
        ghost var at, asked := plc.tick, plc.requests;
        var elements := NextElements(totElements, maxElements);
        NextCount(amount, totElements, maxElements, wordSize, PDULength - 28);
        result, put := WriteNext(area, number, start, amount, wordLen, wordSize, elements, source, totElements, offset,
                                 to, first, put, original);
        OneMoreTelegram(plc.verdicts, old(plc.tick), at, AreaWrite, result);
        MoreWritten(old(plc.requests), asked, plc.requests, area, wordLen, PDULength);
        offset, first := offset + elements * wordSize, false;
        totElements, to := totElements - elements, to + elements * wordSize;
      }
    }

    /** One round of the loop: writes the next elements from `offset` of the source. */
    method WriteNext(area: byte, number: int, start: int, amount: nat, wordLen: int, wordSize: int, elements: nat,
                     source: seq<byte>, ghost left: int, offset: int, to: int, first: bool, ghost put: nat,
                     ghost original: Memory)
      returns (result: int, ghost nextPut: nat)
      requires Valid() && !ElementAddressed(wordLen) && wordSize == DataSizeByte(wordLen) > 0
      requires 28 + wordSize <= PDULength <= ISO_PAYLOAD_SIZE && 0 <= number <= 0xFFFF && 0 <= start && left > 0
      requires amount * wordSize <= |source| && start + amount * wordSize <= 0x20_0000
      requires elements == SliceElements(left, (PDULength - 28) / wordSize)
      requires Whole(Writing(start, amount, wordSize, left, offset, to, first, put))
      requires Whole(WrittenSoFar(original, plc.memory, area, number, start, source, amount, wordSize,
                                  (PDULength - 28) / wordSize, put))
      modifies this, payload, plc
      ensures Valid() && plc.tick == old(plc.tick) + 1 && |plc.requests| == |old(plc.requests)| + 1
      ensures Whole(WritesOnly(old(plc.requests), plc.requests, area, wordLen, PDULength))
      ensures Whole(WrittenSoFar(original, plc.memory, area, number, start, source, amount, wordSize,
                                 (PDULength - 28) / wordSize, nextPut))
      ensures result == 0 ==> elements > 0 && Whole(Writing(start, amount, wordSize, left - elements,
                                                            offset + elements * wordSize, to + elements * wordSize,
                                                            false, nextPut))
      ensures result >= 0x10_0000 ==> nextPut == put
      ensures result == ERR_CLI_PARTIAL_DATA_WRITTEN ==> 0 < nextPut < amount * wordSize
      ensures && ReadUndisturbed(area, number, start, amount, wordLen, original, PDULength)
              && Healthy(plc.verdicts(old(plc.tick))) ==>
                result == 0 || Whole(EndsEarly(amount, wordSize, result, nextPut))
      ensures Whole(Tells(AreaWrite, first, plc.verdicts(old(plc.tick)), result))
      ensures result == 0 ==> GoesOn(AreaWrite, plc.verdicts(old(plc.tick)))
    {
      ghost var target := new byte[amount * wordSize](_ => 0);
      ghost var it := DataItem(area, wordLen, 0, number, to, elements, target);
      ghost var before := plc.memory;
      WriteStarts(original, before, source, start, amount, wordSize, PDULength - 28, left, offset, to, first, put, it);
      ghost var written;
      result, written := WriteSlice(area, number, to, elements, wordLen, source, offset, first, it);
      WriteGoesOn(original, before, plc.memory, source, start, amount, wordSize, PDULength - 28, left, offset, to,
                  first, put, it, written);
      nextPut := if written then put + it.Size() else put;
    }

    /**
     * Writes one bit, whose address counts bits: the loop of WriteArea makes a single round
     * for it. The PLC has stored the bit and nothing else, or nothing at all.
     */
    method WriteBit(area: byte, number: int, start: int, value: byte) returns (result: int, ghost written: bool)
      requires Valid() && 29 <= PDULength <= ISO_PAYLOAD_SIZE && start < 0x100_0000
      modifies this, payload, plc
      ensures Valid() && old(plc.tick) <= plc.tick
      ensures if written then WroteBit(old(plc.memory), area, number, start, value != 0, plc.memory)
              else plc.memory == old(plc.memory)
      ensures (result == 0 ==> written) && (result >= 0x10_0000 ==> !written)
      ensures number < 0 || number > 65535 || start < 0 ==>
                result == ERR_CLI_INVALID_PARAMS && plc.requests == old(plc.requests) && plc.tick == old(plc.tick)
      ensures 0 <= number <= 65535 && 0 <= start ==>
                && plc.tick == old(plc.tick) + 1
                && WriteTold(BitPresent(area, number, start, old(plc.memory)), true, plc.verdicts(old(plc.tick)),
                             result)
                && BitWriteSent(old(plc.requests), plc.requests, area, number, start, value)
    {
      if number < 0 || number > 65535 || start < 0 {
        return ERR_CLI_INVALID_PARAMS, false;
      }
      BuildBitRequest(area, number, start, value);
      result := ExchangeBit(area, number, start, value);
      written := result != 0 && plc.memory != old(plc.memory);
      if result == 0 {
        result := CpuError(WordAt(payload[..], 10));
        if result == 0 {
          written := payload[14] == 0xFF;
          if payload[14] != 0xFF {
            result := CpuError(payload[14]);
          }
        }
      }
    }

    method BuildBitRequest(area: byte, number: int, start: int, value: byte)
      requires Valid() && 0 <= number <= 0xFFFF && 0 <= start < 0x100_0000
      modifies this, payload
      ensures Valid() && IsBitWriteOf(payload[..29], area, number, start, value)
    {
      PutHeader(14, 5, PDU_FUNC_WRITE, 1);
      PutItem(12, area, S7_WL_BIT, number, start, 1);
      ghost var before := payload[..];
      PutData(WriteTransport(S7_WL_BIT), 1, [value], 0);
      HeadStays(before, payload[..29]);
    }

    method ExchangeBit(area: byte, number: int, start: int, value: byte) returns (result: int)
      requires Valid() && 0 <= number <= 0xFFFF && 0 <= start < 0x100_0000
          && IsBitWriteOf(payload[..29], area, number, start, value)
      modifies payload, plc
      ensures Valid() && plc.tick == old(plc.tick) + 1
      ensures plc.requests == old(plc.requests) + [old(payload[..29])]
      ensures BitAnswered(area, number, start, value, old(plc.memory), plc.memory, result, payload[..])
      ensures AnswerTold(BitPresent(area, number, start, old(plc.memory)), plc.verdicts(old(plc.tick)), result,
                         payload[..])
    {
      ghost var req, before, v := payload[..29], payload[..], plc.verdicts(plc.tick);
      result := Exchange(plc, payload, 29, PDULength);
      BitWriteReady(req, before, old(plc.memory), PDULength, v, result, payload[..], area, number, start, value);
    }

    /** Takes the answer for one of the items; the targets of the others stay as they are. */
    method TakeForItem(target: array<byte>, p: nat, ghost its: seq<DataItem>, ghost c: nat,
        ghost befores: seq<seq<byte>>, ghost found: Found)
      returns (result: int, slice: nat, ghost nows: seq<seq<byte>>)
      requires c < |its| && its[c].pdata == target && SeparateTargets(its, payload) && Holding(its, befores)
      requires AnswerFits(payload[..], p) && FoundAt(payload[..], p) == found && |found.data| <= |befores[c]|
      modifies target
      ensures slice == |found.data| == SliceAt(old(payload[..]), p) && result == found.result
          && payload[..] == old(payload[..])
      ensures nows == befores[c := AfterAnswer(befores[c], found)] && Holding(its, nows)
    {
      assert target[..] == befores[c];
      result, slice := TakeAnswer(target, p);
      nows := befores[c := AfterAnswer(befores[c], found)];
      forall k | 0 <= k < |its| ensures its[k].pdata[..] == nows[k] {
        assert k == c || its[k].pdata != target;
      }
    }

    /** Takes one answer: its result and, for success, its data. */
    method TakeAnswer(target: array<byte>, p: nat) returns (result: int, slice: nat)
      requires AnswerFits(payload[..], p) && SliceAt(payload[..], p) <= target.Length && target != payload
      modifies target
      ensures slice == SliceAt(old(payload[..]), p) && result == FoundAt(old(payload[..]), p).result
      ensures target[..] == AfterAnswer(old(target[..]), FoundAt(old(payload[..]), p))
    {
      slice := 0;
      if payload[p] == 0xFF {
        slice := WordAt(payload[..], p + 2);
        if !CountsBytes(payload[p + 1]) {
          slice := slice / 8;
        }
        ghost var before, found := target[..], FoundAt(payload[..], p);
        forall i | 0 <= i < slice {
          target[i] := payload[p + 4 + i];
        }
        assert target[..] == Filled(before, found.data);
        result := 0;
      } else {
        result := CpuError(payload[p]);
        assert Filled(target[..], []) == target[..];
      }
    }
  }

  /** One more telegram has been sent, of the given length. */
  ghost predicate OneMore(before: seq<seq<byte>>, now: seq<seq<byte>>, length: nat) {
    |now| == |before| + 1 && now[..|before|] == before && |now[|before|]| == length
  }

  /** One more telegram has been sent: a read request for the items. */
  ghost predicate AskedFor(before: seq<seq<byte>>, now: seq<seq<byte>>, its: seq<DataItem>) {
    OneMore(before, now, 12 + 12 * |its|) && IsReadOf(now[|before|], its)
  }

  lemma RequestAdded(before: seq<seq<byte>>, now: seq<seq<byte>>, req: seq<byte>, its: seq<DataItem>)
    requires now == before + [req] && Whole(IsReadOf(req, its))
    ensures Whole(AskedFor(before, now, its))
  {
    assert now[|before|] == req;
  }

  /** A request for cleared items is a request for them whatever their results. */
  lemma StillAskedFor(before: seq<seq<byte>>, now: seq<seq<byte>>, asked: seq<DataItem>, cleared: seq<DataItem>,
      its: seq<DataItem>)
    requires Whole(AskedFor(before, now, cleared)) && Whole(AreCleared(asked, cleared)) && |its| == |asked|
    requires forall k | 0 <= k < |its| :: its[k] == asked[k].Cleared().(result := its[k].result)
    ensures Whole(AskedFor(before, now, its))
  {
    forall k | 0 <= k < |its| ensures Refers(now[|before|], k, its[k]) {
      assert Refers(now[|before|], k, cleared[k]);
    }
  }

  ghost function AnswerTo(it: DataItem, memory: Memory, v: Verdict, k: nat): Answer
    requires v.Served?
  {
    ReadAnswer(it.ToRef(), memory, v.codes(k), v.octets(k))
  }

  /** What the walk will find for the items. */
  ghost function FoundFor(its: seq<DataItem>, memory: Memory, v: Verdict): (found: seq<Found>)
    ensures |found| == |its| && forall k | 0 <= k < |its| && v.Served? ::
        found[k] == FoundOf(AnswerTo(its[k], memory, v, k))
  {
    seq(|its|, k requires 0 <= k < |its| => if v.Served? then FoundOf(AnswerTo(its[k], memory, v, k)) else Found(0, []))
  }

  /** The target of the item after a read: for result 0 it starts with what the PLC stores. */
  ghost predicate Delivered(it: DataItem, before: seq<byte>, now: seq<byte>, memory: Memory) {
    if it.result != 0 then now == before else
      && |now| == |before| && 0 <= it.Size() <= |now| && it.area as int in KnownAreas()
      && Holds(memory, KnownAreas()[it.area as int], it.dbNumber, it.start, now[..it.Size()])
      && now[it.Size()..] == before[it.Size()..]
  }

  /** What has become of the items of a multi-variable read. */
  ghost predicate MultiRead(asked: seq<DataItem>, its: seq<DataItem>, befores: seq<seq<byte>>, nows: seq<seq<byte>>,
      memory: Memory, result: int) {
    && |its| == |asked| == |befores| == |nows|
        && (forall k | 0 <= k < |its| :: its[k] == asked[k].Cleared().(result := its[k].result))
    && if result == 0 then forall k | 0 <= k < |its| :: Delivered(its[k], befores[k], nows[k], memory)
        else nows == befores
  }

  /** The return code of an item: the one that the PLC chooses, unless it chooses success and has not got the range. */
  ghost function CodeOf(present: bool, code: byte): byte {
    if code == 0xFF && !present then 0x05 else code
  }

  /** What the client makes of a return code. */
  ghost function ResultOfCode(code: byte): int {
    if code == 0xFF then 0 else CpuError(code)
  }

  /** Every item has the result that its return code means. */
  ghost predicate ResultsTold(asked: seq<DataItem>, its: seq<DataItem>, memory: Memory, v: Verdict) {
    v.Served? && |its| == |asked| && forall k | 0 <= k < |its| ::
        its[k].result == ResultOfCode(CodeOf(Present(asked[k], memory), v.codes(k)))
  }

  /** The operations of the client that send telegrams. */
  datatype Operation = ItemsRead | AreaRead | AreaWrite

  /** What the operation reports about its last telegram, if that has failed as a whole. */
  ghost predicate Tells(op: Operation, first: bool, v: Verdict, result: int) {
    match v
    case Lost(isoError, _) => result == isoError
    case Refused(error) => result == if op.AreaRead? then ERR_CLI_FUNCTION_REFUSED else CpuError(error)
    case Served(codes, _) =>
      op.ItemsRead? || codes(0) == 0xFF
      || result == if op.AreaWrite? && !first then ERR_CLI_PARTIAL_DATA_WRITTEN else CpuError(codes(0))
  }

  /** After this telegram, further ones may follow. */
  ghost predicate GoesOn(op: Operation, v: Verdict) {
    v.Served? && (op.ItemsRead? || v.codes(0) == 0xFF)
  }

  ghost predicate AllGoOn(verdicts: nat -> Verdict, from: nat, ops: seq<Operation>) {
    forall k {:trigger ops[k]} | 0 <= k < |ops| :: GoesOn(ops[k], verdicts(from + k))
  }

  /**
   * A series of telegrams that starts with the one at `from`: none follows one that has failed,
   * and the result tells what has become of the last one.
   */
  ghost predicate Series(verdicts: nat -> Verdict, from: nat, ops: seq<Operation>, result: int) {
    && (ops != [] ==>
          var last := |ops| - 1;
          && AllGoOn(verdicts, from, ops[..last])
          && Tells(ops[last], last == 0, verdicts(from + last), result))
    && (result == 0 ==> AllGoOn(verdicts, from, ops))
  }

  ghost function Times(op: Operation, n: nat): seq<Operation> {
    seq(n, _ => op)
  }

  /** The telegrams from `from` to `to` are such a series, all for the same operation. */
  ghost predicate SeriesOf(op: Operation, verdicts: nat -> Verdict, from: nat, to: nat, result: int) {
    from <= to && Series(verdicts, from, Times(op, to - from), result)
  }

  lemma NoTelegram(op: Operation, verdicts: nat -> Verdict, from: nat)
    ensures forall result :: Whole(SeriesOf(op, verdicts, from, from, result))
  {
  }

  /** One more telegram after some that have not failed. */
  lemma OneMoreTelegram(verdicts: nat -> Verdict, from: nat, to: nat, op: Operation, result: int)
    requires Whole(SeriesOf(op, verdicts, from, to, 0)) && Whole(Tells(op, from == to, verdicts(to), result))
    requires result == 0 ==> GoesOn(op, verdicts(to))
    ensures Whole(SeriesOf(op, verdicts, from, to + 1, result))
  {
    assert Times(op, to + 1 - from)[..to - from] == Times(op, to - from);
  }

  /** No telegram follows one that has been refused. */
  lemma FirstRefused(verdicts: nat -> Verdict, from: nat, to: nat, result: int)
    requires Whole(SeriesOf(AreaRead, verdicts, from, to, result)) && from < to
    ensures verdicts(from).Refused? ==> to == from + 1 && result == ERR_CLI_FUNCTION_REFUSED
  {
    if to > from + 1 {
      assert GoesOn(Times(AreaRead, to - from)[..to - from - 1][0], verdicts(from + 0));
    }
  }

  ghost predicate Present(it: DataItem, memory: Memory) {
    it.area as int in KnownAreas() && InMemory(memory, KnownAreas()[it.area as int], it.dbNumber, it.start, it.Size())
  }

  ghost function Sizes(its: seq<DataItem>): (sizes: seq<nat>)
    requires forall k | 0 <= k < |its| :: 0 <= its[k].Size()
    ensures |sizes| == |its| && forall k | 0 <= k < |its| :: sizes[k] == its[k].Size()
  {
    if its == [] then [] else Sizes(its[..|its| - 1]) + [its[|its| - 1].Size()]
  }

  /** The PLC answers, and request and response fit into a telegram. */
  ghost predicate Undisturbed(its: seq<DataItem>, pduLength: int, v: Verdict) {
    && v.Served? && |its| <= MAX_VARS && 12 + 12 * |its| <= pduLength <= ISO_PAYLOAD_SIZE
    && (forall k | 0 <= k < |its| :: Readable(its[k]) && 0 <= its[k].Size())
    && 14 + Room(Sizes(its)) <= pduLength
  }

  /** The bytes are a read request for the items. */
  ghost predicate IsReadOf(req: seq<byte>, its: seq<DataItem>) {
    && |its| <= MAX_VARS && |req| == 12 + 12 * |its| && req[10] == PDU_FUNC_READ && req[11] == |its|
    && Headed(req, 2 + 12 * |its|, 0)
    && forall k {:trigger Refers(req, k, its[k])} | 0 <= k < |its| :: Refers(req, k, its[k])
  }

  /** The k-th reference in the request is that of the item. */
  ghost predicate Refers(req: seq<byte>, k: nat, it: DataItem)
    requires 24 + 12 * k <= |req|
  {
    RefAt(req, 12 + 12 * k) == it.ToRef() && ItemHead(req, 12 + 12 * k)
  }

  /** The walk over a received response finds the answers to all items. */
  lemma AnswersArrive(req: seq<byte>, memory: Memory, v: Verdict, after: seq<byte>, its: seq<DataItem>,
      data: seq<byte>, found: seq<Found>)
    requires IsReadOf(req, its) && v.Served? && Conforming(v) && data == AnswersTo(req, memory, v)
        && found == FoundFor(its, memory, v)
    requires Contains(after, 14, data) && |after| == ISO_PAYLOAD_SIZE
    ensures Whole(AllFound(after, 14, found))
  {
    var answers := ReadAnswers(RefsFrom(req, 12, req[11]), memory, v);
    LayoutWalked(after, 14, answers);
    forall k | 0 <= k < |its| ensures AnswerFor(after, 14, k, found[k]) {
      assert Refers(req, k, its[k]) && AnswerFor(after, 14, k, FoundOf(answers[k]));
    }
  }

  /** The reference in the telegram names the range of the item. */
  lemma RefNamesItem(it: DataItem)
    requires Readable(it) && it.area as int in KnownAreas()
    ensures var ref, area := it.ToRef(), KnownAreas()[it.area as int];
            && ref.areaCode == it.area as int && ref.length * DataSizeByte(ref.transport) == it.Size()
            && DataSizeByte(ref.transport) > 0 && !ElementAddressed(ref.transport)
            && MemoryKey(area, ref.number) == MemoryKey(area, it.dbNumber)
            && (it.Size() == 0 || ref.address / 8 == it.start)
  {
    assert it.amount > 0 ==> it.start < 0x20_0000;
  }

  /** What has been found for the item is what the PLC stores, or an error. */
  ghost predicate FoundFits(it: DataItem, memory: Memory, found: Found) {
    if found.result != 0 then found.data == [] else
      && it.area as int in KnownAreas() && |found.data| == it.Size()
      && Holds(memory, KnownAreas()[it.area as int], it.dbNumber, it.start, found.data)
  }

  /** What has been found for all items is what the PLC stores, or errors. */
  ghost predicate AllFit(asked: seq<DataItem>, memory: Memory, found: seq<Found>) {
    |found| == |asked| && forall k {:trigger FoundFits(asked[k], memory, found[k])} | 0 <= k < |asked| ::
        FoundFits(asked[k], memory, found[k])
  }

  /** The buffer holds an error or the answers to all items. */
  ghost predicate AnswersReady(after: seq<byte>, asked: seq<DataItem>, memory: Memory, found: seq<Found>) {
    && |after| == ISO_PAYLOAD_SIZE && |found| == |asked|
    && (WordAt(after, 10) == 0 ==>
          && after[13] as int == |asked|
          && AllFound(after, 14, found) && AllFit(asked, memory, found))
  }

  /** What the exchange for a read has led to. */
  ghost predicate ReadOutcome(asked: seq<DataItem>, memory: Memory, pduLength: int, v: Verdict, result: int,
      after: seq<byte>, found: seq<Found>) {
    && (result == 0 ==> AnswersReady(after, asked, memory, found))
    && (Undisturbed(asked, pduLength, v) ==>
          result == 0 && AnswersReady(after, asked, memory, found) && WordAt(after, 10) == 0
          && forall k | 0 <= k < |asked| ::
               found[k].result == ResultOfCode(CodeOf(Present(asked[k], memory), v.codes(k))))
    && (v.Refused? ==> result == 0 && |after| >= 12 && WordAt(after, 10) == v.error)
    && (v.Lost? ==> result == v.isoError)
  }

  lemma OutcomeTold(asked: seq<DataItem>, memory: Memory, pduLength: int, v: Verdict, result: int, after: seq<byte>,
      found: seq<Found>)
    requires Whole(ReadOutcome(asked, memory, pduLength, v, result, after, found)) && Conforming(v)
    ensures v.Lost? ==> result == v.isoError != 0
    ensures v.Refused? ==> result == 0 && |after| >= 12 && WordAt(after, 10) == v.error && CpuError(v.error) != 0
    ensures result == 0 ==> Whole(AnswersReady(after, asked, memory, found))
    ensures Undisturbed(asked, pduLength, v) ==>
      && result == 0 && |after| >= 12 && WordAt(after, 10) == 0 && |found| == |asked|
      && forall k | 0 <= k < |asked| ::
           found[k].result == ResultOfCode(CodeOf(Present(asked[k], memory), v.codes(k)))
  {
  }

  lemma FoundTold(asked: seq<DataItem>, its: seq<DataItem>, memory: Memory, pduLength: int, v: Verdict,
      found: seq<Found>, result: int)
    requires |asked| == |its| == |found|
    requires Undisturbed(asked, pduLength, v) ==>
               result == 0 && forall k | 0 <= k < |its| :: its[k].result == found[k].result
    requires Undisturbed(asked, pduLength, v) ==> forall k | 0 <= k < |asked| ::
        found[k].result == ResultOfCode(CodeOf(Present(asked[k], memory), v.codes(k)))
    ensures Whole(Undisturbed(asked, pduLength, v)) ==> result == 0 && Whole(ResultsTold(asked, its, memory, v))
  {
  }

  /** The items are what the asked ones become when their results are cleared. */
  ghost predicate AreCleared(asked: seq<DataItem>, its: seq<DataItem>) {
    |its| == |asked| && forall k | 0 <= k < |its| :: Readable(asked[k]) && its[k] == asked[k].Cleared()
  }

  lemma FoundFitsItem(asked: DataItem, memory: Memory, v: Verdict, k: nat)
    requires Readable(asked) && 0 <= asked.Size() && v.Served? && Conforming(v)
    ensures var found := FoundOf(AnswerTo(asked.Cleared(), memory, v, k));
            FoundFits(asked, memory, found)
                && ServedWell(asked, memory, v.codes(k), AnswerTo(asked.Cleared(), memory, v, k), found)
  {
    if asked.area as int in KnownAreas() {
      RefNamesItem(asked.Cleared());
    }
  }

  /** What is found for an item is what its return code means, and its data has room. */
  ghost predicate ServedWell(asked: DataItem, memory: Memory, code: byte, a: Answer, found: Found) {
    found.result == ResultOfCode(CodeOf(Present(asked, memory), code)) && |a.data| <= asked.Size()
  }

  ghost predicate AllServedWell(asked: seq<DataItem>, its: seq<DataItem>, memory: Memory, v: Verdict, found: seq<Found>)
    requires |asked| == |its| == |found| && v.Served?
  {
    forall k {:trigger ServedWell(asked[k], memory, v.codes(k), AnswerTo(its[k], memory, v, k),
        found[k])} | 0 <= k < |its| ::
      ServedWell(asked[k], memory, v.codes(k), AnswerTo(its[k], memory, v, k), found[k])
  }

  lemma ItemsFit(asked: seq<DataItem>, its: seq<DataItem>, memory: Memory, v: Verdict, found: seq<Found>)
    requires AreCleared(asked, its) && Conforming(v) && v.Served? && found == FoundFor(its, memory, v)
    ensures Whole(AllFit(asked, memory, found)) && Whole(AllServedWell(asked, its, memory, v, found))
  {
    forall k | 0 <= k < |its|
      ensures FoundFits(asked[k], memory, found[k])
          && ServedWell(asked[k], memory, v.codes(k), AnswerTo(its[k], memory, v, k), found[k])
    {
      FoundFitsItem(asked[k], memory, v, k);
    }
  }

  lemma ItemsReady(req: seq<byte>, before: seq<byte>, memory: Memory, pduLength: int, v: Verdict, result: int,
      after: seq<byte>, asked: seq<DataItem>, its: seq<DataItem>, found: seq<Found>)
    requires |before| == ISO_PAYLOAD_SIZE && Whole(IsReadOf(req, its)) && Whole(AreCleared(asked, its))
    requires Conforming(v) && Whole(Received(req, before, memory, pduLength, v, result, after))
        && found == FoundFor(its, memory, v)
    ensures Whole(ReadOutcome(asked, memory, pduLength, v, result, after, found))
  {
    if v.Served? {
      var data := AnswersTo(req, memory, v);
      ReadArrives(req, before, memory, pduLength, v, result, after, data);
      ServedReady(req, before, memory, pduLength, v, result, after, asked, its, found, data);
    } else {
      ReadArrives(req, before, memory, pduLength, v, result, after, []);
    }
  }

  lemma ServedReady(req: seq<byte>, before: seq<byte>, memory: Memory, pduLength: int, v: Verdict, result: int,
      after: seq<byte>, asked: seq<DataItem>, its: seq<DataItem>, found: seq<Found>, data: seq<byte>)
    requires |before| == ISO_PAYLOAD_SIZE && IsReadOf(req, its) && Whole(AreCleared(asked, its)) && |its| == |asked|
    requires Conforming(v) && v.Served? && data == AnswersTo(req, memory, v) && found == FoundFor(its, memory, v)
    requires Arrived(before, result, after, 14 + |data| <= pduLength, req[11], data)
    ensures Whole(ReadOutcome(asked, memory, pduLength, v, result, after, found))
  {
    ItemsFit(asked, its, memory, v, found);
    if result == 0 && 14 + |data| <= pduLength {
      AnswersArrive(req, memory, v, after, its, data, found);
    }
    if Undisturbed(asked, pduLength, v) {
      UndisturbedFits(asked, its, req, memory, pduLength, v, data, found);
    }
  }

  /** If the telegrams have room, the response fits into one, and tells the return codes of all items. */
  lemma UndisturbedFits(asked: seq<DataItem>, its: seq<DataItem>, req: seq<byte>, memory: Memory, pduLength: int,
      v: Verdict, data: seq<byte>, found: seq<Found>)
    requires Undisturbed(asked, pduLength, v) && IsReadOf(req, its) && |its| == |asked| == |found|
    requires AllServedWell(asked, its, memory, v, found) && data == AnswersTo(req, memory, v)
    ensures 14 + |data| <= pduLength
    ensures forall k | 0 <= k < |asked| ::
      found[k].result == ResultOfCode(CodeOf(Present(asked[k], memory), v.codes(k)))
  {
    AnswersNamed(req, its, memory, v);
    AnswersSmall(asked, its, memory, v, found);
    LayoutFits(ReadAnswers(RefsFrom(req, 12, req[11]), memory, v), Sizes(asked));
  }

  /** The answers to a request are those to its items. */
  lemma AnswersNamed(req: seq<byte>, its: seq<DataItem>, memory: Memory, v: Verdict)
    requires IsReadOf(req, its) && v.Served?
    ensures var answers := ReadAnswers(RefsFrom(req, 12, req[11]), memory, v);
            |answers| == |its| && forall k | 0 <= k < |its| :: answers[k] == AnswerTo(its[k], memory, v, k)
  {
    var answers := ReadAnswers(RefsFrom(req, 12, req[11]), memory, v);
    forall k | 0 <= k < |its| ensures answers[k] == AnswerTo(its[k], memory, v, k) {
      assert Refers(req, k, its[k]);
    }
  }

  lemma AnswersSmall(asked: seq<DataItem>, its: seq<DataItem>, memory: Memory, v: Verdict, found: seq<Found>)
    requires v.Served? && |its| == |asked| == |found|
    requires forall k | 0 <= k < |its| :: Readable(asked[k]) && 0 <= asked[k].Size()
    requires AllServedWell(asked, its, memory, v, found)
    ensures forall k | 0 <= k < |its| ::
      && found[k].result == ResultOfCode(CodeOf(Present(asked[k], memory), v.codes(k)))
      && |AnswerTo(its[k], memory, v, k).data| <= asked[k].Size()
  {
    forall k | 0 <= k < |its|
      ensures found[k].result == ResultOfCode(CodeOf(Present(asked[k], memory), v.codes(k)))
          && |AnswerTo(its[k], memory, v, k).data| <= asked[k].Size()
    {
      assert ServedWell(asked[k], memory, v.codes(k), AnswerTo(its[k], memory, v, k), found[k]);
    }
  }

  lemma FoundHaveRoom(asked: seq<DataItem>, its: seq<DataItem>, memory: Memory, found: seq<Found>,
      befores: seq<seq<byte>>)
    requires AreCleared(asked, its) && Holding(its, befores) && |found| == |its|
    requires AllFit(asked, memory, found)
    ensures forall k | 0 <= k < |its| :: |found[k].data| <= |befores[k]|
  {
    forall k | 0 <= k < |its| ensures |found[k].data| <= |befores[k]| {
      assert its[k].pdata[..] == befores[k] && FoundFits(asked[k], memory, found[k]);
    }
  }

  lemma AllDelivered(asked: seq<DataItem>, its: seq<DataItem>, memory: Memory, found: seq<Found>,
      befores: seq<seq<byte>>, nows: seq<seq<byte>>)
    requires |asked| == |its| == |found| == |befores| == |nows|
    requires forall k | 0 <= k < |its| :: its[k] == asked[k].Cleared().(result := found[k].result)
    requires AllFit(asked, memory, found)
    requires forall k | 0 <= k < |its| ::
        |found[k].data| <= |befores[k]| && nows[k] == AfterAnswer(befores[k], found[k])
    ensures Whole(MultiRead(asked, its, befores, nows, memory, 0))
  {
    forall k | 0 <= k < |its| ensures Delivered(its[k], befores[k], nows[k], memory) {
      assert FoundFits(asked[k], memory, found[k]);
    }
  }

  /** Clearing results and word lengths keeps the targets. */
  lemma SameTargets(asked: seq<DataItem>, its: seq<DataItem>, payload: array<byte>, befores: seq<seq<byte>>)
    requires AreCleared(asked, its) && SeparateTargets(asked, payload) && Holding(asked, befores)
    ensures SeparateTargets(its, payload) && Holding(its, befores) && forall k | 0 <= k < |its| :: 0 <= its[k].start
  {
    forall k | 0 <= k < |its| ensures its[k].pdata in Targets(its) && its[k].pdata[..] == befores[k] {
      assert asked[k].pdata[..] == befores[k];
    }
  }

  /** At `offset` the target has got the bytes of the item, and nothing else has changed. */
  ghost predicate SliceRead(it: DataItem, memory: Memory, offset: nat, before: seq<byte>, now: seq<byte>) {
    && 0 <= it.Size() && offset + it.Size() <= |now| == |before| && it.area as int in KnownAreas()
    && Holds(memory, KnownAreas()[it.area as int], it.dbNumber, it.start, now[offset..offset + it.Size()])
    && now[..offset] == before[..offset] && now[offset + it.Size()..] == before[offset + it.Size()..]
  }

  lemma SliceCopied(it: DataItem, memory: Memory, offset: nat, before: seq<byte>, now: seq<byte>, data: seq<byte>)
    requires 0 <= it.Size() == |data| && offset + it.Size() <= |now| == |before| && it.area as int in KnownAreas()
    requires Holds(memory, KnownAreas()[it.area as int], it.dbNumber, it.start, data)
    requires now[offset..offset + it.Size()] == data
    requires now[..offset] == before[..offset] && now[offset + it.Size()..] == before[offset + it.Size()..]
    ensures Whole(SliceRead(it, memory, offset, before, now))
  {
  }

  /** The answers to a request for a single item. */
  lemma SingleAnswer(req: seq<byte>, memory: Memory, v: Verdict, it: DataItem)
    requires IsReadOf(req, [it]) && v.Served?
    ensures AnswersTo(req, memory, v) == Layout([AnswerTo(it, memory, v, 0)])
  {
    var refs := RefsFrom(req, 12, req[11]);
    assert Refers(req, 0, [it][0]);
    assert ReadAnswers(refs, memory, v) == [AnswerTo(it, memory, v, 0)];
  }

  /** An answer without error has the data of the item; any other one has a code that means an error. */
  lemma AnswerHolds(it: DataItem, memory: Memory, v: Verdict, k: nat)
    requires Readable(it) && v.Served? && Conforming(v)
    ensures var a := AnswerTo(it, memory, v, k);
            && a.code != 0
            && (if a.code == 0xFF then |a.data| == it.Size() && it.area as int in KnownAreas()
                  && Holds(memory, KnownAreas()[it.area as int], it.dbNumber, it.start, a.data)
                else a.data == [])
            && (v.codes(k) == 0xFF && Present(it, memory) ==> a.code == 0xFF)
  {
    if it.area as int in KnownAreas() {
      RefNamesItem(it);
    }
  }

  /**
   * After a read of a single item, the client finds the answer; if the request has been refused,
   * it finds one of its own bytes where it looks for the return code, and takes it for an error.
   */
  lemma SliceArrives(req: seq<byte>, before: seq<byte>, memory: Memory, pduLength: int, v: Verdict, result: int,
      after: seq<byte>, it: DataItem, data: seq<byte>)
    requires |before| == ISO_PAYLOAD_SIZE && IsReadOf(req, [it]) && before[14] == 0x10 && Readable(it)
        && Conforming(v) && v.Served?
    requires data == Layout([AnswerTo(it, memory, v, 0)]) && result == 0
    requires Arrived(before, result, after, 14 + |data| <= pduLength, req[11], data)
    ensures |after| == ISO_PAYLOAD_SIZE && after[14] != 0
    ensures after[14] == 0xFF ==> Stands(after, 14, AnswerTo(it, memory, v, 0)) && it.Size() < ISO_PAYLOAD_SIZE
    ensures v.codes(0) == 0xFF && Present(it, memory) && 14 + |data| <= pduLength ==> after[14] == 0xFF
  {
    if 14 + |data| > pduLength {
      StaleByte(before, after);
    } else {
      LayoutStands(after, 14, [AnswerTo(it, memory, v, 0)]);
      AnswerHolds(it, memory, v, 0);
    }
  }

  lemma StaleByte(before: seq<byte>, after: seq<byte>)
    requires |before| == |after| == ISO_PAYLOAD_SIZE && after[12..] == before[12..]
    ensures after[14] == before[14]
  {
    assert after[14] == after[12..][2];
  }

  /** The data that the client finds is what the PLC stores. */
  lemma SliceHolds(after: seq<byte>, it: DataItem, memory: Memory, v: Verdict)
    requires Readable(it) && Conforming(v) && v.Served? && Stands(after, 14, AnswerTo(it, memory, v, 0))
    requires after[14] == 0xFF && it.Size() < ISO_PAYLOAD_SIZE
    ensures SliceAt(after, 14) == it.Size() && AnswerFits(after, 14) && it.area as int in KnownAreas()
    ensures Holds(memory, KnownAreas()[it.area as int], it.dbNumber, it.start, after[18..18 + it.Size()])
  {
    AnswerHolds(it, memory, v, 0);
    AnswerFound(after, 14, AnswerTo(it, memory, v, 0));
  }

  /**
   * What is found at the place of the return code: for a refusal, a byte of the request; otherwise
   * the return code of the item, if the response fits into a telegram.
   */
  ghost predicate CodeArrives(it: DataItem, memory: Memory, pduLength: int, v: Verdict, result: int, code: byte) {
    match v
    case Lost(isoError, _) => result == isoError
    case Refused(_) => result == 0 && code == 0x10
    case Served(codes, _) =>
      && (18 + it.Size() <= pduLength <= ISO_PAYLOAD_SIZE || (codes(0) != 0xFF && 18 <= pduLength) ==>
            result == 0 && code == CodeOf(Present(it, memory), codes(0)))
      && (result == 0 && code == 0xFF ==> codes(0) == 0xFF)
  }

  /** What the read of a part of an area tells. */
  ghost predicate SliceTold(it: DataItem, memory: Memory, pduLength: int, v: Verdict, result: int) {
    && Tells(AreaRead, true, v, result) && (result == 0 ==> GoesOn(AreaRead, v))
    && (v.Served? && 18 + it.Size() <= pduLength <= ISO_PAYLOAD_SIZE ==>
          result == ResultOfCode(CodeOf(Present(it, memory), v.codes(0))))
  }

  lemma CodeTold(it: DataItem, memory: Memory, pduLength: int, v: Verdict, result: int, code: byte, told: int)
    requires CodeArrives(it, memory, pduLength, v, result, code) && Conforming(v) && 18 <= pduLength
    requires told == if result == 0 then ResultOfCode(code) else result
    ensures Whole(SliceTold(it, memory, pduLength, v, told))
  {
  }

  /** The buffer holds the answer to a read of one item, or an error code where the return code is expected. */
  ghost predicate AnswerReady(after: seq<byte>, it: DataItem, memory: Memory) {
    && |after| == ISO_PAYLOAD_SIZE && after[14] != 0
    && (after[14] == 0xFF ==>
          && SliceAt(after, 14) == it.Size() && AnswerFits(after, 14) && it.area as int in KnownAreas()
          && Holds(memory, KnownAreas()[it.area as int], it.dbNumber, it.start, after[18..18 + it.Size()]))
  }

  lemma SliceReady(req: seq<byte>, before: seq<byte>, memory: Memory, pduLength: int, v: Verdict, result: int,
      after: seq<byte>, it: DataItem)
    requires |before| == ISO_PAYLOAD_SIZE && Whole(IsReadOf(req, [it])) && before[14] == 0x10 && Readable(it)
        && Conforming(v)
    requires Whole(Received(req, before, memory, pduLength, v, result, after))
    ensures result == 0 ==> Whole(AnswerReady(after, it, memory))
    ensures |after| == ISO_PAYLOAD_SIZE && CodeArrives(it, memory, pduLength, v, result, after[14])
  {
    if v.Served? {
      SingleAnswer(req, memory, v, it);
      var data := Layout([AnswerTo(it, memory, v, 0)]);
      ReadArrives(req, before, memory, pduLength, v, result, after, data);
      SliceServed(req, before, memory, pduLength, v, result, after, it, data);
    } else {
      ReadArrives(req, before, memory, pduLength, v, result, after, []);
      if result == 0 {
        StaleByte(before, after);
      }
    }
  }

  lemma SliceServed(req: seq<byte>, before: seq<byte>, memory: Memory, pduLength: int, v: Verdict, result: int,
      after: seq<byte>, it: DataItem, data: seq<byte>)
    requires |before| == ISO_PAYLOAD_SIZE && IsReadOf(req, [it]) && before[14] == 0x10 && Readable(it)
        && Conforming(v) && v.Served?
    requires data == Layout([AnswerTo(it, memory, v, 0)])
    requires Arrived(before, result, after, 14 + |data| <= pduLength, req[11], data)
    ensures result == 0 ==> Whole(AnswerReady(after, it, memory))
    ensures |after| == ISO_PAYLOAD_SIZE ==> CodeArrives(it, memory, pduLength, v, result, after[14])
  {
    AnswerHolds(it, memory, v, 0);
    if result == 0 {
      SliceArrives(req, before, memory, pduLength, v, result, after, it, data);
      if after[14] == 0xFF {
        SliceHolds(after, it, memory, v);
      }
    }
  }

  /** The PLC has the whole range, and telegrams fit into the buffer. */
  ghost predicate ReadUndisturbed(area: byte, number: int, start: int, amount: int, wordLen: int, memory: Memory,
      pduLength: int) {
    && DataSizeByte(wordLen) > 0 && 0 <= number <= 65535 && 0 <= start && 1 <= amount && pduLength <= ISO_PAYLOAD_SIZE
    && area as int in KnownAreas()
        && InMemory(memory, KnownAreas()[area as int], number, start, amount * DataSizeByte(wordLen))
  }

  /**
   * For which errors a refused read of an area and a refused multi-variable read report the
   * same: those that the client has no own error for.
   */
  lemma RefusalsAgreeIff(error: int)
    requires 0 < error < 0x1_0000
    ensures CpuError(error) == ERR_CLI_FUNCTION_REFUSED
            <==> error !in {0x0005, 0x0006, 0x0007, 0x000A, 0x8104, 0x8500, 0xD209, 0xD241, 0xD602, 0xD604, 0xD605,
                            0xDC01}
  {
  }

  /** The number of elements in the next telegram: what is left, cut off to 16 bits, but no more than fit. */
  function SliceElements(left: nat, maxElements: nat): nat {
    if left % 0x1_0000 > maxElements then maxElements else left % 0x1_0000
  }

  /** The number of elements left after n telegrams without an error. */
  function LeftAfter(left: nat, maxElements: nat, n: nat): nat
    decreases n
  {
    if n == 0 then left else LeftAfter(left - SliceElements(left, maxElements), maxElements, n - 1)
  }

  lemma OneRound(left: nat, maxElements: nat, n: nat, atEnd: nat)
    requires Whole(LeftAfter(left, maxElements, n) == atEnd) && n > 0
    ensures Whole(LeftAfter(left - SliceElements(left, maxElements), maxElements, n - 1) == atEnd)
    ensures left == 0 ==> SliceElements(left, maxElements) == 0
  {
  }

  lemma {:induction false} LeftStaysAbove(left: nat, maxElements: nat, n: nat)
    requires left > 0xFFFF
    ensures LeftAfter(left, maxElements, n) > 0xFFFF
    decreases n
  {
    if n > 0 {
      LeftStaysAbove(left - SliceElements(left, maxElements), maxElements, n - 1);
    }
  }

  lemma {:induction false} LeftRunsOut(left: nat, maxElements: nat, n: nat)
    requires left <= 0xFFFF && 0 < maxElements && left <= n
    ensures LeftAfter(left, maxElements, n) == 0
    decreases n
  {
    if n > 0 {
      LeftRunsOut(left - SliceElements(left, maxElements), maxElements, n - 1);
    }
  }

  /**
   * The number of elements in a telegram is cut off to 16 bits. So while every telegram is
   * answered without an error, the elements run out if and only if their amount fits into 16 bits.
   */
  lemma LoopEndsIff(amount: nat, maxElements: nat)
    requires 0 < maxElements
    ensures (exists n: nat :: LeftAfter(amount, maxElements, n) == 0) <==> amount <= 0xFFFF
  {
    if amount <= 0xFFFF {
      LeftRunsOut(amount, maxElements, amount);
    } else {
      forall n: nat ensures LeftAfter(amount, maxElements, n) != 0 {
        LeftStaysAbove(amount, maxElements, n);
      }
    }
  }

  /** The elements of an amount that a counter of 16 bits does not count. */
  function Beyond(amount: nat): nat {
    amount - amount % 0x1_0000
  }

  /**
   * Every telegram fits and stays within what is left. It has elements until only those are
   * left that are not counted.
   */
  lemma NextSlice(amount: nat, left: nat, maxElements: nat, wordSize: nat, room: nat)
    requires Beyond(amount) <= left <= amount && 0 < wordSize <= room && wordSize in {1, 2, 4}
    requires maxElements == room / wordSize
    ensures var n := SliceElements(left, maxElements);
            && n <= left - Beyond(amount) && (n == 0 <==> left == Beyond(amount)) && n * wordSize <= room
            && (amount - left) * wordSize + n * wordSize == (amount - (left - n)) * wordSize <= amount * wordSize
    ensures amount <= 0xFFFF <==> Beyond(amount) == 0
  {
    assert left % 0x1_0000 == left - Beyond(amount);
  }

  /** The number of elements in the next telegram is less than what is left, apart from what is beyond 16 bits. */
  lemma NextCount(amount: nat, left: nat, maxElements: nat, wordSize: nat, room: nat)
    requires Beyond(amount) <= left <= amount && 0 < wordSize <= room && wordSize in {1, 2, 4}
    requires maxElements == room / wordSize
    ensures var n := SliceElements(left, maxElements);
            n <= left - Beyond(amount) && (n == 0 <==> left == Beyond(amount))
    ensures amount <= 0xFFFF <==> Beyond(amount) == 0
  {
    NextSlice(amount, left, maxElements, wordSize, room);
  }

  /** Where the loop over the telegrams stands. */
  ghost predicate Reading(start: int, amount: nat, wordSize: int, left: int, offset: int, from: int, got: nat) {
    Beyond(amount) <= left <= amount && offset == got == (amount - left) * wordSize && from == start + got
  }

  /** More than 65535 elements do not run out. */
  lemma NeverOut(start: int, amount: nat, wordSize: int, left: int, offset: int, from: int, got: nat)
    requires Whole(Reading(start, amount, wordSize, left, offset, from, got))
    ensures amount > 0xFFFF ==> left > 0xFFFF
  {
  }

  /** The next telegram can be sent, and there is room for its data. */
  lemma ReadStarts(memory: Memory, v: Verdict, start: int, amount: nat, wordSize: int, room: int, left: int,
                   offset: int, from: int, got: nat, it: DataItem)
    requires wordSize == DataSizeByte(it.wordLen) && 0 < wordSize <= room && !ElementAddressed(it.wordLen)
    requires 0 <= it.dbNumber <= 0xFFFF && 0 <= start && start + amount * wordSize <= 0x20_0000
    requires amount * wordSize <= it.pdata.Length && it.start == from && 0 < left
    requires it.amount == SliceElements(left, room / wordSize)
    requires Whole(Reading(start, amount, wordSize, left, offset, from, got))
    ensures 0 <= it.amount <= left && 0 <= offset && offset + it.Size() <= it.pdata.Length && 0 <= it.Size() <= room
    ensures Whole(Readable(it)) && start <= it.start < 0x20_0000 && it.start + it.Size() <= start + amount * wordSize
    ensures ReadUndisturbed(it.area, it.dbNumber, start, amount, it.wordLen, memory, 18 + room) && Healthy(v) ==>
              v.Served? && v.codes(0) == 0xFF && Present(it, memory) && 18 + it.Size() <= 18 + room <= ISO_PAYLOAD_SIZE
  {
    NextSlice(amount, left, room / wordSize, wordSize, room);
    SomethingLeft(amount, left, wordSize);
  }

  lemma SomethingLeft(amount: nat, left: nat, wordSize: nat)
    requires 0 < left <= amount && wordSize in {1, 2, 4}
    ensures (amount - left) * wordSize < amount * wordSize
  {
  }

  lemma ReadGoesOn(memory: Memory, start: int, amount: nat, wordSize: int, room: int, left: int, offset: int,
                   from: int, got: nat, it: DataItem, original: seq<byte>, before: seq<byte>, now: seq<byte>)
    requires wordSize == DataSizeByte(it.wordLen) && 0 < wordSize <= room && 0 < left && 0 <= it.Size()
    requires it.amount == SliceElements(left, room / wordSize)
    requires Whole(Reading(start, amount, wordSize, left, offset, from, got)) && it.start == from
    requires Whole(GotSoFar(it.area, it.dbNumber, start, memory, original, before, got))
    requires Whole(SliceRead(it, memory, offset, before, now))
    ensures Whole(GotSoFar(it.area, it.dbNumber, start, memory, original, now, got + it.Size()))
    ensures got + it.Size() <= amount * wordSize
    ensures Whole(Reading(start, amount, wordSize, left - it.amount, offset + it.Size(), from + it.Size(),
                          got + it.Size()))
  {
    SliceJoins(it, memory, start, original, before, now, got);
    NextSlice(amount, left, room / wordSize, wordSize, room);
  }

  /** The telegram asks for a part of the range; the response to it fits into a telegram. */
  ghost predicate AsksSlice(req: seq<byte>, area: byte, number: int, wordLen: int, start: int, total: int,
      pduLength: int) {
    && |req| == 24 && req[10] == PDU_FUNC_READ && req[11] == 1 && Headed(req, 14, 0) && ItemHead(req, 12)
    && var ref := RefAt(req, 12);
    && ref.areaCode == area as int && ref.transport == wordLen
        && ref.number == (if area == S7_AREA_DB then number else 0)
    && ref.address % 8 == 0 && start <= ref.address / 8
        && ref.address / 8 + ref.length * DataSizeByte(wordLen) <= start + total
    && 18 + ref.length * DataSizeByte(wordLen) <= pduLength
  }

  /** All telegrams since then ask for parts of the range. */
  ghost predicate SlicesAsked(before: seq<seq<byte>>, now: seq<seq<byte>>, area: byte, number: int, wordLen: int,
      start: int, total: int, pduLength: int)
  {
    && |before| <= |now| && now[..|before|] == before
    && forall k {:trigger AsksSlice(now[k], area, number, wordLen, start, total, pduLength)} | |before| <= k < |now| ::
         AsksSlice(now[k], area, number, wordLen, start, total, pduLength)
  }

  lemma SliceIsAsked(req: seq<byte>, it: DataItem, start: int, total: int, pduLength: int)
    requires Whole(IsReadOf(req, [it])) && Readable(it) && 0 <= it.Size() && 18 + it.Size() <= pduLength
    requires start <= it.start < 0x20_0000 && it.start + it.Size() <= start + total
    ensures AsksSlice(req, it.area, it.dbNumber, it.wordLen, start, total, pduLength)
  {
    assert Refers(req, 0, [it][0]);
  }

  lemma NoneAsked(before: seq<seq<byte>>, area: byte, number: int, wordLen: int, start: int, total: int, pduLength: int)
    ensures Whole(SlicesAsked(before, before, area, number, wordLen, start, total, pduLength))
  {
  }

  lemma MoreAsked(first: seq<seq<byte>>, before: seq<seq<byte>>, now: seq<seq<byte>>, it: DataItem, start: int,
      total: int, pduLength: int)
    requires Whole(SlicesAsked(first, before, it.area, it.dbNumber, it.wordLen, start, total, pduLength))
        && Whole(AskedFor(before, now, [it]))
    requires Whole(Readable(it)) && 0 <= it.Size() && 18 + it.Size() <= pduLength
    requires start <= it.start < 0x20_0000 && it.start + it.Size() <= start + total
    ensures Whole(SlicesAsked(first, now, it.area, it.dbNumber, it.wordLen, start, total, pduLength))
  {
    SliceIsAsked(now[|before|], it, start, total, pduLength);
    forall k | |first| <= k < |now|
        ensures AsksSlice(now[k], it.area, it.dbNumber, it.wordLen, start, total, pduLength) {
      if k < |before| {
        assert AsksSlice(before[k], it.area, it.dbNumber, it.wordLen, start, total, pduLength)
            && now[..|before|][k] == now[k];
      }
    }
    assert now[..|first|] == now[..|before|][..|first|];
  }

  /** The first `got` bytes are what the PLC stores from `start` on; the others are as before. */
  ghost predicate GotSoFar(area: byte, number: int, start: int, memory: Memory, before: seq<byte>, now: seq<byte>,
      got: nat) {
    && got <= |now| == |before| && now[got..] == before[got..]
    && (got > 0 ==> area as int in KnownAreas() && Holds(memory, KnownAreas()[area as int], number, start, now[..got]))
  }

  /** The bytes of a telegram continue those that are there already. */
  lemma SliceJoins(it: DataItem, memory: Memory, start: int, original: seq<byte>, before: seq<byte>, now: seq<byte>,
      got: nat)
    requires Whole(GotSoFar(it.area, it.dbNumber, start, memory, original, before, got))
    requires it.start == start + got && Whole(SliceRead(it, memory, got, before, now)) && 0 <= it.Size()
    ensures Whole(GotSoFar(it.area, it.dbNumber, start, memory, original, now, got + it.Size()))
  {
    var next := now[got..got + it.Size()];
    assert now[..got + it.Size()] == now[..got] + next;
    if got > 0 {
      HoldsJoin(memory, KnownAreas()[it.area as int], it.dbNumber, start, now[..got], next);
    } else {
      assert now[..got + it.Size()] == next;
    }
    forall i | got + it.Size() <= i < |now| ensures now[i] == original[i] {
      assert now[i] == now[got + it.Size()..][i - (got + it.Size())];
      assert before[i] == before[got..][i - got];
    }
  }

  /** How the data of a write request says its length, by word length. */
  function WriteTransport(wordLen: int): byte {
    match wordLen
    case S7_WL_BIT => TS_RES_BIT
    case S7_WL_INT => TS_RES_INT
    case S7_WL_DINT => TS_RES_INT
    case S7_WL_REAL => TS_RES_REAL
    case S7_WL_CHAR => TS_RES_OCTET
    case S7_WL_COUNTER => TS_RES_OCTET
    case S7_WL_TIMER => TS_RES_OCTET
    case _ => TS_RES_BYTE
  }

  lemma WriteDataIs(req: seq<byte>, length: int, data: seq<byte>)
    requires |req| == 28 + |data| && WordAt(req, 26) == length
    requires length == if CountsBytes(req[25]) then |data| else |data| * 8
    requires forall i | 0 <= i < |data| :: req[28 + i] == data[i]
    ensures WriteData(req) == data
  {
    assert req[28..28 + |data|] == data;
  }

  /** The header and the item reference of a write request stay as they are when the data is filled in. */
  lemma HeadStays(before: seq<byte>, req: seq<byte>)
    requires |before| >= 24 && |req| >= 24 && forall i | 0 <= i < 24 :: req[i] == before[i]
    ensures RefAt(req, 12) == RefAt(before, 12) && ItemHead(req, 12) == ItemHead(before, 12)
    ensures forall parLen, dataLen :: Headed(req, parLen, dataLen) == Headed(before, parLen, dataLen)
  {
  }

  /** The bytes are a request to write the data to the range of the item. */
  ghost predicate IsWriteOf(req: seq<byte>, it: DataItem, data: seq<byte>) {
    && |req| == 28 + |data| && req[10] == PDU_FUNC_WRITE && req[11] == 1 && Headed(req, 14, 4 + |data|)
    && ItemHead(req, 12) && RefAt(req, 12) == it.ToRef() && |data| == it.Size()
    && req[24] == 0 && req[25] == WriteTransport(it.wordLen) && WriteData(req) == data
  }

  /** Memory has changed by storing the data, if there is any, and in no other way. */
  ghost predicate Wrote(before: Memory, area: byte, number: int, start: int, data: seq<byte>, after: Memory) {
    if data == [] then after == before else
      && area as int in KnownAreas() && InMemory(before, KnownAreas()[area as int], number, start, |data|)
      && after == Stored(before, KnownAreas()[area as int], number, start, data)
  }

  /** What is found in the response to a write telegram. */
  ghost predicate AnswerTold(possible: bool, v: Verdict, result: int, after: seq<byte>) {
    |after| == ISO_PAYLOAD_SIZE
    && match v
       case Lost(isoError, _) => result == isoError
       case Refused(error) => result == 0 && WordAt(after, 10) == error
       case Served(codes, _) => result == 0 && WordAt(after, 10) == 0 && after[14] == CodeOf(possible, codes(0))
  }

  /** What a write with one telegram tells. */
  ghost predicate WriteTold(possible: bool, first: bool, v: Verdict, result: int) {
    && Tells(AreaWrite, first, v, result) && (result == 0 ==> possible && GoesOn(AreaWrite, v))
    && (v.Served? ==>
          var told := ResultOfCode(CodeOf(possible, v.codes(0)));
          result == if told != 0 && !first then ERR_CLI_PARTIAL_DATA_WRITTEN else told)
  }

  /** What a write telegram has led to: the PLC has stored the data or, with an error, has not. */
  ghost predicate WriteAnswered(it: DataItem, data: seq<byte>, before: Memory, now: Memory, result: int,
      after: seq<byte>) {
    if result != 0 then
      0 < result < 0x10_0000 && (now == before || Wrote(before, it.area, it.dbNumber, it.start, data, now))
    else
      && |after| == ISO_PAYLOAD_SIZE
      && if WordAt(after, 10) != 0 then now == before
         else if after[14] != 0xFF then now == before && after[14] != 0
         else Wrote(before, it.area, it.dbNumber, it.start, data, now)
  }

  /** The server can carry out the request if and only if there is data and it has the range of the item. */
  lemma WritableIff(req: seq<byte>, it: DataItem, data: seq<byte>, memory: Memory)
    requires IsWriteOf(req, it, data) && Readable(it)
    ensures Writable(req, memory) <==> data != [] && Present(it, memory)
    ensures Writable(req, memory) ==> Wrote(memory, it.area, it.dbNumber, it.start, data, Written(req, memory))
  {
    if it.area as int in KnownAreas() {
      RefNamesItem(it);
    }
  }

  lemma WriteServed(before: seq<byte>, memory: Memory, now: Memory, result: int, after: seq<byte>, code: byte,
      it: DataItem, data: seq<byte>)
    requires |before| == ISO_PAYLOAD_SIZE && Arrived(before, result, after, true, 1, [code]) && code != 0
    requires if code == 0xFF then Wrote(memory, it.area, it.dbNumber, it.start, data, now) else now == memory
    ensures Whole(WriteAnswered(it, data, memory, now, result, after))
    ensures result == 0 && |after| == ISO_PAYLOAD_SIZE && WordAt(after, 10) == 0 && after[14] == code
  {
    assert after[14] == [code][14 - 14];
  }

  lemma WriteReady(req: seq<byte>, before: seq<byte>, memory: Memory, pduLength: int, v: Verdict, result: int,
                   after: seq<byte>, it: DataItem, data: seq<byte>)
    requires |before| == ISO_PAYLOAD_SIZE && Whole(IsWriteOf(req, it, data)) && Readable(it) && Conforming(v)
    requires Whole(Received(req, before, memory, pduLength, v, result, after))
    ensures Whole(WriteAnswered(it, data, memory, MemoryAfter(req, memory, v), result, after))
    ensures AnswerTold(Present(it, memory) && data != [], v, result, after)
  {
    WritableIff(req, it, data, memory);
    var code := if v.Served? then WriteCode(req, memory, v.codes(0)) else 1;
    WriteArrives(req, before, memory, pduLength, v, result, after, code);
    if v.Served? {
      WriteServed(before, memory, MemoryAfter(req, memory, v), result, after, code, it, data);
    }
  }

  /** The telegram writes a single item, of no more bytes than fit. */
  predicate WritesOne(req: seq<byte>, area: byte, wordLen: int, pduLength: int) {
    && 28 <= |req| <= pduLength && req[10] == PDU_FUNC_WRITE && req[11] == 1 && Headed(req, 14, |req| - 24)
    && ItemHead(req, 12) && RefAt(req, 12).areaCode == area as int && RefAt(req, 12).transport == wordLen
    && req[25] == WriteTransport(wordLen)
  }

  /** All telegrams since then write single items. */
  ghost predicate WritesOnly(before: seq<seq<byte>>, now: seq<seq<byte>>, area: byte, wordLen: int, pduLength: int) {
    && |before| <= |now| && now[..|before|] == before
    && forall k {:trigger now[k]} | |before| <= k < |now| :: WritesOne(now[k], area, wordLen, pduLength)
  }

  lemma MoreWritten(first: seq<seq<byte>>, before: seq<seq<byte>>, now: seq<seq<byte>>, area: byte, wordLen: int,
                    pduLength: int)
    requires Whole(WritesOnly(first, before, area, wordLen, pduLength))
        && Whole(WritesOnly(before, now, area, wordLen, pduLength))
    ensures Whole(WritesOnly(first, now, area, wordLen, pduLength))
  {
    assert now[..|first|] == now[..|before|][..|first|];
    forall k {:trigger now[k]} | |first| <= k < |now| ensures WritesOne(now[k], area, wordLen, pduLength) {
      if k < |before| {
        assert now[..|before|][k] == before[k];
      }
    }
  }

  /** The bytes are a request to write a bit. */
  ghost predicate IsBitWriteOf(req: seq<byte>, area: byte, number: int, start: int, value: byte) {
    && |req| == 29 && req[10] == PDU_FUNC_WRITE && req[11] == 1 && Headed(req, 14, 5)
    && ItemHead(req, 12) && RefAt(req, 12) == ItemRef(area, S7_WL_BIT, number, start, 1)
        && req[24] == 0 && req[25] == TS_RES_BIT && WriteData(req) == [value]
  }

  /** A request to write a bit has been sent, and nothing else. */
  ghost predicate BitWriteSent(before: seq<seq<byte>>, now: seq<seq<byte>>, area: byte, number: int, start: int,
                               value: byte) {
    now != [] && before == now[..|now| - 1] && IsBitWriteOf(now[|now| - 1], area, number, start, value)
  }

  /** The PLC has the bit. */
  ghost predicate BitPresent(area: byte, number: int, start: int, memory: Memory) {
    area as int in KnownAreas() && HasBit(memory, KnownAreas()[area as int], number, start)
  }

  /** The bit has got the value, and nothing else has changed. */
  ghost predicate WroteBit(before: Memory, area: byte, number: int, start: int, value: bool, after: Memory) {
    && BitPresent(area, number, start, before)
    && after == StoredWithBit(before, KnownAreas()[area as int], number, start, value)
  }

  ghost predicate BitAnswered(area: byte, number: int, start: int, value: byte, before: Memory, now: Memory,
      result: int, after: seq<byte>) {
    if result != 0 then
      0 < result < 0x10_0000 && (now == before || WroteBit(before, area, number, start, value != 0, now))
    else
      && |after| == ISO_PAYLOAD_SIZE
      && if WordAt(after, 10) != 0 then now == before
         else if after[14] != 0xFF then now == before && after[14] != 0
         else WroteBit(before, area, number, start, value != 0, now)
  }

  lemma BitWritableIff(req: seq<byte>, area: byte, number: int, start: int, value: byte, memory: Memory)
    requires IsBitWriteOf(req, area, number, start, value) && 0 <= number <= 0xFFFF && 0 <= start < 0x100_0000
    ensures Writable(req, memory) <==> BitPresent(area, number, start, memory)
    ensures Writable(req, memory) ==> WroteBit(memory, area, number, start, value != 0, Written(req, memory))
  {
    var ref := RefAt(req, 12);
    assert ref == Ref(S7_WL_BIT, 1, if area == S7_AREA_DB then number else 0, area, start);
  }

  lemma BitWriteReady(req: seq<byte>, before: seq<byte>, memory: Memory, pduLength: int, v: Verdict, result: int,
                      after: seq<byte>, area: byte, number: int, start: int, value: byte)
    requires |before| == ISO_PAYLOAD_SIZE && IsBitWriteOf(req, area, number, start, value) && Conforming(v)
    requires 0 <= number <= 0xFFFF && 0 <= start < 0x100_0000
    requires Whole(Received(req, before, memory, pduLength, v, result, after))
    ensures BitAnswered(area, number, start, value, memory, MemoryAfter(req, memory, v), result, after)
    ensures AnswerTold(BitPresent(area, number, start, memory), v, result, after)
  {
    BitWritableIff(req, area, number, start, value, memory);
    var code := if v.Served? then WriteCode(req, memory, v.codes(0)) else 1;
    WriteArrives(req, before, memory, pduLength, v, result, after, code);
    if v.Served? {
      assert Arrived(before, result, after, true, 1, [code]);
      assert after[14] == [code][14 - 14];
    }
  }

  /**
   * The result of a write if nothing goes wrong. When only elements are left that a counter of
   * 16 bits does not count, the next telegram has no data, and the PLC answers it with an error.
   */
  function WriteResult(amount: nat): int {
    if amount <= 0xFFFF then 0
    else if amount % 0x1_0000 == 0 then ERR_CLI_ADDRESS_OUT_OF_RANGE
    else ERR_CLI_PARTIAL_DATA_WRITTEN
  }

  /** The write has ended with the error for the elements that are not counted, after all others have been stored. */
  ghost predicate EndsEarly(amount: nat, wordSize: int, result: int, put: nat) {
    amount > 0xFFFF && result == WriteResult(amount) && put == amount % 0x1_0000 * wordSize
  }

  /** A number of bytes at which a telegram ends. */
  ghost predicate IsBoundary(put: int, chunk: int, total: int) {
    put == 0 || put == total || exists n: nat :: put == n * chunk
  }

  lemma BoundaryAfter(put: nat, chunk: nat, total: nat)
    requires Whole(IsBoundary(put, chunk, total)) && put != total
    ensures Whole(IsBoundary(put + chunk, chunk, total))
  {
    if put == 0 {
      assert put + chunk == 1 * chunk;
    } else {
      var k: nat :| put == k * chunk;
      assert put + chunk == (k + 1) * chunk;
    }
  }

  lemma FewerTimes(a: nat, b: nat, wordSize: nat)
    requires a < b && wordSize > 0
    ensures a * wordSize < b * wordSize
  {
  }

  lemma NextBoundary(amount: nat, left: nat, maxElements: nat, wordSize: nat, total: nat)
    requires Beyond(amount) <= left <= amount && total == (amount - Beyond(amount)) * wordSize && wordSize > 0
    requires Whole(IsBoundary((amount - left) * wordSize, maxElements * wordSize, total))
    ensures var n := SliceElements(left, maxElements);
            Whole(IsBoundary((amount - left) * wordSize + n * wordSize, maxElements * wordSize, total))
  {
    assert left % 0x1_0000 == left - Beyond(amount);
    if left - Beyond(amount) <= maxElements {
      assert (amount - left) * wordSize + (left - Beyond(amount)) * wordSize == total;
    } else {
      FewerTimes(amount - left, amount - Beyond(amount), wordSize);
      BoundaryAfter((amount - left) * wordSize, maxElements * wordSize, total);
    }
  }

  /** What the PLC has stored: the first `put` bytes of the source, up to the end of a telegram. */
  ghost predicate WrittenSoFar(original: Memory, now: Memory, area: byte, number: int, start: int, source: seq<byte>,
                               amount: nat, wordSize: int, maxElements: int, put: nat)
  {
    && put <= |source| && put <= amount * wordSize
    && IsBoundary(put, maxElements * wordSize, (amount - Beyond(amount)) * wordSize)
    && Wrote(original, area, number, start, source[..put], now)
  }

  /** Where the loop over the telegrams stands. */
  ghost predicate Writing(start: int, amount: nat, wordSize: int, left: int, offset: int, to: int, first: bool,
                          put: nat) {
    && Beyond(amount) <= left <= amount && offset == put == (amount - left) * wordSize && to == start + put
    && (first <==> left == amount) && (first ==> put == 0) && (put == 0 ==> first)
  }

  /** The next telegram can be sent. */
  lemma WriteStarts(original: Memory, now: Memory, source: seq<byte>, start: int, amount: nat, wordSize: int,
                    room: int, left: int, offset: int, to: int, first: bool, put: nat, it: DataItem)
    requires wordSize == DataSizeByte(it.wordLen) && 0 < wordSize <= room && !ElementAddressed(it.wordLen)
    requires 0 <= it.dbNumber <= 0xFFFF && 0 <= start && start + amount * wordSize <= 0x20_0000
    requires amount * wordSize <= |source| && it.pdata.Length == amount * wordSize && it.start == to
    requires 0 < left && it.amount == SliceElements(left, room / wordSize)
    requires Whole(Writing(start, amount, wordSize, left, offset, to, first, put))
    requires Whole(WrittenSoFar(original, now, it.area, it.dbNumber, start, source, amount, wordSize, room / wordSize,
                                put))
    ensures 0 <= it.amount <= left && 0 <= offset && offset + it.Size() <= |source| && 0 <= it.Size() <= room
    ensures Whole(Readable(it)) && (it.amount == 0 <==> left == Beyond(amount)) && (it.amount == 0 <==> it.Size() == 0)
    ensures it.amount == 0 ==> amount > 0xFFFF && put == amount % 0x1_0000 * wordSize
                               && (first <==> amount % 0x1_0000 == 0)
    ensures ReadUndisturbed(it.area, it.dbNumber, start, amount, it.wordLen, original, 28 + room) ==> Present(it, now)
  {
    NextSlice(amount, left, room / wordSize, wordSize, room);
  }

  /** One more telegram keeps what has been stored in order. */
  lemma WriteGoesOn(original: Memory, before: Memory, after: Memory, source: seq<byte>, start: int, amount: nat,
                    wordSize: int, room: int, left: int, offset: int, to: int, first: bool, put: nat, it: DataItem,
                    written: bool)
    requires wordSize == DataSizeByte(it.wordLen) && 0 < wordSize <= room && amount * wordSize <= |source|
    requires 0 < left && it.amount == SliceElements(left, room / wordSize)
    requires Whole(Writing(start, amount, wordSize, left, offset, to, first, put))
    requires Whole(WrittenSoFar(original, before, it.area, it.dbNumber, start, source, amount, wordSize,
                                room / wordSize, put))
    requires 0 <= offset && 0 <= it.Size() && offset + it.Size() <= |source| && it.start == to
    requires (it.amount == 0 <==> it.Size() == 0) && (written ==> 0 < it.Size())
    requires if written then Whole(Wrote(before, it.area, it.dbNumber, to, source[offset..offset + it.Size()], after))
             else after == before
    ensures put < amount * wordSize
    ensures Whole(WrittenSoFar(original, after, it.area, it.dbNumber, start, source, amount, wordSize, room / wordSize,
                               if written then put + it.Size() else put))
    ensures it.amount > 0 ==> Whole(Writing(start, amount, wordSize, left - it.amount, offset + it.Size(),
                                            to + it.Size(), false, put + it.Size()))
  {
    WritingGoesOn(start, amount, wordSize, room, left, offset, to, first, put, it.amount);
    BoundaryGoesOn(start, amount, wordSize, room, left, offset, to, first, put, it.amount);
    if written {
      WriteJoins(original, it.area, it.dbNumber, start, source, put, it.Size(), before, after);
    }
  }

  lemma WritingGoesOn(start: int, amount: nat, wordSize: int, room: int, left: int, offset: int, to: int, first: bool,
                      put: nat, elements: nat)
    requires wordSize in {1, 2, 4} && wordSize <= room && 0 < left && elements == SliceElements(left, room / wordSize)
    requires Writing(start, amount, wordSize, left, offset, to, first, put)
    ensures offset == put < amount * wordSize && to == start + put && put + elements * wordSize <= amount * wordSize
    ensures elements > 0 ==> Whole(Writing(start, amount, wordSize, left - elements, offset + elements * wordSize,
                                           to + elements * wordSize, false, put + elements * wordSize))
  {
    NextSlice(amount, left, room / wordSize, wordSize, room);
    SomethingLeft(amount, left, wordSize);
  }

  lemma BoundaryGoesOn(start: int, amount: nat, wordSize: int, room: int, left: int, offset: int, to: int, first: bool,
                       put: nat, elements: nat)
    requires wordSize in {1, 2, 4} && wordSize <= room && 0 < left && elements == SliceElements(left, room / wordSize)
    requires Writing(start, amount, wordSize, left, offset, to, first, put)
    ensures var chunk, total := room / wordSize * wordSize, (amount - Beyond(amount)) * wordSize;
            Whole(IsBoundary(put, chunk, total)) ==> Whole(IsBoundary(put + elements * wordSize, chunk, total))
  {
    if Whole(IsBoundary(put, room / wordSize * wordSize, (amount - Beyond(amount)) * wordSize)) {
      NextBoundary(amount, left, room / wordSize, wordSize, (amount - Beyond(amount)) * wordSize);
    }
  }

  /** The data of a telegram continues what has been written already. */
  lemma WriteJoins(original: Memory, area: byte, number: int, start: int, source: seq<byte>, put: nat, size: nat,
                   before: Memory, after: Memory)
    requires 0 < size && put + size <= |source| && Whole(Wrote(original, area, number, start, source[..put], before))
    requires Whole(Wrote(before, area, number, start + put, source[put..put + size], after))
    ensures Whole(Wrote(original, area, number, start, source[..put + size], after))
  {
    assert source[..put + size] == source[..put] + source[put..put + size];
    if put > 0 {
      StoredJoin(original, KnownAreas()[area as int], number, start, source[..put], source[put..put + size]);
    } else {
      assert source[..put + size] == source[put..put + size];
    }
  }

  ghost function Targets(its: seq<DataItem>): set<array<byte>> {
    set k | 0 <= k < |its| :: its[k].pdata
  }

  /** The targets hold the given bytes. */
  ghost predicate Holding(its: seq<DataItem>, contents: seq<seq<byte>>)
    reads Targets(its)
  {
    |contents| == |its| && forall k | 0 <= k < |its| :: its[k].pdata in Targets(its) && its[k].pdata[..] == contents[k]
  }

  /** The items have different targets, none of which is the telegram. */
  ghost predicate SeparateTargets(its: seq<DataItem>, payload: array<byte>) {
    && (forall k | 0 <= k < |its| :: its[k].pdata != payload)
    && (forall i, j | 0 <= i < |its| && 0 <= j < |its| && i != j :: its[i].pdata != its[j].pdata)
  }
}

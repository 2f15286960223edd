/** The port driver: packs read items into telegrams, reads them and hands the results on. */
module PortDriver {
  import opened PlcTypes
  import opened ReadItems
  import opened ReadOptimizer
  import opened S7Wire
  import opened S7Server
  import opened MicroClient

  // ---------- results of read items ----------

  /** One telegram can name the range of the item. */
  ghost predicate Askable(n: ReadItem, sh: Places) {
    && n in sh && 0 <= n.areaNumber <= 0xFFFF
    && 0 <= sh[n].startByte && 0 <= sh[n].readBytes <= 0xFFFF && sh[n].End() <= 0x20_0000
    && sh[n].buffer.Length == sh[n].readBytes
  }

  /** The item is either unread, maybe with an error, or has been read completely, as the PLC stores it. */
  ghost predicate ReadOk(n: ReadItem, sh: Places, memory: Memory)
    requires n in sh
    reads n.result, sh[n].buffer
  {
    || n.result.bytesRead == 0
    || (n.result.status == Success && n.result.bytesRead == sh[n].readBytes && HoldsItem(n, sh, memory))
  }

  ghost predicate HoldsItem(n: ReadItem, sh: Places, memory: Memory)
    requires n in sh
    reads sh[n].buffer
  {
    Holds(memory, n.area, n.areaNumber, sh[n].startByte, sh[n].buffer[..])
  }

  ghost predicate Complete(n: ReadItem, sh: Places)
    requires n in sh
    reads n.result
  {
    n.result.status == Success && n.result.bytesRead == sh[n].readBytes
  }

  /** The item has an error instead of bytes. */
  ghost predicate Failed(n: ReadItem)
    reads n.result
  {
    n.result.status == Error && n.result.bytesRead == 0
  }

  /** The PLC has the range of the item. */
  ghost predicate OnPlc(n: ReadItem, sh: Places, memory: Memory) {
    n in sh && ByteAddressed(n.area) && InMemory(memory, n.area, n.areaNumber, sh[n].startByte, sh[n].readBytes)
  }

  ghost function BuffersOf(items: set<ReadItem>, sh: Places): set<array<byte>> {
    set n | n in items && n in sh :: sh[n].buffer
  }

  // ---------- reading one telegram ----------

  /** What the client is asked for to read the item. */
  ghost function AskedItem(n: ReadItem, sh: Places): DataItem
    requires n in sh
  {
    DataItem(AreaCode(n.area), S7_WL_BYTE, 0, n.areaNumber, sh[n].startByte, sh[n].readBytes, sh[n].buffer)
  }

  /** The data items describe the read items of the telegram, one by one. */
  ghost predicate Describes(ds: seq<DataItem>, pdu: seq<ReadItem>, sh: Places) {
    && |pdu| <= |ds| && (forall k | 0 <= k < |pdu| :: pdu[k] in sh)
    && forall k | 0 <= k < |pdu| :: ds[k] == AskedItem(pdu[k], sh).(result := ds[k].result)
  }

  ghost function SizesOf(pdu: seq<ReadItem>, sh: Places): (sizes: seq<nat>)
    requires forall n | n in pdu :: Askable(n, sh)
    ensures |sizes| == |pdu| && forall k | 0 <= k < |pdu| :: pdu[k] in sh && sizes[k] == sh[pdu[k]].readBytes
  {
    assert forall k | 0 <= k < |pdu| :: Askable(pdu[k], sh);
    if pdu == [] then [] else SizesOf(pdu[..|pdu| - 1], sh) + [sh[pdu[|pdu| - 1]].readBytes]
  }

  /** A telegram with these items keeps the limits of the PLC, for the request and for the response. */
  ghost predicate WithinLimits(pdu: seq<ReadItem>, sh: Places, pduLength: int) {
    && (forall n | n in pdu :: Askable(n, sh))
    && 0 < |pdu| <= MAX_VARS && 12 + 12 * |pdu| <= pduLength && 14 + Room(SizesOf(pdu, sh)) <= pduLength
  }

  /** Stores in the read items what has become of the data items. */
  method ProcessPlcReadResult(dataItems: array<DataItem>, correspondingItems: seq<ReadItem>, ghost sh: Places)
    requires Current(sh) && ReadItems.Separate(sh) && NoDuplicates(correspondingItems)
        && |correspondingItems| <= dataItems.Length
    requires forall k | 0 <= k < |correspondingItems| ::
      correspondingItems[k] in sh && dataItems[k].amount == sh[correspondingItems[k]].readBytes
    modifies Results(Members(correspondingItems))
    ensures forall k | 0 <= k < |correspondingItems| ::
      if dataItems[k].result == 0 then Complete(correspondingItems[k], sh)
      else correspondingItems[k].result.status == Error && correspondingItems[k].result.bytesRead == 0
  {
    for pos := 0 to |correspondingItems|
      invariant forall k | 0 <= k < pos ::
        if dataItems[k].result == 0 then Complete(correspondingItems[k], sh)
        else correspondingItems[k].result.status == Error && correspondingItems[k].result.bytesRead == 0
    {
      var readItem := correspondingItems[pos];
      if dataItems[pos].result == 0 {
        var bytesRead := Min(dataItems[pos].amount, readItem.readBytes);
        readItem.SetBytesRead(bytesRead);
      } else {
        readItem.SetErrorStatus(Error);
      }
    }
  }

  ghost predicate Ready(pdu: seq<ReadItem>, sh: Places, client: Client)
    reads client
  {
    && ReadItems.Separate(sh) && NoDuplicates(pdu) && (forall n | n in pdu :: Askable(n, sh))
    && forall n | n in pdu :: sh[n].buffer != client.payload
  }

  /** Reads the items of one telegram into their buffers; the results are in the data items. */
  method FetchTelegram(client: Client, dataItems: array<DataItem>, pdu: seq<ReadItem>,
      ghost sh: Places) returns (status: int)
    requires client.Valid() && Whole(Ready(pdu, sh, client)) && Whole(WithinLimits(pdu, sh, client.PDULength))
    requires Whole(Describes(dataItems[..], pdu, sh))
    modifies client, client.payload, client.plc, dataItems, BuffersOf(Members(pdu), sh)
    ensures client.Valid() && client.plc.memory == old(client.plc.memory)
    ensures Whole(TelegramTold(client.plc.verdicts, old(client.plc.tick), client.plc.tick, status))
    ensures Whole(OnWire(old(client.plc.requests), client.plc.requests, [Packed(pdu)], sh, client.PDULength))
    ensures Whole(AmountsKept(dataItems[..|pdu|], pdu, sh))
    ensures status == 0 ==> Whole(HeldWhereRead(dataItems[..|pdu|], pdu, sh, client.plc.memory))
    ensures Answering(client.PDULength, client.plc.verdicts(old(client.plc.tick))) ==>
              status == 0 && Whole(ReadWherePresent(dataItems[..|pdu|], pdu, sh, client.plc.memory,
                                                    client.plc.verdicts(old(client.plc.tick))))
  {
    ghost var asked, befores, nows := dataItems[..|pdu|], Contents(dataItems[..|pdu|]), [];
    DescribedReadable(asked, pdu, sh, client);
    DescribedUndisturbed(asked, pdu, sh, client.plc.memory, client.PDULength, client.plc.verdicts(client.plc.tick));
    ghost var before, v := client.plc.requests, client.plc.verdicts(client.plc.tick);
    status, nows := client.ReadMultiVars(dataItems, |pdu|, befores);
    ghost var its := dataItems[..|pdu|];
    if status == 0 {
      DeliveredItems(asked, its, pdu, sh, client.plc.memory, befores, nows);
    }
    if Answering(client.PDULength, v) {
      ToldItems(asked, its, pdu, sh, client.plc.memory, v);
    }
    SameAmounts(asked, its, pdu, sh, client.plc.memory, befores, nows, status);
    TelegramOnWire(before, client.plc.requests, asked, its, pdu, sh, client.PDULength);
  }

  lemma SameAmounts(asked: seq<DataItem>, its: seq<DataItem>, pdu: seq<ReadItem>, sh: Places, memory: Memory,
                    befores: seq<seq<byte>>, nows: seq<seq<byte>>, result: int)
    requires Describes(asked, pdu, sh) && |asked| == |pdu|
        && Whole(MultiRead(asked, its, befores, nows, memory, result))
    ensures |its| == |pdu| && Whole(SameButResults(asked, its))
    ensures Whole(AmountsKept(its, pdu, sh))
  {
  }

  ghost predicate AmountsKept(its: seq<DataItem>, pdu: seq<ReadItem>, sh: Places) {
    |its| == |pdu| && forall k | 0 <= k < |pdu| :: pdu[k] in sh && its[k].amount == sh[pdu[k]].readBytes
  }

  /** What has been read without an error is in the buffers of the read items. */
  ghost predicate HeldWhereRead(its: seq<DataItem>, pdu: seq<ReadItem>, sh: Places, memory: Memory)
    reads BuffersOf(Members(pdu), sh)
  {
    |its| == |pdu| && forall k | 0 <= k < |pdu| ::
      && pdu[k] in Members(pdu) && pdu[k] in sh && sh[pdu[k]].buffer in BuffersOf(Members(pdu), sh)
      && (its[k].result == 0 ==> HoldsItem(pdu[k], sh, memory))
  }

  /** An item has been read without an error if and only if the PLC has it and tells no error for it. */
  ghost predicate ReadWherePresent(its: seq<DataItem>, pdu: seq<ReadItem>, sh: Places, memory: Memory, v: Verdict) {
    && v.Served? && |its| == |pdu|
    && forall k | 0 <= k < |pdu| :: its[k].result == 0 <==> v.codes(k) == 0xFF && OnPlc(pdu[k], sh, memory)
  }

  lemma ToldItems(asked: seq<DataItem>, its: seq<DataItem>, pdu: seq<ReadItem>, sh: Places, memory: Memory, v: Verdict)
    requires Describes(asked, pdu, sh) && |asked| == |its| == |pdu| && Conforming(v)
    requires Whole(AllSized(asked, pdu, sh)) && Whole(ResultsTold(asked, its, memory, v))
    requires forall k | 0 <= k < |pdu| && OnPlc(pdu[k], sh, memory) :: Present(asked[k], memory)
    ensures Whole(ReadWherePresent(its, pdu, sh, memory, v))
  {
    forall k | 0 <= k < |pdu| ensures its[k].result == 0 <==> v.codes(k) == 0xFF && OnPlc(pdu[k], sh, memory) {
      if Present(asked[k], memory) {
        CodeOfArea(pdu[k].area);
      }
    }
  }

  /** What a telegram for several items tells. */
  ghost predicate TelegramTold(verdicts: nat -> Verdict, from: nat, to: nat, status: int) {
    to == from + 1 && Tells(ItemsRead, true, verdicts(from), status) && (status == 0 ==> verdicts(from).Served?)
  }

  /** The items are the asked ones, cleared, with results. */
  ghost predicate SameButResults(asked: seq<DataItem>, its: seq<DataItem>) {
    |its| == |asked| && forall k | 0 <= k < |its| :: its[k] == asked[k].Cleared().(result := its[k].result)
  }

  /** Reads the items of one telegram and stores their results. */
  method ReadTelegram(client: Client, dataItems: array<DataItem>, pdu: seq<ReadItem>,
      ghost sh: Places) returns (status: int)
    requires client.Valid() && Current(sh) && Ready(pdu, sh, client) && WithinLimits(pdu, sh, client.PDULength)
    requires Describes(dataItems[..], pdu, sh)
    modifies client, client.payload, client.plc, dataItems, BuffersOf(Members(pdu), sh), Results(Members(pdu))
    ensures client.Valid() && client.plc.memory == old(client.plc.memory)
    ensures Whole(TelegramTold(client.plc.verdicts, old(client.plc.tick), client.plc.tick, status))
    ensures status == 0 ==> forall n | n in pdu :: ReadOk(n, sh, client.plc.memory)
    ensures status != 0 ==> forall n | n in pdu ::
        n.result.status == old(n.result.status) && n.result.bytesRead == old(n.result.bytesRead)
    ensures Whole(OnWire(old(client.plc.requests), client.plc.requests, [Packed(pdu)], sh, client.PDULength))
    ensures Answering(client.PDULength, client.plc.verdicts(old(client.plc.tick))) ==>
              status == 0 && forall k | 0 <= k < |pdu| ::
                if client.plc.verdicts(old(client.plc.tick)).codes(k) == 0xFF && OnPlc(pdu[k], sh, client.plc.memory)
                then Complete(pdu[k], sh) else Failed(pdu[k])
  {
    ghost var v := client.plc.verdicts(client.plc.tick);
    status := FetchTelegram(client, dataItems, pdu, sh);
    ghost var its := dataItems[..|pdu|];
    assert Answering(client.PDULength, v) ==> ReadWherePresent(its, pdu, sh, client.plc.memory, v);
    assert AmountsKept(its, pdu, sh);
    if status == 0 {
      assert forall k | 0 <= k < |pdu| :: dataItems[k] == its[k];
      ProcessPlcReadResult(dataItems, pdu, sh);
      forall n | n in pdu
        ensures ReadOk(n, sh, client.plc.memory)
      {
        var k :| 0 <= k < |pdu| && pdu[k] == n;
        assert its[k].result == 0 ==> HoldsItem(pdu[k], sh, client.plc.memory);
      }
    }
  }

  ghost function Contents(its: seq<DataItem>): (contents: seq<seq<byte>>)
    reads Targets(its)
    ensures Whole(Holding(its, contents))
  {
    seq(|its|, k requires 0 <= k < |its| reads Targets(its) => its[k].pdata[..])
  }

  /** The PLC answers the telegram, and responses fit into the buffer. */
  ghost predicate Answering(pduLength: int, v: Verdict) {
    v.Served? && pduLength <= ISO_PAYLOAD_SIZE
  }

  /** The data items fill the buffers of the read items. */
  ghost predicate AllSized(its: seq<DataItem>, pdu: seq<ReadItem>, sh: Places) {
    && |its| == |pdu|
    && forall k | 0 <= k < |its| ::
         pdu[k] in sh && Readable(its[k]) && its[k].Size() == sh[pdu[k]].readBytes == sh[pdu[k]].buffer.Length
  }

  lemma DescribedReadable(its: seq<DataItem>, pdu: seq<ReadItem>, sh: Places, client: Client)
    requires Whole(Ready(pdu, sh, client)) && Describes(its, pdu, sh) && |its| == |pdu|
    ensures Whole(SeparateTargets(its, client.payload)) && Targets(its) == BuffersOf(Members(pdu), sh)
    ensures Whole(AllReadable(its)) && Whole(AllSized(its, pdu, sh))
  {
    assert forall k | 0 <= k < |its| :: Askable(pdu[k], sh);
    forall b | b in BuffersOf(Members(pdu), sh) ensures b in Targets(its) {
      var k :| 0 <= k < |pdu| && sh[pdu[k]].buffer == b;
      assert its[k].pdata == b;
    }
  }

  lemma DescribedUndisturbed(its: seq<DataItem>, pdu: seq<ReadItem>, sh: Places, memory: Memory, pduLength: int,
      v: Verdict)
    requires Describes(its, pdu, sh) && |its| == |pdu| && WithinLimits(pdu, sh, pduLength)
    requires Whole(AllSized(its, pdu, sh))
    ensures Answering(pduLength, v) ==> Whole(Undisturbed(its, pduLength, v))
    ensures forall k | 0 <= k < |its| && OnPlc(pdu[k], sh, memory) :: Present(its[k], memory)
  {
    assert Sizes(its) == SizesOf(pdu, sh);
    forall k | 0 <= k < |its| && OnPlc(pdu[k], sh, memory) ensures Present(its[k], memory) {
      AreaKnown(pdu[k].area);
    }
  }

  /** An area that the client knows by its code is the area of the driver. */
  lemma CodeOfArea(area: Area)
    requires AreaCode(area) as int in KnownAreas()
    ensures KnownAreas()[AreaCode(area) as int] == area
  {
  }

  /** Items without an error hold what the PLC stores. */
  lemma DeliveredItems(asked: seq<DataItem>, its: seq<DataItem>, pdu: seq<ReadItem>, sh: Places, memory: Memory,
                       befores: seq<seq<byte>>, nows: seq<seq<byte>>)
    requires Describes(asked, pdu, sh) && |asked| == |pdu| && Whole(Holding(its, nows))
    requires Whole(AllSized(asked, pdu, sh)) && Whole(MultiRead(asked, its, befores, nows, memory, 0))
    ensures Whole(HeldWhereRead(its, pdu, sh, memory))
  {
    forall k | 0 <= k < |its| && its[k].result == 0 ensures HoldsItem(pdu[k], sh, memory) {
      assert Delivered(its[k], befores[k], nows[k], memory) && its[k].pdata[..] == nows[k];
      CodeOfArea(pdu[k].area);
      assert nows[k][..its[k].Size()] == nows[k];
    }
  }

  // ---------- what is sent ----------

  /** What a telegram on the wire is for: several items at once, or a part of an item that is read alone. */
  datatype Sent = Packed(items: seq<ReadItem>) | Part(item: ReadItem)

  /** The bytes of the telegram are those for it, and request and response keep the limits. */
  ghost predicate SentAs(req: seq<byte>, s: Sent, sh: Places, pduLength: int) {
    match s
    case Packed(items) =>
      && WithinLimits(items, sh, pduLength) && (forall k | 0 <= k < |items| :: items[k] in sh)
      && IsReadOf(req, seq(|items|, k requires 0 <= k < |items| => AskedItem(items[k], sh).Cleared()))
    case Part(n) =>
      n in sh && AsksSlice(req, AreaCode(n.area), n.areaNumber, S7_WL_BYTE, sh[n].startByte, sh[n].readBytes, pduLength)
  }

  /** The telegrams since then are these, one by one. */
  ghost predicate OnWire(before: seq<seq<byte>>, now: seq<seq<byte>>, wire: seq<Sent>, sh: Places, pduLength: int) {
    && |now| == |before| + |wire| && now[..|before|] == before
    && forall k {:trigger SentAs(now[|before|..][k], wire[k], sh, pduLength)} | 0 <= k < |wire| ::
        SentAs(now[|before|..][k], wire[k], sh, pduLength)
  }

  lemma WireGrows(first: seq<seq<byte>>, before: seq<seq<byte>>, now: seq<seq<byte>>, wire: seq<Sent>,
      more: seq<Sent>, sh: Places, pduLength: int)
    requires Whole(OnWire(first, before, wire, sh, pduLength)) && Whole(OnWire(before, now, more, sh, pduLength))
    ensures Whole(OnWire(first, now, wire + more, sh, pduLength))
  {
    assert now[..|first|] == now[..|before|][..|first|];
    forall k | 0 <= k < |wire + more| ensures SentAs(now[|first|..][k], (wire + more)[k], sh, pduLength) {
      if k < |wire| {
        assert SentAs(before[|first|..][k], wire[k], sh, pduLength) && now[..|before|][|first| + k] == now[|first| + k];
      } else {
        assert SentAs(now[|before|..][k - |wire|], more[k - |wire|], sh, pduLength);
      }
    }
  }

  lemma NothingOnWire(now: seq<seq<byte>>, item: ReadItem, sh: Places, pduLength: int)
    ensures Whole(OnWire(now, now, Parts(item, 0), sh, pduLength))
  {
  }

  lemma TelegramOnWire(before: seq<seq<byte>>, now: seq<seq<byte>>, asked: seq<DataItem>, its: seq<DataItem>,
      pdu: seq<ReadItem>, sh: Places, pduLength: int)
    requires Whole(AskedFor(before, now, its)) && Describes(asked, pdu, sh) && |asked| == |pdu|
        && Whole(SameButResults(asked, its))
    requires WithinLimits(pdu, sh, pduLength)
    ensures Whole(OnWire(before, now, [Packed(pdu)], sh, pduLength))
  {
    var req, items := now[|before|], seq(|pdu|, k requires 0 <= k < |pdu| => AskedItem(pdu[k], sh).Cleared());
    forall k | 0 <= k < |pdu| ensures Refers(req, k, items[k]) {
      assert Refers(req, k, its[k]);
    }
    assert now[|before|..][0] == req && SentAs(req, Packed(pdu), sh, pduLength);
  }

  ghost function Parts(item: ReadItem, n: nat): seq<Sent> {
    seq(n, _ => Part(item))
  }

  lemma PartsOnWire(before: seq<seq<byte>>, now: seq<seq<byte>>, item: ReadItem, sh: Places, pduLength: int)
    requires item in sh
    requires Whole(SlicesAsked(before, now, AreaCode(item.area), item.areaNumber, S7_WL_BYTE, sh[item].startByte,
        sh[item].readBytes, pduLength))
    ensures |before| <= |now| && Whole(OnWire(before, now, Parts(item, |now| - |before|), sh, pduLength))
  {
    forall k | 0 <= k < |now| - |before| ensures SentAs(now[|before|..][k], Part(item), sh, pduLength) {
      assert AsksSlice(now[|before| + k], AreaCode(item.area), item.areaNumber, S7_WL_BYTE, sh[item].startByte,
          sh[item].readBytes, pduLength);
    }
  }

  /** The telegrams with several items among those sent. */
  ghost function PackedIn(wire: seq<Sent>): seq<seq<ReadItem>> {
    if wire == [] then [] else
      var last := wire[|wire| - 1];
      PackedIn(wire[..|wire| - 1]) + if last.Packed? then [last.items] else []
  }

  lemma {:induction false} PackedInParts(wire: seq<Sent>, item: ReadItem, n: nat)
    ensures PackedIn(wire + Parts(item, n)) == PackedIn(wire)
    decreases n
  {
    if n == 0 {
      assert wire + Parts(item, 0) == wire;
    } else {
      PackedInParts(wire, item, n - 1);
      assert (wire + Parts(item, n))[..|wire| + n - 1] == wire + Parts(item, n - 1);
    }
  }

  // ---------- packing ----------

  function MaxItemsPerRequest(pduLength: int): int {
    Min((pduLength - 12) / 12, MAX_VARS)
  }

  /** What has happened to the items: in telegrams, skipped because there is nothing to read, or read on their own. */
  datatype Telegram = Telegram(items: seq<ReadItem>, left: set<ReadItem>)

  /** A telegram keeps the limits, and none of the items that are left could have been in it as well. */
  ghost predicate FullTelegram(t: Telegram, sh: Places, pduLength: int) {
    && WithinLimits(t.items, sh, pduLength)
    && (|t.items| == MaxItemsPerRequest(pduLength)
        || forall n | n in t.left :: n in sh && (sh[n].readBytes == 0
             || 14 + Room(SizesOf(t.items, sh)) + WireBytes(sh[n].readBytes) > pduLength))
  }

  /** What the packer knows about its lists between two rounds. */
  ghost predicate Packing(all: set<ReadItem>, items: seq<ReadItem>, pdu: seq<ReadItem>, i: int, bytesLeft: int,
      itemsLeft: int, haveSent: bool, sh: Places, pduLength: int) {
    && NoDuplicates(items) && NoDuplicates(pdu) && Members(items) !! Members(pdu)
        && Members(items) + Members(pdu) <= all
    && (forall n | n in all :: Askable(n, sh))
    && 0 <= i <= |items|
    && 0 <= bytesLeft == pduLength - 14 - Room(SizesOf(pdu, sh))
    && 0 <= itemsLeft == MaxItemsPerRequest(pduLength) - |pdu|
    && (pdu == [] && !haveSent ==> i == 0)
    && (!haveSent ==> forall k | 0 <= k < i :: items[k] in sh && WireBytes(sh[items[k]].readBytes) > bytesLeft)
  }

  /** What is assumed about a run of the packer, what had been sent before it, and the results of the items then. */
  datatype Run = Run(pduLength: int, answered: bool, faithful: bool, calm: bool, tick: nat, sent: seq<seq<byte>>,
                     initial: map<ReadItem, (AsynStatus, int)>)

  /** Not even an empty telegram has room for the item. */
  ghost predicate TooLong(n: ReadItem, sh: Places, pduLength: int) {
    n in sh && WireBytes(sh[n].readBytes) > pduLength - 14
  }

  /**
   * What has become of the items. Those still to be read have the result that they had at the start,
   * or, after a failure, no bytes; those that are too long for a telegram never get another result,
   * although their bytes arrive. The others have a proper one: if the PLC tells no errors about what
   * it has, they have been read if the PLC has them, and have an error otherwise, unless they are empty.
   */
  ghost predicate Progress(all: set<ReadItem>, todo: set<ReadItem>, sh: Places, memory: Memory, run: Run, reset: bool)
    reads Results(all), BuffersOf(all, sh)
  {
    forall n | n in all :: n in sh && ItemProgress(n, n in todo, sh, memory, run, reset)
  }

  ghost predicate ItemProgress(n: ReadItem, waiting: bool, sh: Places, memory: Memory, run: Run, reset: bool)
    requires n in sh
    reads n.result, sh[n].buffer
  {
    if waiting then Waits(n, run, reset)
    else if TooLong(n, sh, run.pduLength) then Waits(n, run, false) && HoldsItem(n, sh, memory)
    else ReadOk(n, sh, memory) && (run.faithful ==> ReadOrFailed(n, sh, memory))
  }

  ghost predicate Waits(n: ReadItem, run: Run, reset: bool)
    reads n.result
  {
    if reset then Unread(n) else n in run.initial && run.initial[n] == (n.result.status, n.result.bytesRead)
  }

  /** What becomes of an item that has been read with others, if the PLC tells no errors about what it has. */
  ghost predicate ReadOrFailed(n: ReadItem, sh: Places, memory: Memory)
    requires n in sh
    reads n.result
  {
    if OnPlc(n, sh, memory) then Complete(n, sh) else sh[n].readBytes == 0 || Failed(n)
  }

  /**
   * Whether the PLC answers all telegrams of a run, tells no errors about what it has, and, in a
   * calm run, does both and has all items that are too long for a telegram.
   */
  ghost predicate RunOk(all: set<ReadItem>, sh: Places, memory: Memory, plc: Plc, run: Run) {
    && (run.answered ==> plc.ServedFrom(run.tick) && run.pduLength <= ISO_PAYLOAD_SIZE)
    && (run.faithful ==> plc.FaithfulFrom(run.tick) && run.pduLength <= ISO_PAYLOAD_SIZE)
    && (run.calm ==> run.answered && run.faithful && LongOnPlc(all, sh, memory, run.pduLength))
  }

  ghost predicate LongOnPlc(all: set<ReadItem>, sh: Places, memory: Memory, pduLength: int) {
    forall n | n in all && TooLong(n, sh, pduLength) :: OnPlc(n, sh, memory)
  }

  /** The items have results and buffers of their own, apart from the buffer of the client. */
  ghost predicate Isolated(all: set<ReadItem>, sh: Places, client: Client) {
    && ReadItems.Separate(sh) && (forall n | n in all :: Askable(n, sh)) && forall n | n in sh ::
        sh[n].buffer != client.payload
  }

  /** What does not change while items are packed. */
  ghost predicate Setting(client: Client, all: set<ReadItem>, sh: Places, run: Run)
    reads client, client.plc, sh.Keys
  {
    && client.Valid() && Current(sh) && Isolated(all, sh, client) && run.tick <= client.plc.tick
        && 24 <= client.PDULength == run.pduLength
    && RunOk(all, sh, client.plc.memory, client.plc, run)
  }

  method SendTelegram(client: Client, dataItems: array<DataItem>, pdu: seq<ReadItem>, ghost all: set<ReadItem>,
      ghost todo: set<ReadItem>, ghost sh: Places, ghost run: Run)
      returns (status: int)
    requires Whole(Setting(client, all, sh, run))
    requires NoDuplicates(pdu) && Whole(WithinLimits(pdu, sh, client.PDULength))
        && Whole(Describes(dataItems[..], pdu, sh))
    requires Members(pdu) <= todo <= all && Whole(Progress(all, todo, sh, client.plc.memory, run, false))
    modifies client, client.payload, client.plc, dataItems, BuffersOf(all, sh), Results(all)
    ensures Whole(Setting(client, all, sh, run)) && client.plc.memory == old(client.plc.memory)
    ensures Whole(TelegramTold(client.plc.verdicts, old(client.plc.tick), client.plc.tick, status))
    ensures Whole(OnWire(old(client.plc.requests), client.plc.requests, [Packed(pdu)], sh, client.PDULength))
    ensures Whole(Progress(all, if status == 0 then todo - Members(pdu) else todo, sh, client.plc.memory, run, false))
    ensures forall n | n in all && n in sh && n !in pdu :: ResultOf(n, sh) == old(ResultOf(n, sh))
    ensures run.answered ==> status == 0
  {
    forall n | n in pdu ensures n in Members(pdu) && !TooLong(n, sh, client.PDULength) {
      FitsAlone(pdu, n, sh, client.PDULength);
    }
    status := ReadTelegram(client, dataItems, pdu, sh);
    ghost var left := if status == 0 then todo - Members(pdu) else todo;
    forall n | n in all
      ensures n in sh && ItemProgress(n, n in left, sh, client.plc.memory, run, false)
      ensures n !in pdu ==> ResultOf(n, sh) == old(ResultOf(n, sh))
    {
      if n !in pdu {
        assert n.result !in Results(Members(pdu)) && sh[n].buffer !in BuffersOf(Members(pdu), sh);
      } else {
        assert n in Members(pdu) && old(ItemProgress(n, true, sh, client.plc.memory, run, false));
      }
    }
  }

  /** An item that is in a telegram with others also fits into one on its own. */
  lemma FitsAlone(pdu: seq<ReadItem>, n: ReadItem, sh: Places, pduLength: int)
    requires WithinLimits(pdu, sh, pduLength) && n in pdu
    ensures !TooLong(n, sh, pduLength)
  {
    var k :| 0 <= k < |pdu| && pdu[k] == n;
    RoomForEach(SizesOf(pdu, sh), k);
  }

  lemma {:induction false} RoomForEach(sizes: seq<nat>, k: nat)
    requires k < |sizes|
    ensures WireBytes(sizes[k]) <= Room(sizes)
    decreases |sizes|
  {
    if k < |sizes| - 1 {
      RoomForEach(sizes[..|sizes| - 1], k);
    }
  }

  method SkipItem(item: ReadItem, ghost all: set<ReadItem>, ghost todo: set<ReadItem>, ghost sh: Places,
      ghost memory: Memory, ghost run: Run)
    requires ReadItems.Separate(sh) && item in todo && todo <= all && Progress(all, todo, sh, memory, run, false)
        && sh[item].readBytes == 0
             && 24 <= run.pduLength
    modifies item.result
    ensures Progress(all, todo - {item}, sh, memory, run, false)
  {
    item.SetBytesRead(0);
  }

  /** Reads an item that does not fit into a telegram; the bytes arrive, but the item does not learn about it. */
  method ReadAlone(client: Client, item: ReadItem, ghost all: set<ReadItem>, ghost todo: set<ReadItem>,
      ghost sh: Places, ghost run: Run)
      returns (status: int, ghost parts: nat)
    requires Whole(Setting(client, all, sh, run)) && sh.Keys >= {item} && TooLong(item, sh, client.PDULength)
    requires item in todo && todo <= all && Progress(all, todo, sh, client.plc.memory, run, false)
    modifies client, client.payload, client.plc, sh[item].buffer
    ensures Whole(Setting(client, all, sh, run)) && client.plc.memory == old(client.plc.memory)
        && old(client.plc.tick) <= client.plc.tick
    ensures Progress(all, todo, sh, client.plc.memory, run, false)
    ensures Whole(OnWire(old(client.plc.requests), client.plc.requests, Parts(item, parts), sh, client.PDULength))
    ensures Whole(PartsTold(client.plc.verdicts, old(client.plc.tick), client.plc.tick, parts, status)) && parts > 0
    ensures status == 0 ==> HoldsItem(item, sh, client.plc.memory)
    ensures run.calm ==> status == 0
  {
    ghost var got, before := 0, client.plc.requests;
    if run.calm {
      AreaKnown(item.area);
    }
    status, got := client.ReadArea(AreaCode(item.area), item.areaNumber, item.startByte, item.readBytes, S7_WL_BYTE,
        item.buffer);
    if status == 0 {
      CodeOfArea(item.area);
      assert item.buffer[..got] == item.buffer[..];
    }
    PartsOnWire(before, client.plc.requests, item, sh, client.PDULength);
    parts := |client.plc.requests| - |before|;
  }

  /** What the telegrams tell that have been sent for one item alone. */
  ghost predicate PartsTold(verdicts: nat -> Verdict, from: nat, to: nat, parts: nat, status: int) {
    to == from + parts && SeriesOf(AreaRead, verdicts, from, to, status) && (status != 0 ==> parts > 0)
  }

  lemma NoParts(verdicts: nat -> Verdict, from: nat)
    ensures Whole(PartsTold(verdicts, from, from, 0, 0))
  {
  }

  /** The operations that have sent the telegrams. */
  ghost function OpsOf(wire: seq<Sent>): (ops: seq<Operation>)
    ensures |ops| == |wire|
  {
    seq(|wire|, k requires 0 <= k < |wire| => if wire[k].Packed? then ItemsRead else AreaRead)
  }

  /** The telegrams of the history tell the status: none follows one that has failed. */
  ghost predicate Reported(verdicts: nat -> Verdict, from: nat, to: nat, h: History, status: int) {
    && to == from + |h.wire + h.failed| && Series(verdicts, from, OpsOf(h.wire + h.failed), status)
    && (status != 0 ==> h.failed != [])
  }

  /** Two series of reads one after the other are one series, if the first one has not failed. */
  lemma SeriesJoin(verdicts: nat -> Verdict, from: nat, a: seq<Operation>, b: seq<Operation>, result: int)
    requires Series(verdicts, from, a, 0) && Series(verdicts, from + |a|, b, result)
    requires (b == [] ==> result == 0) && AreaWrite !in b
    ensures Series(verdicts, from, a + b, result)
  {
    var ops := a + b;
    forall k | 0 <= k < |ops| && (k < |ops| - 1 || result == 0) ensures GoesOn(ops[k], verdicts(from + k)) {
      if k < |a| {
        assert GoesOn(a[k], verdicts(from + k));
      } else {
        var j := k - |a|;
        assert j < |b| - 1 ==> b[..|b| - 1][j] == b[j];
        assert GoesOn(b[j], verdicts(from + |a| + j));
      }
    }
    if b == [] {
      assert ops == a;
    } else {
      assert b[|b| - 1] in b;
    }
  }

  /** More telegrams of the run tell the status. */
  lemma ReportedMore(verdicts: nat -> Verdict, from: nat, at: nat, to: nat, h: History, more: seq<Sent>, after: History,
                     status: int)
    requires Whole(Reported(verdicts, from, at, h, 0)) && h.failed == []
    requires to == at + |more| && Series(verdicts, at, OpsOf(more), status) && (more == [] ==> status == 0)
    requires after.wire + after.failed == h.wire + more && (status != 0 ==> after.failed != [])
    ensures Whole(Reported(verdicts, from, to, after, status))
  {
    assert h.wire + h.failed == h.wire;
    SeriesJoin(verdicts, from, OpsOf(h.wire), OpsOf(more), status);
    assert OpsOf(h.wire + more) == OpsOf(h.wire) + OpsOf(more);
  }

  /**
   * What has become of the items that are no longer to be read, all telegrams that have
   * been sent for them, and those that have been sent in vain in the end.
   */
  datatype History = History(telegrams: seq<Telegram>, skipped: set<ReadItem>, alone: set<ReadItem>, wire: seq<Sent>,
      failed: seq<Sent>)

  ghost function ItemLists(telegrams: seq<Telegram>): seq<seq<ReadItem>> {
    seq(|telegrams|, k requires 0 <= k < |telegrams| => telegrams[k].items)
  }

  ghost function SentIn(telegrams: seq<Telegram>): set<ReadItem> {
    set t, n | t in telegrams && n in t.items :: n
  }

  /** Later telegrams hold nothing but items that earlier ones have left. */
  ghost predicate InTurn(telegrams: seq<Telegram>) {
    && (forall j | 0 <= j < |telegrams| ::
          NoDuplicates(telegrams[j].items) && Members(telegrams[j].items) !! telegrams[j].left)
    && (forall i, j | 0 <= i < j < |telegrams| :: Members(telegrams[j].items) + telegrams[j].left <= telegrams[i].left)
  }

  /**
   * Every item has been in exactly one telegram, has been skipped as there is nothing
   * to read, has been read alone as it is too long, or is still to be read. What has been
   * sent are these telegrams, in order, and the parts of the items that are read alone.
   */
  ghost predicate Accounted(all: set<ReadItem>, todo: set<ReadItem>, h: History, sh: Places, pduLength: int) {
    ItemsAccounted(all, todo, h, sh, pduLength) && WireAccounted(todo, h)
  }

  ghost predicate ItemsAccounted(all: set<ReadItem>, todo: set<ReadItem>, h: History, sh: Places, pduLength: int) {
    && (forall t | t in h.telegrams :: FullTelegram(t, sh, pduLength) && todo <= t.left) && InTurn(h.telegrams)
    && all == SentIn(h.telegrams) + h.skipped + h.alone + todo
    && SentIn(h.telegrams) !! h.skipped !! h.alone !! todo
    && (forall n | n in h.skipped :: n in sh && sh[n].readBytes == 0)
    && (forall n | n in h.alone :: TooLong(n, sh, pduLength))
  }

  ghost predicate WireAccounted(todo: set<ReadItem>, h: History) {
    && PackedIn(h.wire) == ItemLists(h.telegrams) && (forall s | s in h.wire && s.Part? :: s.item in h.alone)
    && (forall s | s in h.failed :: if s.Packed? then Members(s.items) <= todo else s.item in todo)
  }

  lemma AccountItems(all: set<ReadItem>, todo: set<ReadItem>, h: History, sh: Places, pduLength: int, t: Telegram,
      after: History)
    requires ItemsAccounted(all, todo, h, sh, pduLength) && Members(t.items) <= todo && NoDuplicates(t.items)
    requires t.left == todo - Members(t.items) && Whole(FullTelegram(t, sh, pduLength))
    requires after.telegrams == h.telegrams + [t] && after.skipped == h.skipped && after.alone == h.alone
    ensures Whole(ItemsAccounted(all, t.left, after, sh, pduLength))
  {
    OneMoreInTurn(h.telegrams, t, todo);
    MovedOver(all, SentIn(h.telegrams), h.skipped, h.alone, todo, Members(t.items));
    forall u | u in after.telegrams ensures FullTelegram(u, sh, pduLength) && t.left <= u.left {
      assert u == t || u in h.telegrams;
    }
  }

  /** Some of what is left moves to what has been sent. */
  lemma MovedOver<T>(all: set<T>, sent: set<T>, skipped: set<T>, alone: set<T>, todo: set<T>, some: set<T>)
    requires all == sent + skipped + alone + todo && sent !! skipped !! alone !! todo && some <= todo
    ensures all == (sent + some) + skipped + alone + (todo - some) && (sent + some) !! skipped !! alone !! (todo - some)
  {
  }

  lemma AccountTelegram(all: set<ReadItem>, todo: set<ReadItem>, h: History, sh: Places, pduLength: int,
      pdu: seq<ReadItem>)
    requires Whole(Accounted(all, todo, h, sh, pduLength)) && Members(pdu) <= todo && NoDuplicates(pdu)
        && h.failed == []
    requires Whole(FullTelegram(Telegram(pdu, todo - Members(pdu)), sh, pduLength))
    ensures Whole(Accounted(all, todo - Members(pdu),
        h.(telegrams := h.telegrams + [Telegram(pdu, todo - Members(pdu))],
                                                        wire := h.wire + [Packed(pdu)]), sh, pduLength))
  {
    var t := Telegram(pdu, todo - Members(pdu));
    var after := h.(telegrams := h.telegrams + [t], wire := h.wire + [Packed(pdu)]);
    AccountItems(all, todo, h, sh, pduLength, t, after);
    OneMorePacked(h.wire, h.telegrams, t);
  }

  /** A telegram that the PLC has not answered properly: its items are still to be read. */
  lemma AccountFailure(all: set<ReadItem>, todo: set<ReadItem>, h: History, sh: Places, pduLength: int,
      failed: seq<Sent>)
    requires Whole(Accounted(all, todo, h, sh, pduLength))
    requires forall s | s in failed :: if s.Packed? then Members(s.items) <= todo else s.item in todo
    ensures Whole(Accounted(all, todo, h.(failed := failed), sh, pduLength))
  {
  }

  lemma OneMoreInTurn(telegrams: seq<Telegram>, t: Telegram, todo: set<ReadItem>)
    requires InTurn(telegrams) && (forall u | u in telegrams :: todo <= u.left)
    requires NoDuplicates(t.items) && Members(t.items) <= todo && t.left == todo - Members(t.items)
    ensures Whole(InTurn(telegrams + [t])) && SentIn(telegrams + [t]) == SentIn(telegrams) + Members(t.items)
  {
    var more := telegrams + [t];
    forall i, j | 0 <= i < j < |more| ensures Members(more[j].items) + more[j].left <= more[i].left {
      assert more[i] in telegrams;
    }
  }

  lemma OneMorePacked(wire: seq<Sent>, telegrams: seq<Telegram>, t: Telegram)
    requires PackedIn(wire) == ItemLists(telegrams)
    ensures PackedIn(wire + [Packed(t.items)]) == ItemLists(telegrams + [t])
  {
    assert (wire + [Packed(t.items)])[..|wire|] == wire;
    assert ItemLists(telegrams + [t]) == ItemLists(telegrams) + [t.items];
  }

  /** A telegram that is sent now is full: nothing of what is left fits. */
  lemma SendingFull(all: set<ReadItem>, items: seq<ReadItem>, pdu: seq<ReadItem>, i: int, bytesLeft: int,
      itemsLeft: int, haveSent: bool, sh: Places, pduLength: int)
    requires Packing(all, items, pdu, i, bytesLeft, itemsLeft, haveSent, sh, pduLength) && 24 <= pduLength
        && (items != [] || pdu != [])
    requires itemsLeft <= 0 || bytesLeft < 6 || (i == |items| && !haveSent) || items == []
    ensures FullTelegram(Telegram(pdu, Members(items)), sh, pduLength)
    ensures Packing(all, items, [], i, pduLength - 14, MaxItemsPerRequest(pduLength), true, sh, pduLength)
  {
    assert forall n | n in pdu :: n in Members(pdu);
    if itemsLeft > 0 {
      forall n | n in Members(items) ensures n in sh
          && (sh[n].readBytes == 0 || WireBytes(sh[n].readBytes) > bytesLeft) {
        var k :| 0 <= k < |items| && items[k] == n;
      }
    }
  }

  /** An item that is taken off the list. */
  lemma TakeOff(items: seq<ReadItem>, i: nat)
    requires NoDuplicates(items) && i < |items|
    ensures NoDuplicates(Erased(items, i)) && Members(Erased(items, i)) == Members(items) - {items[i]}
  {
  }

  lemma PackedMore(all: set<ReadItem>, items: seq<ReadItem>, pdu: seq<ReadItem>, i: int, bytesLeft: int, itemsLeft: int,
                   haveSent: bool, sh: Places, pduLength: int)
    requires Packing(all, items, pdu, i, bytesLeft, itemsLeft, haveSent, sh, pduLength) && i < |items| && itemsLeft > 0
    requires items[i] in Members(items) && WireBytes(sh[items[i]].readBytes) <= bytesLeft
    ensures Packing(all, Erased(items, i), pdu + [items[i]], i, bytesLeft - WireBytes(sh[items[i]].readBytes),
                    itemsLeft - 1, haveSent, sh, pduLength)
    ensures Members(pdu + [items[i]]) == Members(pdu) + {items[i]}
  {
    TakeOff(items, i);
    forall n | n in pdu ensures n in Members(pdu) && Askable(n, sh) && n != items[i] {
      assert n in Members(pdu);
    }
    LongerTelegram(pdu, items[i], sh);
    MovedAcross(all, Members(items), Members(pdu), items[i]);
  }

  lemma MovedAcross<T>(all: set<T>, from: set<T>, to: set<T>, x: T)
    requires from !! to && from + to <= all && x in from
    ensures (from - {x}) !! (to + {x}) && (from - {x}) + (to + {x}) == from + to
  {
  }

  /** One more item in a telegram. */
  lemma LongerTelegram(pdu: seq<ReadItem>, item: ReadItem, sh: Places)
    requires (forall n | n in pdu :: Askable(n, sh)) && Askable(item, sh) && NoDuplicates(pdu) && item !in pdu
    ensures var more := pdu + [item];
            && NoDuplicates(more) && Members(more) == Members(pdu) + {item} && (forall n | n in more :: Askable(n, sh))
            && Room(SizesOf(more, sh)) == Room(SizesOf(pdu, sh)) + WireBytes(sh[item].readBytes)
  {
    var more := pdu + [item];
    assert more[..|more| - 1] == pdu;
    assert SizesOf(more, sh)[..|more| - 1] == SizesOf(pdu, sh);
  }

  /** After an error, nothing has been read for the remaining items. */
  method ResetAll(items: seq<ReadItem>, ghost client: Client, ghost all: set<ReadItem>, ghost todo: set<ReadItem>,
                  ghost sh: Places, ghost run: Run)
    requires Whole(Setting(client, all, sh, run)) && Members(items) == todo <= all
    requires Progress(all, todo, sh, client.plc.memory, run, false)
    modifies Results(Members(items))
    ensures Whole(Setting(client, all, sh, run)) && Whole(Progress(all, todo, sh, client.plc.memory, run, true))
  {
    assert ReadItems.Separate(sh) && forall n | n in all :: n in sh by {
      assert Setting(client, all, sh, run);
    }
    for k := 0 to |items|
      invariant Whole(Setting(client, all, sh, run)) && forall j | 0 <= j < k :: Unread(items[j])
      invariant forall n | n in all && n !in todo ::
        n.result.status == old(n.result.status) && n.result.bytesRead == old(n.result.bytesRead)
    {
      assert items[k] in Members(items);
      items[k].SetBytesRead(0);
    }
  }

  /** The lists of the packer and what it knows about the room in the telegram. */
  datatype Lists = Lists(items: seq<ReadItem>, pdu: seq<ReadItem>, i: int, bytesLeft: int, itemsLeft: int)
  {
    ghost function Todo(): set<ReadItem> { Members(items) + Members(pdu) }
  }

  ghost predicate PackingLists(all: set<ReadItem>, l: Lists, haveSent: bool, sh: Places, pduLength: int) {
    match l
    case Lists(items, pdu, i, bytesLeft, itemsLeft) => Packing(all, items, pdu, i, bytesLeft, itemsLeft, haveSent, sh,
        pduLength)
  }

  /** The next item is one of all items. */
  lemma NextItem(all: set<ReadItem>, l: Lists, haveSent: bool, sh: Places, pduLength: int)
    requires PackingLists(all, l, haveSent, sh, pduLength) && 0 <= l.i < |l.items|
    ensures l.items[l.i] in all && Askable(l.items[l.i], sh)
  {
    assert l.items[l.i] in Members(l.items);
  }

  lemma DroppedItem(all: set<ReadItem>, l: Lists, haveSent: bool, sh: Places, pduLength: int)
    requires PackingLists(all, l, haveSent, sh, pduLength) && 0 <= l.i < |l.items|
    ensures var m := l.(items := Erased(l.items, l.i));
            PackingLists(all, m, haveSent, sh, pduLength) && m.Todo() == l.Todo() - {l.items[l.i]}
                && |m.items| == |l.items| - 1
    ensures l.items[l.i] in l.Todo()
  {
    assert l.items[l.i] in Members(l.items);
    TakeOff(l.items, l.i);
  }

  /** An item that does not fit into what is left of a telegram stays on the list. */
  lemma PassItem(all: set<ReadItem>, l: Lists, haveSent: bool, sh: Places, pduLength: int)
    requires PackingLists(all, l, haveSent, sh, pduLength) && 0 <= l.i < |l.items| && l.bytesLeft != pduLength - 14
    requires l.items[l.i] in sh && WireBytes(sh[l.items[l.i]].readBytes) > l.bytesLeft
    ensures PackingLists(all, l.(i := l.i + 1), haveSent, sh, pduLength) && l.(i := l.i + 1).Todo() == l.Todo()
  {
    assert forall n | n in l.pdu :: n in Members(l.pdu);
    assert |SizesOf(l.pdu, sh)| == |l.pdu|;
  }

  /**
   * What is to be read stays, or the next item is no longer to be read: it is empty or, after
   * telegrams of its own, too long.
   */
  ghost predicate ItemStep(l: Lists, next: Lists, status: int, parts: nat, sh: Places, pduLength: int) {
    && (parts > 0 || next.Todo() != l.Todo() ==> 0 <= l.i < |l.items| && l.items[l.i] in sh && l.items[l.i] in l.Todo())
    && (parts > 0 ==> TooLong(l.items[l.i], sh, pduLength) && (status == 0 <==> next.Todo() != l.Todo()))
    && (next.Todo() != l.Todo() ==>
          && next.Todo() == l.Todo() - {l.items[l.i]}
          && (TooLong(l.items[l.i], sh, pduLength) || (parts == 0 && sh[l.items[l.i]].readBytes == 0)))
  }

  lemma AccountStep(all: set<ReadItem>, l: Lists, next: Lists, status: int, parts: nat, h: History, sh: Places,
      pduLength: int)
    returns (after: History)
    requires Whole(Accounted(all, l.Todo(), h, sh, pduLength)) && h.failed == []
        && Whole(ItemStep(l, next, status, parts, sh, pduLength))
    requires 0 <= l.i < |l.items|
    ensures Whole(Accounted(all, next.Todo(), after, sh, pduLength))
        && after.wire + after.failed == h.wire + Parts(l.items[l.i], parts)
    ensures if status == 0 then after.failed == [] else parts > 0 ==> after.failed != []
    ensures !WasReset(after)
  {
    var item := l.items[l.i];
    after := h;
    if parts > 0 && status != 0 {
      after := h.(failed := Parts(item, parts));
    } else if next.Todo() != l.Todo() {
      PackedInParts(h.wire, item, parts);
      after := if TooLong(item, sh, pduLength) then h.(alone := h.alone + {item}, wire := h.wire + Parts(item, parts))
               else h.(skipped := h.skipped + {item});
    }
  }

  /** One item has been dealt with or moved to the telegram, or the next one is to be looked at. */
  ghost predicate GetsOn(l: Lists, next: Lists) {
    || |next.items| + |next.pdu| < |l.items| + |l.pdu|
    || (|next.items| + |next.pdu| == |l.items| + |l.pdu| && |next.items| < |l.items|)
    || next == l.(i := l.i + 1)
  }

  /** The lists after the next item has been moved to the telegram. */
  function Moved(l: Lists, effectiveReadBytes: int): Lists
    requires 0 <= l.i < |l.items|
  {
    Lists(Erased(l.items, l.i), l.pdu + [l.items[l.i]], l.i, l.bytesLeft - effectiveReadBytes, l.itemsLeft - 1)
  }

  lemma MovedItem(all: set<ReadItem>, l: Lists, effectiveReadBytes: int, haveSent: bool, sh: Places, pduLength: int)
    requires PackingLists(all, l, haveSent, sh, pduLength) && 0 <= l.i < |l.items| && l.itemsLeft > 0 && 24 <= pduLength
    requires l.items[l.i] in sh && effectiveReadBytes == WireBytes(sh[l.items[l.i]].readBytes) <= l.bytesLeft
    ensures var next := Moved(l, effectiveReadBytes);
            && Whole(PackingLists(all, next, haveSent, sh, pduLength)) && next.Todo() == l.Todo()
            && Whole(ItemStep(l, next, 0, 0, sh, pduLength)) && Whole(GetsOn(l, next))
    ensures |l.pdu| < MAX_VARS
  {
    assert l.items[l.i] in Members(l.items);
    PackedMore(all, l.items, l.pdu, l.i, l.bytesLeft, l.itemsLeft, haveSent, sh, pduLength);
    TakeOff(l.items, l.i);
  }

  /** Reads the next item alone, as it does not even fit into an empty telegram, and takes it off the list. */
  method ReadNextAlone(client: Client, l: Lists, haveSent: bool, ghost all: set<ReadItem>, ghost sh: Places,
      ghost run: Run)
      returns (status: int, next: Lists, ghost parts: nat)
    requires Whole(Setting(client, all, sh, run))
    requires Whole(PackingLists(all, l, haveSent, sh, client.PDULength)) && 0 <= l.i < |l.items|
        && TooLong(l.items[l.i], sh, client.PDULength)
    requires Whole(Progress(all, l.Todo(), sh, client.plc.memory, run, false))
    modifies client, client.payload, client.plc, BuffersOf(all, sh)
    ensures Whole(Setting(client, all, sh, run)) && client.plc.memory == old(client.plc.memory)
            && old(client.plc.tick) <= client.plc.tick
    ensures Whole(PackingLists(all, next, haveSent, sh, client.PDULength))
    ensures next.pdu == l.pdu && (status == 0 ==> |next.items| < |l.items|)
    ensures Whole(ItemStep(l, next, status, parts, sh, client.PDULength))
    ensures Whole(OnWire(old(client.plc.requests), client.plc.requests, Parts(l.items[l.i], parts), sh,
        client.PDULength))
    ensures Whole(PartsTold(client.plc.verdicts, old(client.plc.tick), client.plc.tick, parts, status))
    ensures Whole(Progress(all, next.Todo(), sh, client.plc.memory, run, false))
    ensures run.calm ==> status == 0
  {
    var item := l.items[l.i];
    next := l;
    DroppedItem(all, l, haveSent, sh, client.PDULength);
    status, parts := ReadAlone(client, item, all, l.Todo(), sh, run);
    if status == 0 {
      next := l.(items := Erased(l.items, l.i));
      assert Progress(all, next.Todo(), sh, client.plc.memory, run, false);
    }
  }

  /** The packer can deal with the next item. */
  ghost predicate BeforeItem(client: Client, dataItems: array<DataItem>, all: set<ReadItem>, l: Lists, haveSent: bool,
                             sh: Places, run: Run)
    reads client, client.plc, dataItems, sh.Keys, Results(all), BuffersOf(all, sh)
  {
    && Whole(Setting(client, all, sh, run)) && dataItems.Length == MAX_VARS
    && Whole(PackingLists(all, l, haveSent, sh, client.PDULength)) && 0 <= l.i < |l.items| && l.itemsLeft > 0
    && Whole(Describes(dataItems[..], l.pdu, sh)) && Whole(Progress(all, l.Todo(), sh, client.plc.memory, run, false))
  }

  /**
   * The packer has dealt with the next item, and got on; `parts` telegrams have been sent for this item alone.
   * If the PLC answers and has what is too long, there is no error.
   */
  ghost predicate AfterItem(client: Client, dataItems: array<DataItem>, all: set<ReadItem>, l: Lists, haveSent: bool,
                            sh: Places, run: Run, next: Lists, status: int, parts: nat, sent: seq<seq<byte>>,
                            memory: Memory, at: nat)
    requires 0 <= l.i < |l.items|
    reads client, client.plc, dataItems, sh.Keys, Results(all), BuffersOf(all, sh)
  {
    && Whole(Setting(client, all, sh, run)) && client.plc.memory == memory
    && Whole(PackingLists(all, next, haveSent, sh, client.PDULength))
    && Whole(Describes(dataItems[..], next.pdu, sh))
    && Whole(Progress(all, next.Todo(), sh, client.plc.memory, run, false))
    && Whole(ItemStep(l, next, status, parts, sh, client.PDULength)) && (status == 0 ==> Whole(GetsOn(l, next)))
    && Whole(OnWire(sent, client.plc.requests, Parts(l.items[l.i], parts), sh, client.PDULength))
    && Whole(PartsTold(client.plc.verdicts, at, client.plc.tick, parts, status))
    && (run.calm ==> status == 0)
  }

  /**
   * Deals with an item that does not fit into the telegram: reads it alone if the telegram is empty,
   * or leaves it for later.
   */
  method LeaveOut(client: Client, ghost dataItems: array<DataItem>, l: Lists, maxSizeOfPayload: int, haveSent: bool,
                  ghost all: set<ReadItem>, ghost sh: Places, ghost run: Run)
      returns (status: int, next: Lists, ghost parts: nat)
    requires Whole(BeforeItem(client, dataItems, all, l, haveSent, sh, run))
    requires maxSizeOfPayload == client.PDULength - 14 && WireBytes(l.items[l.i].readBytes) > l.bytesLeft
    modifies client, client.payload, client.plc, BuffersOf(all, sh)
    ensures old(client.plc.tick) <= client.plc.tick
    ensures Whole(AfterItem(client, dataItems, all, l, haveSent, sh, run, next, status, parts,
                            old(client.plc.requests), old(client.plc.memory), old(client.plc.tick)))
  {
    NextItem(all, l, haveSent, sh, client.PDULength);
    if l.bytesLeft == maxSizeOfPayload {
      status, next, parts := ReadNextAlone(client, l, haveSent, all, sh, run);
    } else {
      PassItem(all, l, haveSent, sh, client.PDULength);
      status, next, parts := 0, l.(i := l.i + 1), 0;
      NothingOnWire(client.plc.requests, l.items[l.i], sh, client.PDULength);
      NoParts(client.plc.verdicts, client.plc.tick);
    }
  }

  /** Packs the next item, which fits. */
  method PackFitting(client: Client, dataItems: array<DataItem>, l: Lists, effectiveReadBytes: int, haveSent: bool,
                     ghost all: set<ReadItem>, ghost sh: Places, ghost run: Run)
      returns (next: Lists)
    requires Whole(BeforeItem(client, dataItems, all, l, haveSent, sh, run))
    requires l.items[l.i] in sh && effectiveReadBytes == WireBytes(sh[l.items[l.i]].readBytes) <= l.bytesLeft
    modifies dataItems
    ensures Whole(AfterItem(client, dataItems, all, l, haveSent, sh, run, next, 0, 0,
                            client.plc.requests, client.plc.memory, client.plc.tick))
  {
    NothingOnWire(client.plc.requests, l.items[l.i], sh, client.PDULength);
    NoParts(client.plc.verdicts, client.plc.tick);
    MovedItem(all, l, effectiveReadBytes, haveSent, sh, client.PDULength);
    Describe(dataItems, l.pdu, l.items[l.i], client, all, l.Todo(), sh, run);
    next := Moved(l, effectiveReadBytes);
  }

  /** Takes the next item off the list, as there is nothing to read. */
  method SkipNext(client: Client, ghost dataItems: array<DataItem>, l: Lists, haveSent: bool,
                  ghost all: set<ReadItem>, ghost sh: Places, ghost run: Run)
      returns (next: Lists)
    requires Whole(BeforeItem(client, dataItems, all, l, haveSent, sh, run)) && l.items[l.i].readBytes == 0
    modifies Results(all)
    ensures Whole(AfterItem(client, dataItems, all, l, haveSent, sh, run, next, 0, 0,
                            client.plc.requests, client.plc.memory, client.plc.tick))
  {
    var item := l.items[l.i];
    NextItem(all, l, haveSent, sh, client.PDULength);
    NothingOnWire(client.plc.requests, item, sh, client.PDULength);
    NoParts(client.plc.verdicts, client.plc.tick);
    DroppedItem(all, l, haveSent, sh, client.PDULength);
    SkipItem(item, all, l.Todo(), sh, client.plc.memory, run);
    next := l.(items := Erased(l.items, l.i));
  }

  /** Deals with an item that has bytes to read: packs it, reads it alone, or leaves it for a later telegram. */
  method PackNonEmpty(client: Client, dataItems: array<DataItem>, l: Lists, maxSizeOfPayload: int, haveSent: bool,
                      ghost all: set<ReadItem>, ghost sh: Places, ghost run: Run)
      returns (status: int, next: Lists, ghost parts: nat)
    requires Whole(BeforeItem(client, dataItems, all, l, haveSent, sh, run))
    requires maxSizeOfPayload == client.PDULength - 14
    modifies client, client.payload, client.plc, dataItems, BuffersOf(all, sh), Results(all)
    ensures old(client.plc.tick) <= client.plc.tick
    ensures Whole(AfterItem(client, dataItems, all, l, haveSent, sh, run, next, status, parts,
                            old(client.plc.requests), old(client.plc.memory), old(client.plc.tick)))
  {
    NextItem(all, l, haveSent, sh, client.PDULength);
    var readBytes := l.items[l.i].readBytes;
    var effectiveReadBytes := (if readBytes % 2 == 0 then readBytes else readBytes + 1) + 4;
    if effectiveReadBytes <= l.bytesLeft {
      status, parts := 0, 0;
      next := PackFitting(client, dataItems, l, effectiveReadBytes, haveSent, all, sh, run);
    } else {
      status, next, parts := LeaveOut(client, dataItems, l, maxSizeOfPayload, haveSent, all, sh, run);
    }
  }

  /** Deals with the next item: skips it, packs it, reads it alone, or leaves it for a later telegram. */
  method PackItem(client: Client, dataItems: array<DataItem>, l: Lists, maxSizeOfPayload: int, haveSent: bool,
                  ghost all: set<ReadItem>, ghost sh: Places, ghost run: Run)
      returns (status: int, next: Lists, ghost parts: nat)
    requires Whole(BeforeItem(client, dataItems, all, l, haveSent, sh, run))
    requires maxSizeOfPayload == client.PDULength - 14
    modifies client, client.payload, client.plc, dataItems, BuffersOf(all, sh), Results(all)
    ensures old(client.plc.tick) <= client.plc.tick
    ensures Whole(AfterItem(client, dataItems, all, l, haveSent, sh, run, next, status, parts,
                            old(client.plc.requests), old(client.plc.memory), old(client.plc.tick)))
  {
    if l.items[l.i].readBytes == 0 {
      status, parts := 0, 0;
      next := SkipNext(client, dataItems, l, haveSent, all, sh, run);
    } else {
      status, next, parts := PackNonEmpty(client, dataItems, l, maxSizeOfPayload, haveSent, all, sh, run);
    }
  }

  /** Describes one more item of the telegram to the client. */
  method Describe(dataItems: array<DataItem>, pdu: seq<ReadItem>, item: ReadItem, ghost client: Client,
                  ghost all: set<ReadItem>, ghost todo: set<ReadItem>, ghost sh: Places, ghost run: Run)
    requires |pdu| < dataItems.Length && Describes(dataItems[..], pdu, sh) && item in sh
    requires Whole(Setting(client, all, sh, run)) && Whole(Progress(all, todo, sh, client.plc.memory, run, false))
    modifies dataItems
    ensures Whole(Describes(dataItems[..], pdu + [item], sh))
    ensures Whole(Setting(client, all, sh, run)) && Whole(Progress(all, todo, sh, client.plc.memory, run, false))
  {
    dataItems[|pdu|] := DataItem(AreaCode(item.area), S7_WL_BYTE, dataItems[|pdu|].result, item.areaNumber,
                                 item.startByte, item.readBytes, item.buffer);
  }

  lemma SendingLists(all: set<ReadItem>, l: Lists, haveSent: bool, sh: Places, pduLength: int)
    requires PackingLists(all, l, haveSent, sh, pduLength) && 24 <= pduLength && (l.items != [] || l.pdu != [])
    requires l.itemsLeft <= 0 || l.bytesLeft < 6 || (l.i == |l.items| && !haveSent) || l.items == []
    ensures Whole(FullTelegram(Telegram(l.pdu, Members(l.items)), sh, pduLength)) && l.pdu != []
    ensures NoDuplicates(l.pdu) && Members(l.items) !! Members(l.pdu) && MaxItemsPerRequest(pduLength) > 0
    ensures Whole(PackingLists(all, Lists(l.items, [], l.i, pduLength - 14, MaxItemsPerRequest(pduLength)), true, sh,
        pduLength))
  {
    SendingFull(all, l.items, l.pdu, l.i, l.bytesLeft, l.itemsLeft, haveSent, sh, pduLength);
  }

  /** Everything the packer keeps up between its steps. */
  ghost predicate PackerOk(plc: Plc, dataItems: array<DataItem>, all: set<ReadItem>, l: Lists, haveSent: bool,
      h: History, sh: Places, run: Run)
    reads plc, dataItems, Results(all), BuffersOf(all, sh)
  {
    && Whole(PackingLists(all, l, haveSent, sh, run.pduLength)) && Whole(Describes(dataItems[..], l.pdu, sh))
    && Whole(OnTrack(plc, all, l.Todo(), h, sh, run))
  }

  /** A telegram for several items has failed: then the items that are left have been reset. */
  predicate WasReset(h: History) {
    h.failed != [] && h.failed[0].Packed?
  }

  /** All items and all telegrams are accounted for, and the items have proper results. */
  ghost predicate OnTrack(plc: Plc, all: set<ReadItem>, todo: set<ReadItem>, h: History, sh: Places, run: Run)
    reads plc, Results(all), BuffersOf(all, sh)
  {
    && Whole(Accounted(all, todo, h, sh, run.pduLength))
    && Whole(Progress(all, todo, sh, plc.memory, run, WasReset(h)))
    && Whole(OnWire(run.sent, plc.requests, h.wire + h.failed, sh, run.pduLength))
  }

  /** Sends the telegram that has been packed; after an error nothing has been read for all remaining items. */
  method SendPacked(client: Client, dataItems: array<DataItem>, items: seq<ReadItem>, itemsInPDU: seq<ReadItem>,
                    ghost all: set<ReadItem>, ghost h: History, ghost sh: Places, ghost run: Run)
      returns (status: int, ghost after: History)
    requires Whole(Setting(client, all, sh, run))
    requires Whole(FullTelegram(Telegram(itemsInPDU, Members(items)), sh, client.PDULength))
    requires Whole(Describes(dataItems[..], itemsInPDU, sh))
    requires NoDuplicates(itemsInPDU) && Members(items) !! Members(itemsInPDU)
    requires Whole(OnTrack(client.plc, all, Members(items) + Members(itemsInPDU), h, sh, run)) && h.failed == []
    requires Whole(Reported(client.plc.verdicts, run.tick, client.plc.tick, h, 0))
    modifies client, client.payload, client.plc, dataItems, BuffersOf(all, sh), Results(all)
    ensures Whole(Setting(client, all, sh, run)) && client.plc.memory == old(client.plc.memory)
            && old(client.plc.tick) <= client.plc.tick
    ensures Whole(OnTrack(client.plc, all, if status == 0 then Members(items)
        else Members(items) + Members(itemsInPDU), after, sh, run))
    ensures Whole(Reported(client.plc.verdicts, run.tick, client.plc.tick, after, status))
    ensures (run.answered ==> status == 0) && (status == 0 ==> after.failed == [])
  {
    ghost var todo, before, at := Members(items) + Members(itemsInPDU), client.plc.requests, client.plc.tick;
    assert Members(itemsInPDU) <= todo <= all by {
      assert Accounted(all, todo, h, sh, run.pduLength);
    }
    status := SendOrReset(client, dataItems, items, itemsInPDU, all, todo, sh, run);
    after := AfterSending(h, items, itemsInPDU, status);
    KeptTrack(client.plc, all, todo, h, sh, run, before, items, itemsInPDU, status);
    PackedReported(client.plc.verdicts, run.tick, at, client.plc.tick, h, items, itemsInPDU, status);
  }

  lemma PackedReported(verdicts: nat -> Verdict, from: nat, at: nat, to: nat, h: History, items: seq<ReadItem>,
                       pdu: seq<ReadItem>, status: int)
    requires Whole(Reported(verdicts, from, at, h, 0)) && h.failed == []
    requires Whole(TelegramTold(verdicts, at, to, status))
    ensures Whole(Reported(verdicts, from, to, AfterSending(h, items, pdu, status), status))
  {
    var after := AfterSending(h, items, pdu, status);
    assert OpsOf([Packed(pdu)]) == [ItemsRead] && [ItemsRead][..0] == [];
    assert after.wire + after.failed == h.wire + [Packed(pdu)];
    ReportedMore(verdicts, from, at, to, h, [Packed(pdu)], after, status);
  }

  /** Sends the telegram; after an error, the byte counts of all remaining items are set to zero. */
  method SendOrReset(client: Client, dataItems: array<DataItem>, items: seq<ReadItem>, itemsInPDU: seq<ReadItem>,
                     ghost all: set<ReadItem>, ghost todo: set<ReadItem>, ghost sh: Places, ghost run: Run)
      returns (status: int)
    requires Whole(Setting(client, all, sh, run)) && Members(items) + Members(itemsInPDU) == todo <= all
    requires NoDuplicates(itemsInPDU) && Whole(WithinLimits(itemsInPDU, sh, client.PDULength))
    requires Whole(Describes(dataItems[..], itemsInPDU, sh))
    requires Whole(Progress(all, todo, sh, client.plc.memory, run, false))
    modifies client, client.payload, client.plc, dataItems, BuffersOf(all, sh), Results(all)
    ensures Whole(Setting(client, all, sh, run)) && client.plc.memory == old(client.plc.memory)
    ensures Whole(TelegramTold(client.plc.verdicts, old(client.plc.tick), client.plc.tick, status))
    ensures run.answered ==> status == 0
    ensures Whole(OnWire(old(client.plc.requests), client.plc.requests, [Packed(itemsInPDU)], sh, client.PDULength))
    ensures Whole(Progress(all, if status == 0 then todo - Members(itemsInPDU) else todo, sh, client.plc.memory, run,
                           status != 0))
  {
    status := SendTelegram(client, dataItems, itemsInPDU, all, todo, sh, run);
    assert Members(items + itemsInPDU) == todo;
    if status != 0 {
      ResetAll(items + itemsInPDU, client, all, todo, sh, run);
    }
  }

  /** The history after a telegram: it has been answered, or it has been sent in vain. */
  ghost function AfterSending(h: History, items: seq<ReadItem>, pdu: seq<ReadItem>, status: int): History {
    if status == 0 then h.(telegrams := h.telegrams + [Telegram(pdu, Members(items))], wire := h.wire + [Packed(pdu)])
    else h.(failed := [Packed(pdu)])
  }

  lemma KeptTrack(plc: Plc, all: set<ReadItem>, todo: set<ReadItem>, h: History, sh: Places, run: Run,
      before: seq<seq<byte>>, items: seq<ReadItem>, pdu: seq<ReadItem>, status: int)
    requires Whole(Accounted(all, todo, h, sh, run.pduLength)) && h.failed == []
        && todo - Members(pdu) == Members(items)
    requires Members(pdu) <= todo && NoDuplicates(pdu)
        && Whole(FullTelegram(Telegram(pdu, Members(items)), sh, run.pduLength))
    requires Whole(OnWire(run.sent, before, h.wire + h.failed, sh, run.pduLength))
    requires Whole(OnWire(before, plc.requests, [Packed(pdu)], sh, run.pduLength))
    requires Whole(Progress(all, if status == 0 then todo - Members(pdu) else todo, sh, plc.memory, run, status != 0))
    ensures Whole(OnTrack(plc, all, if status == 0 then Members(items) else todo, AfterSending(h, items, pdu, status),
        sh, run))
  {
    WireGrows(run.sent, before, plc.requests, h.wire + h.failed, [Packed(pdu)], sh, run.pduLength);
    assert h.wire + h.failed == h.wire && (h.wire + [Packed(pdu)]) + [] == h.wire + [Packed(pdu)];
    if status == 0 {
      AccountTelegram(all, todo, h, sh, run.pduLength, pdu);
    } else {
      AccountFailure(all, todo, h, sh, run.pduLength, [Packed(pdu)]);
    }
  }

  /** Sends the telegram if it cannot or need not take any more items. */
  method SendLists(client: Client, dataItems: array<DataItem>, l: Lists, maxSizeOfPayload: int, maxItems: int,
      haveSent: bool, ghost all: set<ReadItem>, ghost h: History, ghost sh: Places, ghost run: Run)
      returns (status: int, next: Lists, ghost after: History)
    requires Whole(Setting(client, all, sh, run))
    requires maxSizeOfPayload == client.PDULength - 14 && maxItems == MaxItemsPerRequest(client.PDULength)
    requires Whole(PackerOk(client.plc, dataItems, all, l, haveSent, h, sh, run)) && h.failed == []
    requires Whole(Reported(client.plc.verdicts, run.tick, client.plc.tick, h, 0))
    requires l.items != [] || l.pdu != []
    requires l.itemsLeft <= 0 || l.bytesLeft < 6 || (l.i == |l.items| && !haveSent) || l.items == []
    modifies client, client.payload, client.plc, dataItems, BuffersOf(all, sh), Results(all)
    ensures Whole(Setting(client, all, sh, run)) && client.plc.memory == old(client.plc.memory)
            && old(client.plc.tick) <= client.plc.tick
    ensures status == 0 ==> Whole(PackerOk(client.plc, dataItems, all, next, true, after, sh, run))
                            && next == Lists(l.items, [], l.i, maxSizeOfPayload, maxItems) && l.pdu != []
                                && maxItems > 0
    ensures Whole(OnTrack(client.plc, all, next.Todo(), after, sh, run))
    ensures Whole(Reported(client.plc.verdicts, run.tick, client.plc.tick, after, status))
    ensures (run.answered ==> status == 0) && (status == 0 ==> after.failed == [])
  {
    SendingLists(all, l, haveSent, sh, client.PDULength);
    status, after := SendPacked(client, dataItems, l.items, l.pdu, all, h, sh, run);
    next := if status == 0 then Lists(l.items, [], l.i, maxSizeOfPayload, maxItems) else l;
    if status == 0 {
      NextTelegram(client.plc, dataItems, all, next, after, sh, run);
    }
  }

  /** The packer goes on with an empty telegram. */
  lemma NextTelegram(plc: Plc, dataItems: array<DataItem>, all: set<ReadItem>, next: Lists, h: History, sh: Places,
                     run: Run)
    requires Whole(PackingLists(all, next, true, sh, run.pduLength)) && next.pdu == []
    requires Whole(OnTrack(plc, all, Members(next.items), h, sh, run))
    ensures Whole(PackerOk(plc, dataItems, all, next, true, h, sh, run))
    ensures Whole(OnTrack(plc, all, next.Todo(), h, sh, run))
  {
    assert next.Todo() == Members(next.items);
  }

  /** Looks at the list from its beginning again; all items still have to be considered for the telegram. */
  lemma StartAgain(plc: Plc, dataItems: array<DataItem>, all: set<ReadItem>, l: Lists, haveSent: bool, h: History,
                   sh: Places, run: Run)
    requires PackerOk(plc, dataItems, all, l, haveSent, h, sh, run)
    ensures 0 <= l.i <= |l.items|
    ensures l.i == |l.items| ==> Whole(PackerOk(plc, dataItems, all, l.(i := 0), false, h, sh, run))
  {
    assert l.(i := 0).Todo() == l.Todo();
  }

  method PackNext(client: Client, dataItems: array<DataItem>, l: Lists, maxSizeOfPayload: int, haveSent: bool,
                  ghost all: set<ReadItem>, ghost h: History, ghost sh: Places, ghost run: Run)
      returns (status: int, next: Lists, ghost after: History)
    requires Whole(Setting(client, all, sh, run))
    requires maxSizeOfPayload == client.PDULength - 14 && dataItems.Length == MAX_VARS
    requires Whole(PackerOk(client.plc, dataItems, all, l, haveSent, h, sh, run)) && h.failed == []
    requires Whole(Reported(client.plc.verdicts, run.tick, client.plc.tick, h, 0))
    requires 0 <= l.i < |l.items| && l.itemsLeft > 0
    modifies client, client.payload, client.plc, dataItems, BuffersOf(all, sh), Results(all)
    ensures Whole(Setting(client, all, sh, run)) && client.plc.memory == old(client.plc.memory)
            && old(client.plc.tick) <= client.plc.tick
    ensures Whole(PackerOk(client.plc, dataItems, all, next, haveSent, after, sh, run))
    ensures Whole(Reported(client.plc.verdicts, run.tick, client.plc.tick, after, status))
    ensures status == 0 ==> GetsOn(l, next) && after.failed == []
    ensures run.calm ==> status == 0
  {
    ghost var before, at, parts := client.plc.requests, client.plc.tick, 0;
    ItemIsNext(client, dataItems, all, l, haveSent, h, sh, run);
    status, next, parts := PackItem(client, dataItems, l, maxSizeOfPayload, haveSent, all, sh, run);
    after := ItemOnTrack(client, dataItems, all, l, haveSent, h, sh, run, next, status, parts, before,
                         client.plc.memory, at);
  }

  lemma ItemIsNext(client: Client, dataItems: array<DataItem>, all: set<ReadItem>, l: Lists, haveSent: bool, h: History,
                   sh: Places, run: Run)
    requires Whole(Setting(client, all, sh, run)) && PackerOk(client.plc, dataItems, all, l, haveSent, h, sh, run)
    requires dataItems.Length == MAX_VARS && 0 <= l.i < |l.items| && l.itemsLeft > 0 && h.failed == []
    ensures Whole(BeforeItem(client, dataItems, all, l, haveSent, sh, run))
    ensures Whole(Accounted(all, l.Todo(), h, sh, run.pduLength))
    ensures Whole(OnWire(run.sent, client.plc.requests, h.wire + h.failed, sh, run.pduLength))
  {
  }

  /** Dealing with an item keeps everything accounted for. */
  lemma ItemOnTrack(client: Client, dataItems: array<DataItem>, all: set<ReadItem>, l: Lists, haveSent: bool,
                    h: History, sh: Places, run: Run, next: Lists, status: int, parts: nat,
                    before: seq<seq<byte>>, memory: Memory, at: nat)
      returns (after: History)
    requires 0 <= l.i < |l.items| && h.failed == [] && Whole(Accounted(all, l.Todo(), h, sh, run.pduLength))
    requires Whole(OnWire(run.sent, before, h.wire + h.failed, sh, run.pduLength))
    requires Whole(Reported(client.plc.verdicts, run.tick, at, h, 0))
    requires AfterItem(client, dataItems, all, l, haveSent, sh, run, next, status, parts, before, memory, at)
    ensures Whole(Setting(client, all, sh, run)) && client.plc.memory == memory
    ensures Whole(PackerOk(client.plc, dataItems, all, next, haveSent, after, sh, run))
    ensures Whole(Reported(client.plc.verdicts, run.tick, client.plc.tick, after, status))
    ensures (status == 0 ==> Whole(GetsOn(l, next)) && after.failed == []) && (run.calm ==> status == 0)
  {
    assert PartsTold(client.plc.verdicts, at, client.plc.tick, parts, status);
    after := AccountStep(all, l, next, status, parts, h, sh, run.pduLength);
    WireGrows(run.sent, before, client.plc.requests, h.wire + h.failed, Parts(l.items[l.i], parts), sh, run.pduLength);
    assert h.wire + h.failed == h.wire;
    PartsReported(client.plc.verdicts, run.tick, at, client.plc.tick, h, l.items[l.i], parts, after, status);
  }

  lemma PartsReported(verdicts: nat -> Verdict, from: nat, at: nat, to: nat, h: History, item: ReadItem, parts: nat,
                      after: History, status: int)
    requires Whole(Reported(verdicts, from, at, h, 0)) && h.failed == []
    requires Whole(PartsTold(verdicts, at, to, parts, status))
    requires after.wire + after.failed == h.wire + Parts(item, parts)
    requires status != 0 && parts > 0 ==> after.failed != []
    ensures Whole(Reported(verdicts, from, to, after, status))
  {
    assert OpsOf(Parts(item, parts)) == Times(AreaRead, parts);
    ReportedMore(verdicts, from, at, to, h, Parts(item, parts), after, status);
  }

  /** The loop of the packer: sends telegrams until all items have been dealt with or there is an error. */
  method PackAndSend(client: Client, dataItems: array<DataItem>, start: Lists, maxSizeOfPayload: int, maxItems: int,
                     ghost all: set<ReadItem>, ghost h0: History, ghost sh: Places, ghost run: Run)
      returns (status: int, ghost todo: set<ReadItem>, ghost h: History)
    requires Whole(Setting(client, all, sh, run))
    requires maxSizeOfPayload == client.PDULength - 14 && maxItems == MaxItemsPerRequest(client.PDULength)
    requires dataItems.Length == MAX_VARS
    requires Whole(PackerOk(client.plc, dataItems, all, start, false, h0, sh, run)) && h0.failed == []
    requires Whole(Reported(client.plc.verdicts, run.tick, client.plc.tick, h0, 0))
    modifies client, client.payload, client.plc, dataItems, BuffersOf(all, sh), Results(all)
    ensures Whole(Setting(client, all, sh, run)) && client.plc.memory == old(client.plc.memory)
            && old(client.plc.tick) <= client.plc.tick
    ensures Whole(OnTrack(client.plc, all, todo, h, sh, run)) && (status == 0 ==> todo == {} && h.failed == [])
    ensures Whole(Reported(client.plc.verdicts, run.tick, client.plc.tick, h, status))
    ensures run.calm ==> status == 0
  {
    var l, haveSentItemInThisRun := start, false;
    status, h := 0, h0;
    while l.items != [] || l.pdu != []
      invariant Whole(Setting(client, all, sh, run)) && client.plc.memory == old(client.plc.memory)
      invariant old(client.plc.tick) <= client.plc.tick && status == 0 && h.failed == []
      invariant Whole(PackerOk(client.plc, dataItems, all, l, haveSentItemInThisRun, h, sh, run))
      invariant Whole(Reported(client.plc.verdicts, run.tick, client.plc.tick, h, status))
      decreases |l.items| + |l.pdu|, |l.items|, haveSentItemInThisRun, |l.items| - l.i
    {
      if l.itemsLeft <= 0 || l.bytesLeft < 6 || (l.i == |l.items| && !haveSentItemInThisRun) || l.items == [] {
        status, l, h := SendLists(client, dataItems, l, maxSizeOfPayload, maxItems, haveSentItemInThisRun, all, h, sh,
            run);
        if status != 0 {
          return status, l.Todo(), h;
        }
        haveSentItemInThisRun := true;
        if l.items == [] {
          break;
        }
      }
      StartAgain(client.plc, dataItems, all, l, haveSentItemInThisRun, h, sh, run);
      if l.i == |l.items| {
        // the end of the list, but there are items left: start again from the beginning
        haveSentItemInThisRun, l := false, l.(i := 0);
      }
      status, l, h := PackNext(client, dataItems, l, maxSizeOfPayload, haveSentItemInThisRun, all, h, sh, run);
      if status != 0 {
        return status, l.Todo(), h;
      }
    }
    todo := l.Todo();
  }

  /** At the beginning, all items are still to be read. */
  lemma PackerStarts(plc: Plc, dataItems: array<DataItem>, readItems: seq<ReadItem>, start: Lists, sh: Places, run: Run)
    requires NoDuplicates(readItems) && (forall n | n in Members(readItems) :: Askable(n, sh))
        && Starting(Members(readItems), run)
    requires start == Lists(readItems, [], 0, run.pduLength - 14, MaxItemsPerRequest(run.pduLength))
        && run.pduLength >= 24
    requires run.sent == plc.requests
    ensures Whole(PackerOk(plc, dataItems, Members(readItems), start, false, History([], {}, {}, [], []), sh, run))
  {
    var all := Members(readItems);
    assert start.Todo() == all;
    NothingRead(readItems, sh, plc.memory, run);
    NothingAccounted(all, sh, run.pduLength);
    NothingPacked(readItems, start, sh, run.pduLength);
    assert Whole(OnWire(run.sent, plc.requests, [] + [], sh, run.pduLength));
  }

  lemma NothingAccounted(all: set<ReadItem>, sh: Places, pduLength: int)
    ensures Whole(Accounted(all, all, History([], {}, {}, [], []), sh, pduLength))
  {
  }

  /** The items have the results that they had at the start of the run. */
  ghost predicate Starting(all: set<ReadItem>, run: Run)
    reads Results(all)
  {
    forall n | n in all :: n.result in Results(all) && Waits(n, run, false)
  }

  lemma NothingReported(verdicts: nat -> Verdict, from: nat)
    ensures Whole(Reported(verdicts, from, from, History([], {}, {}, [], []), 0))
  {
  }

  lemma NothingRead(readItems: seq<ReadItem>, sh: Places, memory: Memory, run: Run)
    requires (forall n | n in Members(readItems) :: Askable(n, sh)) && Starting(Members(readItems), run)
    ensures Whole(Progress(Members(readItems), Members(readItems), sh, memory, run, false))
  {
  }

  lemma NothingPacked(readItems: seq<ReadItem>, start: Lists, sh: Places, pduLength: int)
    requires NoDuplicates(readItems) && (forall n | n in Members(readItems) :: Askable(n, sh)) && pduLength >= 24
    requires start == Lists(readItems, [], 0, pduLength - 14, MaxItemsPerRequest(pduLength))
    ensures Whole(PackingLists(Members(readItems), start, false, sh, pduLength))
  {
  }

  /** What is known about the run that starts now. */
  ghost function RunFrom(client: Client, all: set<ReadItem>, sh: Places): (run: Run)
    reads client, client.plc, Results(all)
    ensures RunOk(all, sh, client.plc.memory, client.plc, run) && Starting(all, run)
  {
    var fits := client.PDULength <= ISO_PAYLOAD_SIZE;
    var answered := fits && client.plc.ServedFrom(client.plc.tick);
    var faithful := fits && client.plc.FaithfulFrom(client.plc.tick);
    Run(client.PDULength, answered, faithful,
        answered && faithful && LongOnPlc(all, sh, client.plc.memory, client.PDULength),
        client.plc.tick, client.plc.requests, map n | n in all :: (n.result.status, n.result.bytesRead))
  }

  /**
   * Packs the items into telegrams, reads them, and stores the results in the items. The
   * history tells what has been sent, and that every item has been in exactly one place.
   */
  method SendRequestToPlc(client: Client, readItems: seq<ReadItem>, ghost sh: Places) returns (status: int,
      ghost todo: set<ReadItem>, ghost h: History)
    requires client.Valid() && client.PDULength >= 24 && Current(sh) && NoDuplicates(readItems)
    requires Isolated(Members(readItems), sh, client)
    modifies client, client.payload, client.plc, BuffersOf(Members(readItems), sh), Results(Members(readItems))
    ensures client.Valid() && client.plc.memory == old(client.plc.memory) && old(client.plc.tick) <= client.plc.tick
    ensures Accounted(Members(readItems), todo, h, sh, client.PDULength)
        && (status == 0 ==> todo == {} && h.failed == [])
    // every telegram that has been sent since then is one of the history, and keeps the limits
    ensures OnWire(old(client.plc.requests), client.plc.requests, h.wire + h.failed, sh, client.PDULength)
    ensures Progress(Members(readItems), todo, sh, client.plc.memory, old(RunFrom(client, Members(readItems), sh)),
                     WasReset(h))
    // no telegram follows one that has failed, and the status tells what has become of the last one
    ensures Reported(client.plc.verdicts, old(client.plc.tick), client.plc.tick, h, status)
    ensures old(RunFrom(client, Members(readItems), sh)).calm ==> status == 0
  {
    ghost var all, run := Members(readItems), RunFrom(client, Members(readItems), sh);
    var maxSizeOfPayload := client.PDULength - 14;
    var maxNumberOfItemsPerRequest := Min((client.PDULength - 12) / 12, MAX_VARS);
    var dataItems := new DataItem[MAX_VARS](_ => DataItem(0, 0, 0, 0, 0, 0, client.payload));
    var start := Lists(readItems, [], 0, maxSizeOfPayload, maxNumberOfItemsPerRequest);
    PackerStarts(client.plc, dataItems, readItems, start, sh, run);
    NothingReported(client.plc.verdicts, run.tick);
    status, todo, h := PackAndSend(client, dataItems, start, maxSizeOfPayload, maxNumberOfItemsPerRequest,
                                   all, History([], {}, {}, [], []), sh, run);
  }
}

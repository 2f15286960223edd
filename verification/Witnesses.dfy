/** Two batches of a single request that the PLC could serve, but that get nothing. */
module BatchWitnesses {
  import opened PlcTypes
  import opened ReadItems
  import opened S7Server
  import opened MicroClient
  import opened BatchedRead

  /** A client that is connected to a PLC with one data block, which answers all telegrams. */
  method Connect(size: nat, pduLength: int) returns (client: Client)
    ensures fresh(client) && fresh(client.payload) && fresh(client.plc) && client.Valid()
        && client.PDULength == pduLength
    ensures client.plc.HealthyFrom(0) && client.plc.tick == 0
    ensures client.plc.memory == map[(Db, 1) := seq(size, _ => 7)]
  {
    var plc := new Plc(map[(Db, 1) := seq(size, _ => 7)], t => Served(k => 0xFF, k => true));
    client := new Client(plc, pduLength);
  }

  /** Reads the first bytes of the data block in a batch. */
  method ReadInBatch(client: Client, readBytes: nat) returns (request: AsynReadItem, status: int)
    requires client.Valid() && 24 <= client.PDULength <= 4096 && client.plc.HealthyFrom(client.plc.tick)
        && 1 <= readBytes <= 1000
    requires Oversized(readBytes, client.PDULength) && WithinRun(client.plc.memory, Db, 1, 0, readBytes)
    modifies client, client.payload, client.plc
    ensures client.Valid() && client.plc.memory == old(client.plc.memory) && old(client.plc.tick) <= client.plc.tick
    ensures fresh(request) && fresh(request.result)
    ensures request.area == Db && request.areaNumber == 1 && request.startByte == 0 && request.readBytes == readBytes
    ensures status == 0 && request.result.bytesRead == 0 && !FullyRead(request)
  {
    var target := new byte[readBytes](_ => 0);
    request := new AsynReadItem(Db, 1, 0, readBytes, target);
    ghost var chain, tick := [request], client.plc.tick;
    ghost var ops;
    status, ops := ReadBatch(client, request, chain);
    assert request in chain;
    BatchObtains(chain, client.plc.memory, client.PDULength, client.plc, tick, status == 0, status == 0
        && PlcFaithful(client.PDULength, client.plc, tick) && WellMeasured(RangesOf(chain), client.PDULength));
  }

  /** Reads the first bytes of the data block in a batch, and then once more on their own. */
  method ReadBothWays(client: Client, readBytes: nat) returns (request: AsynReadItem, status: int, alone: AsynStatus)
    requires client.Valid() && 24 <= client.PDULength <= 4096 && client.plc.HealthyFrom(client.plc.tick)
        && 1 <= readBytes <= 1000
    requires Oversized(readBytes, client.PDULength) && WithinRun(client.plc.memory, Db, 1, 0, readBytes)
    modifies client, client.payload, client.plc
    ensures request.area == Db && request.areaNumber == 1 && request.startByte == 0 && request.readBytes == readBytes
    ensures request.result.bytesRead == 0 && !FullyRead(request) && alone == Success
    ensures status == 0
  {
    request, status := ReadInBatch(client, readBytes);
    var buffer := new byte[readBytes](_ => 0);
    var driver := new Driver(client);
    var bytesRead;
    ghost var reported, got;
    alone, bytesRead, reported, got := driver.AsynPlcRead(Db, 1, 0, readBytes, buffer);
  }

  /**
   * With telegrams of 240 bytes, a request for 240 bytes gets nothing in a batch, although
   * the status tells success; on its own it is read.
   */
  method LongRequestGetsNothing() returns (request: AsynReadItem, status: int, alone: AsynStatus)
    ensures request.readBytes == 240 && status == 0 && request.result.bytesRead == 0 && alone == Success
  {
    var client := Connect(300, 240);
    request, status, alone := ReadBothWays(client, 240);
  }

  /**
   * With telegrams of 25 bytes, 7 bytes fit without the fill byte, as the optimizer reckons,
   * but not with it, as the packer reckons: the request gets nothing.
   */
  method OddLengthGetsNothing() returns (request: AsynReadItem, status: int, alone: AsynStatus)
    ensures request.readBytes == 7 && request.readBytes + 4 <= 25 - 14 && status == 0 && request.result.bytesRead == 0
        && alone == Success
  {
    var client := Connect(300, 25);
    request, status, alone := ReadBothWays(client, 7);
  }
}

/** Single reads and writes that do not report, or do not do, what they should. */
module ClientWitnesses {
  import opened PlcTypes
  import opened S7Wire
  import opened S7Server
  import opened MicroClient

  method Connect(size: nat, verdict: Verdict) returns (client: Client)
    requires Conforming(verdict)
    ensures fresh(client) && fresh(client.payload) && fresh(client.plc) && client.Valid() && client.PDULength == 240
    ensures client.plc.memory == map[(Db, 1) := seq(size, _ => 7)] && client.plc.tick == 0
    ensures forall t :: client.plc.verdicts(t) == verdict
  {
    var plc := new Plc(map[(Db, 1) := seq(size, _ => 7)], t => verdict);
    client := new Client(plc, 240);
  }

  /**
   * The PLC demands a password: a read of an area reports that the function has been refused, a
   * multi-variable read what is wrong.
   */
  method PasswordNeeded() returns (single: int, multi: int)
    ensures single == ERR_CLI_FUNCTION_REFUSED && multi == ERR_CLI_NEED_PASSWORD
  {
    var client := Connect(100, Refused(0xD241));
    var target := new byte[2](_ => 0);
    ghost var got, befores, nows := 0, [target[..]], [];
    single, got := client.ReadArea(S7_AREA_DB, 1, 0, 2, S7_WL_BYTE, target);
    var items := new DataItem[1](_ => DataItem(S7_AREA_DB, S7_WL_BYTE, 0, 1, 0, 2, target));
    befores := [target[..]];
    assert items[..1] == [items[0]];
    multi, nows := client.ReadMultiVars(items, 1, befores);
  }

  /** Of 65537 bytes only one is written; of 65536 bytes none is, although the PLC has room for them all. */
  method LongWrites() returns (result: int, ghost put: nat, other: int, ghost otherPut: nat)
    ensures result == ERR_CLI_PARTIAL_DATA_WRITTEN && put == 1
    ensures other == ERR_CLI_ADDRESS_OUT_OF_RANGE && otherPut == 0
  {
    var client := Connect(70000, Served(k => 0xFF, k => true));
    result, put := client.WriteArea(S7_AREA_DB, 1, 0, 65537, S7_WL_BYTE, seq(65537, _ => 1));
    client := Connect(70000, Served(k => 0xFF, k => true));
    other, otherPut := client.WriteArea(S7_AREA_DB, 1, 0, 65536, S7_WL_BYTE, seq(65536, _ => 1));
  }

  /** A read of 65536 bytes has got nothing after any number of telegrams, all answered with success. */
  method LongRead(rounds: nat) returns (result: int, left: int, ghost got: nat)
    ensures result == 0 && left == 65536 && got == 0
  {
    var client := Connect(70000, Served(k => 0xFF, k => true));
    var target := new byte[65536](_ => 0);
    result, left, got := client.ReadRounds(S7_AREA_DB, 1, 0, 65536, S7_WL_BYTE, target, rounds);
  }
}

/** Polling: gathering the requests of all requesters, reading them at once, and handing out the responses. */
module PollGroup {
  import opened PlcTypes
  import opened ReadItems
  import opened ReadOptimizer
  import opened OptimizedList
  import opened S7Server
  import opened BatchedRead

  /** What a requester wants to have read, and where to. */
  datatype PollRequest = PollRequest(area: Area, areaNumber: int, startByte: int, bufferSize: int, buffer: array<byte>)

  /** What a requester is told: whether the read was successful, and the bytes in its buffer. */
  datatype PollResponse = PollResponse(success: bool, bufferSize: int, bytes: seq<byte>)

  class PollRequester {
    /** What the requester queues when it is asked for its requests. */
    const wants: seq<PollRequest>
    /** The responses it has got. */
    var responses: seq<PollResponse>

    constructor (wants: seq<PollRequest>)
      ensures this.wants == wants && responses == []
    {
      this.wants, responses := wants, [];
    }

    method ProcessResponse(success: bool, bufferSize: int, buffer: array<byte>)
      modifies this
      ensures responses == old(responses) + [PollResponse(success, bufferSize, buffer[..])]
    {
      responses := responses + [PollResponse(success, bufferSize, buffer[..])];
    }
  }

  /** A request together with the requester that has queued it. */
  datatype Entry = Entry(request: PollRequest, requester: PollRequester)

  ghost function EntriesOf(r: PollRequester, n: nat): (entries: seq<Entry>)
    requires n <= |r.wants|
    ensures |entries| == n && forall j | 0 <= j < n :: entries[j] == Entry(r.wants[j], r)
  {
    seq(n, j requires 0 <= j < n => Entry(r.wants[j], r))
  }

  /** The requests of all requesters, in order. */
  ghost function AllRequests(requesters: seq<PollRequester>): seq<Entry> {
    if requesters == [] then [] else
      var r := requesters[|requesters| - 1];
      AllRequests(requesters[..|requesters| - 1]) + EntriesOf(r, |r.wants|)
  }

  /** The requests of one requester, in order. */
  ghost function Of(r: PollRequester, entries: seq<Entry>): seq<PollRequest> {
    if entries == [] then [] else
      var e := entries[|entries| - 1];
      Of(r, entries[..|entries| - 1]) + if e.requester == r then [e.request] else []
  }

  lemma {:induction false} OfConcat(r: PollRequester, a: seq<Entry>, b: seq<Entry>)
    ensures Of(r, a + b) == Of(r, a) + Of(r, b)
    decreases |b|
  {
    if b == [] {
      assert a + b == a;
    } else {
      OfConcat(r, a, b[..|b| - 1]);
      assert (a + b)[..|a + b| - 1] == a + b[..|b| - 1];
    }
  }

  lemma {:induction false} OfOneRequester(r: PollRequester, q: PollRequester, n: nat)
    requires n <= |q.wants|
    ensures Of(r, EntriesOf(q, n)) == if r == q then q.wants[..n] else []
  {
    if n > 0 {
      OfOneRequester(r, q, n - 1);
      assert EntriesOf(q, n)[..n - 1] == EntriesOf(q, n - 1);
      assert q.wants[..n] == q.wants[..n - 1] + [q.wants[n - 1]];
    }
  }

  /** Of all requests, those of a requester are what it wants. */
  lemma {:induction false} OfAll(r: PollRequester, requesters: seq<PollRequester>)
    requires NoDuplicates(requesters)
    ensures Of(r, AllRequests(requesters)) == if r in requesters then r.wants else []
    decreases |requesters|
  {
    if requesters != [] {
      var q, front := requesters[|requesters| - 1], requesters[..|requesters| - 1];
      OfAll(r, front);
      OfOneRequester(r, q, |q.wants|);
      OfConcat(r, AllRequests(front), EntriesOf(q, |q.wants|));
      assert q.wants[..|q.wants|] == q.wants;
    }
  }

  /** Every request has a buffer of its own of the right size, and one telegram can name its range. */
  ghost predicate Pollable(entries: seq<Entry>, payload: array<byte>) {
    && (forall k | 0 <= k < |entries| :: WellSized(entries[k].request) && entries[k].request.buffer != payload)
    && (forall i, j {:trigger entries[i].request.buffer, entries[j].request.buffer} | 0 <= i < j < |entries| ::
          entries[i].request.buffer != entries[j].request.buffer)
  }

  ghost predicate AllWellSized(entries: seq<Entry>) {
    forall k | 0 <= k < |entries| :: WellSized(entries[k].request)
  }

  ghost predicate WellSized(q: PollRequest) {
    && 0 <= q.areaNumber <= 0xFFFF && 0 <= q.startByte && 0 <= q.bufferSize <= 0xFFFF
        && q.startByte + q.bufferSize <= 0x20_0000
    && q.buffer.Length == q.bufferSize
  }

  /** The requests have become the items of the chain. */
  ghost predicate ChainFor(entries: seq<Entry>, chain: seq<AsynReadItem>) {
    |chain| == |entries| && forall k | 0 <= k < |chain| :: ItemFor(entries[k].request, chain[k])
  }

  ghost predicate ItemFor(q: PollRequest, item: AsynReadItem) {
    item.area == q.area && item.areaNumber == q.areaNumber && item.startByte == q.startByte
        && item.readBytes == q.bufferSize
    && item.buffer == q.buffer
  }

  /** Asks all requesters for their requests. */
  method GatherRequests(requesters: seq<PollRequester>) returns (requests: seq<Entry>)
    ensures requests == AllRequests(requesters)
  {
    requests := [];
    for i := 0 to |requesters|
      invariant requests == AllRequests(requesters[..i])
    {
      var requester := requesters[i];
      ghost var before := requests;
      for j := 0 to |requester.wants|
        invariant requests == before + EntriesOf(requester, j)
      {
        requests := requests + [Entry(requester.wants[j], requester)];
        assert EntriesOf(requester, j + 1) == EntriesOf(requester, j) + [Entry(requester.wants[j], requester)];
      }
      assert requesters[..i + 1][..i] == requesters[..i];
    }
    assert requesters[..|requesters|] == requesters;
  }

  /** Links a new item behind the last one. */
  method Link(firstItem: AsynReadItem?, item: AsynReadItem?, newItem: AsynReadItem, ghost chain: seq<AsynReadItem>)
      returns (first: AsynReadItem)
    requires Chain(firstItem, chain) && item == (if chain == [] then null else chain[|chain| - 1])
    requires newItem.next == null && newItem !in chain && forall k | 0 <= k < |chain| - 1 :: chain[k] != item
    modifies if item == null then {} else {item}
    ensures Whole(Chain(first, chain + [newItem]))
  {
    if firstItem == null {
      first := newItem;
    } else {
      first := firstItem;
      item.next := newItem;
    }
  }

  /** Makes a chain of items from the requests. */
  method BuildChain(requests: seq<Entry>, ghost payload: array<byte>)
      returns (firstItem: AsynReadItem?, ghost chain: seq<AsynReadItem>)
    requires Whole(Pollable(requests, payload))
    ensures Whole(Chain(firstItem, chain)) && Whole(ChainFor(requests, chain)) && Whole(ReadRequests(chain, payload))
    ensures fresh(chain) && fresh(ResultsOf(chain))
  {
    firstItem, chain := null, [];
    var item: AsynReadItem? := null;
    for k := 0 to |requests|
      invariant Whole(Chain(firstItem, chain)) && Whole(ReadRequests(chain, payload))
      invariant Whole(ChainFor(requests[..k], chain)) && item == if k == 0 then null else chain[k - 1]
      invariant fresh(chain) && fresh(ResultsOf(chain))
    {
      var q := requests[k].request;
      var newItem := new AsynReadItem(q.area, q.areaNumber, q.startByte, q.bufferSize, q.buffer);
      AllDifferent(chain, payload);
      firstItem := Link(firstItem, item, newItem, chain);
      item := newItem;
      LongerChain(requests, k, chain, newItem, payload);
      chain := chain + [newItem];
    }
    assert requests[..|requests|] == requests;
  }

  lemma AllDifferent(chain: seq<AsynReadItem>, payload: array<byte>)
    requires Whole(ReadRequests(chain, payload))
    ensures forall k | 0 <= k < |chain| - 1 :: chain[k] != chain[|chain| - 1]
  {
    forall k | 0 <= k < |chain| - 1 ensures chain[k] != chain[|chain| - 1] {
      assert chain[k].result != chain[|chain| - 1].result;
    }
  }

  lemma LongerChain(requests: seq<Entry>, k: nat, chain: seq<AsynReadItem>, newItem: AsynReadItem, payload: array<byte>)
    requires Whole(Pollable(requests, payload)) && k < |requests| && Whole(ChainFor(requests[..k], chain))
        && Whole(ReadRequests(chain, payload))
    requires ItemFor(requests[k].request, newItem) && newItem.result !in ResultsOf(chain)
    requires newItem.result.bytesRead == 0 && newItem.result.status == Success
    ensures Whole(ChainFor(requests[..k + 1], chain + [newItem])) && Whole(ReadRequests(chain + [newItem], payload))
    ensures ResultsOf(chain + [newItem]) == ResultsOf(chain) + {newItem.result}
  {
    assert forall j | 0 <= j < k :: ItemFor(requests[j].request, chain[j]) && chain[j] in chain;
  }

  ghost function Buffers(requests: seq<Entry>): set<array<byte>> {
    set k | 0 <= k < |requests| :: requests[k].request.buffer
  }

  /**
   * What decides about a poll: all requests, what the PLC stores, the length of the telegrams,
   * whether the read as a whole has been successful, and whether the PLC tells no errors about
   * what it has and no block is measured differently.
   */
  datatype Poll = Poll(entries: seq<Entry>, memory: Memory, pduLength: int, read: bool, faithful: bool)

  function RangeWanted(q: PollRequest): Range {
    Range(q.area, q.areaNumber, q.startByte, q.bufferSize)
  }

  function RangesWanted(entries: seq<Entry>): seq<Range> {
    seq(|entries|, k requires 0 <= k < |entries| => RangeWanted(entries[k].request))
  }

  /**
   * The response fits the request: a success hands over exactly the bytes that the PLC
   * stores. No request has success if the read as a whole had none, or if it does not fit into a
   * telegram itself; otherwise, if the PLC is faithful, one that is in order with the others has.
   */
  ghost predicate Fits(q: PollRequest, response: PollResponse, poll: Poll) {
    && response.bufferSize == q.bufferSize == |response.bytes|
    && (response.success ==> Holds(poll.memory, q.area, q.areaNumber, q.startByte, response.bytes))
    && Succeeds(q, response.success, poll)
  }

  ghost predicate Succeeds(q: PollRequest, success: bool, poll: Poll) {
    && (!poll.read || Oversized(q.bufferSize, poll.pduLength) ==> !success)
    && (poll.read && poll.faithful
        && InOrder(RangesWanted(poll.entries), RangeWanted(q), poll.memory, poll.pduLength) ==>
          success)
  }

  /** There is one more response for each of the requests, in their order. */
  ghost predicate Answered(responses: seq<PollResponse>, before: seq<PollResponse>, requests: seq<PollRequest>,
      poll: Poll) {
    && |responses| == |before| + |requests| && before <= responses
    && forall j | 0 <= j < |requests| :: Fits(requests[j], responses[|before| + j], poll)
  }

  lemma OneMoreAnswer(responses: seq<PollResponse>, before: seq<PollResponse>, requests: seq<PollRequest>, poll: Poll,
                      q: PollRequest, response: PollResponse)
    requires Answered(responses, before, requests, poll) && Fits(q, response, poll)
    ensures Answered(responses + [response], before, requests + [q], poll)
  {
  }

  /** Decides for every request whether it has been successful. */
  method CheckSuccess(status: AsynStatus, firstItem: AsynReadItem?, ghost chain: seq<AsynReadItem>)
      returns (success: seq<bool>)
    requires Chain(firstItem, chain)
    ensures |success| == |chain| && forall k | 0 <= k < |chain| ::
        success[k] == (status == Success && FullyRead(chain[k]))
  {
    success := [];
    var item := firstItem;
    ghost var k := 0;
    while item != null
      invariant 0 <= k <= |chain| && item == if k < |chain| then chain[k] else null
      invariant |success| == k && forall j | 0 <= j < k :: success[j] == (status == Success && FullyRead(chain[j]))
      decreases |chain| - k
    {
      assert item == chain[k] && item.next == if k + 1 < |chain| then chain[k + 1] else null;
      var nextItem := item.next;
      success := success + [status == Success && item.result.status == Success
          && item.result.bytesRead == item.readBytes];
      item, k := nextItem, k + 1;
    }
  }

  /** What the requests have got, as values. */
  ghost function Outcomes(chain: seq<AsynReadItem>): (outcomes: seq<Outcome>)
    reads ResultsOf(chain), TargetsOf(chain)
    ensures |outcomes| == |chain| && forall k | 0 <= k < |chain| :: outcomes[k] == OutcomeOf(chain[k])
  {
    seq(|chain|, k requires 0 <= k < |chain| reads ResultsOf(chain), TargetsOf(chain) =>
      OutcomeOf(chain[k]))
  }

  ghost function OutcomeOf(r: AsynReadItem): Outcome
    reads r.result, r.buffer
  {
    Outcome(r.result.status, r.result.bytesRead, r.buffer[..])
  }

  /** The success of every request is decided rightly. */
  ghost predicate AllDecided(success: seq<bool>, poll: Poll)
    reads Buffers(poll.entries)
  {
    |success| == |poll.entries| && forall k | 0 <= k < |poll.entries| ::
      poll.entries[k].request.buffer in Buffers(poll.entries) && Decided(poll.entries[k].request, success[k], poll)
  }

  /** Hands the results to the requesters. */
  method Respond(requests: seq<Entry>, success: seq<bool>, ghost requesters: seq<PollRequester>, ghost poll: Poll)
    requires |success| == |requests| && forall k | 0 <= k < |requests| :: requests[k].requester in requesters
    requires forall k | 0 <= k < |requests| :: requests[k].request.buffer.Length == requests[k].request.bufferSize
    requires poll.entries == requests && AllDecided(success, poll)
    modifies requesters
    ensures forall r | r in requesters :: Answered(r.responses, old(r.responses), Of(r, requests), poll)
  {
    for k := 0 to |requests|
      invariant forall r | r in requesters :: Answered(r.responses, old(r.responses), Of(r, requests[..k]), poll)
    {
      var q, requester := requests[k].request, requests[k].requester;
      label before:
      assert Decided(q, success[k], poll);
      OneMoreAnswer(requester.responses, old(requester.responses), Of(requester, requests[..k]), poll,
                    q, PollResponse(success[k], q.bufferSize, q.buffer[..]));
      requester.ProcessResponse(success[k], q.bufferSize, q.buffer);
      forall r | r in requesters ensures Answered(r.responses, old(r.responses), Of(r, requests[..k + 1]), poll) {
        assert requests[..k + 1][..k] == requests[..k];
        if r == requester {
          assert Of(r, requests[..k + 1]) == Of(r, requests[..k]) + [q];
        } else {
          assert Of(r, requests[..k + 1]) == Of(r, requests[..k]);
          assert r.responses == old@before(r.responses);
        }
      }
    }
    assert requests[..|requests|] == requests;
  }

  /** Whether the request has been successful is right, and its buffer holds what the PLC stores then. */
  ghost predicate Decided(q: PollRequest, success: bool, poll: Poll)
    reads q.buffer
  {
    (success ==> Holds(poll.memory, q.area, q.areaNumber, q.startByte, q.buffer[..])) && Succeeds(q, success, poll)
  }

  lemma TargetsAreBuffers(requests: seq<Entry>, chain: seq<AsynReadItem>)
    requires ChainFor(requests, chain)
    ensures TargetsOf(chain) == Buffers(requests)
  {
    forall b | b in Buffers(requests) ensures b in TargetsOf(chain) {
      var k :| 0 <= k < |requests| && requests[k].request.buffer == b;
      assert ItemFor(requests[k].request, chain[k]) && chain[k] in chain;
    }
  }

  lemma SameRanges(requests: seq<Entry>, chain: seq<AsynReadItem>)
    requires ChainFor(requests, chain)
    ensures RangesWanted(requests) == RangesOf(chain)
  {
    forall k | 0 <= k < |chain| ensures RangesWanted(requests)[k] == RangesOf(chain)[k] {
      assert ItemFor(requests[k].request, chain[k]);
    }
  }

  /** Whether a request with this outcome is successful is right, and its bytes are those that the PLC stores then. */
  ghost predicate RightOutcome(q: PollRequest, o: Outcome, poll: Poll) {
    var success := poll.read && o.status == Success && o.bytesRead == q.bufferSize;
    (success ==> Holds(poll.memory, q.area, q.areaNumber, q.startByte, o.bytes)) && Succeeds(q, success, poll)
  }

  ghost predicate AllRight(outcomes: seq<Outcome>, poll: Poll) {
    |outcomes| == |poll.entries| && forall k | 0 <= k < |outcomes| ::
      RightOutcome(poll.entries[k].request, outcomes[k], poll)
  }

  /** The results of the batch decide for each request rightly. */
  lemma ResultsAreRight(chain: seq<AsynReadItem>, poll: Poll)
    requires ChainFor(poll.entries, chain) && AllWellSized(poll.entries) && 24 <= poll.pduLength
    requires poll.read ==> Whole(AllObtain(chain, poll.memory, poll.pduLength, poll.faithful))
    ensures Whole(AllRight(Outcomes(chain), poll))
  {
    SameRanges(poll.entries, chain);
    forall k | 0 <= k < |chain| ensures RightOutcome(poll.entries[k].request, Outcomes(chain)[k], poll) {
      var q, r := poll.entries[k].request, chain[k];
      assert ItemFor(q, r) && r in chain && RangeOf(r) == RangeWanted(q);
    }
  }

  lemma RightIsDecided(chain: seq<AsynReadItem>, outcomes: seq<Outcome>, poll: Poll, success: seq<bool>)
    requires ChainFor(poll.entries, chain) && Whole(AllRight(outcomes, poll)) && |success| == |chain| == |outcomes|
    requires forall k | 0 <= k < |chain| ::
      outcomes[k] == OutcomeOf(chain[k]) && success[k] == (poll.read && FullyRead(chain[k]))
    ensures Whole(AllDecided(success, poll))
  {
    forall k | 0 <= k < |poll.entries| ensures Decided(poll.entries[k].request, success[k], poll) {
      assert ItemFor(poll.entries[k].request, chain[k]);
      assert RightOutcome(poll.entries[k].request, outcomes[k], poll);
    }
  }

  lemma {:induction false} RequesterOf(requesters: seq<PollRequester>, k: nat)
    requires k < |AllRequests(requesters)|
    ensures AllRequests(requesters)[k].requester in requesters
    decreases |requesters|
  {
    var front := requesters[..|requesters| - 1];
    if k < |AllRequests(front)| {
      RequesterOf(front, k);
    }
  }

  /** Reads all requests and decides which of them have been successful. */
  method PollPlc(driver: Driver, requests: seq<Entry>, lockStatus: AsynStatus)
      returns (success: seq<bool>, ghost result: AsynStatus)
    requires driver.client.Valid() && 24 <= driver.client.PDULength <= 0xFFFF
        && Pollable(requests, driver.client.payload)
    modifies driver, driver.client, driver.client.payload, driver.client.plc, Buffers(requests)
    ensures driver.client.Valid() && driver.client.plc.memory == old(driver.client.plc.memory)
    ensures Whole(AllDecided(success, PollOf(driver, requests, old(driver.client.plc.tick), result)))
    ensures Polled(lockStatus, old(driver.connected), driver.connected, old(driver.client.plc.requests),
                   driver.client.plc.requests, result)
    ensures lockStatus == Success && old(driver.connected) ==> driver.EndedWell(old(driver.client.plc.tick), result)
    ensures old(CalmPoll(driver, requests, lockStatus)) ==> result == Success
  {
    var firstItem;
    ghost var chain;
    firstItem, chain := BuildChain(requests, driver.client.payload);
    TargetsAreBuffers(requests, chain);
    success, result := ReadChain(driver, firstItem, chain, lockStatus, requests);
  }

  /**
   * Without a lock, or without a connection, nothing is sent and the connection stays as it is; the
   * result is the status of the lock, or says that there is no connection. Otherwise the batch decides.
   */
  ghost predicate Polled(lockStatus: AsynStatus, wasConnected: bool, connected: bool, before: seq<seq<byte>>,
                         now: seq<seq<byte>>, result: AsynStatus) {
    if lockStatus != Success || !wasConnected then
      && now == before && connected == wasConnected
      && result == if lockStatus != Success then lockStatus else Disconnected
    else result == Success || result == Error
  }

  /** Reads the chain if the port could be locked, and decides which requests have been successful. */
  method ReadChain(driver: Driver, firstItem: AsynReadItem?, ghost chain: seq<AsynReadItem>, lockStatus: AsynStatus,
                   ghost requests: seq<Entry>)
      returns (success: seq<bool>, ghost result: AsynStatus)
    requires driver.client.Valid() && 24 <= driver.client.PDULength <= 0xFFFF
    requires Chain(firstItem, chain) && ReadRequests(chain, driver.client.payload)
    requires Whole(ChainFor(requests, chain)) && Whole(AllWellSized(requests))
    modifies driver, driver.client, driver.client.payload, driver.client.plc, ResultsOf(chain), TargetsOf(chain)
    ensures driver.client.Valid() && driver.client.plc.memory == old(driver.client.plc.memory)
    ensures Whole(AllDecided(success, PollOf(driver, requests, old(driver.client.plc.tick), result)))
    ensures Polled(lockStatus, old(driver.connected), driver.connected, old(driver.client.plc.requests),
                   driver.client.plc.requests, result)
    ensures lockStatus == Success && old(driver.connected) ==> driver.EndedWell(old(driver.client.plc.tick), result)
    ensures old(CalmPoll(driver, requests, lockStatus)) ==> result == Success
  {
    ghost var plc, tick := driver.client.plc, driver.client.plc.tick;
    SameRanges(requests, chain);
    var status := lockStatus;
    if status == Success {
      ghost var reported, ops;
      status, reported, ops := driver.AsynPlcReadMultipleItems(firstItem, chain);
    }
    result := status;
    ghost var poll := PollOf(driver, requests, tick, result);
    if lockStatus == Success && old(driver.connected) {
      BatchObtains(chain, poll.memory, poll.pduLength, plc, tick, poll.read, poll.read && poll.faithful);
    }
    success := Decide(status, firstItem, chain, poll);
  }

  /** Decides for every request whether it has been successful, rightly. */
  method Decide(status: AsynStatus, firstItem: AsynReadItem?, ghost chain: seq<AsynReadItem>, ghost poll: Poll)
      returns (success: seq<bool>)
    requires Chain(firstItem, chain) && Whole(ChainFor(poll.entries, chain)) && Whole(AllWellSized(poll.entries))
    requires 24 <= poll.pduLength && poll.read == (status == Success)
    requires poll.read ==> Whole(AllObtain(chain, poll.memory, poll.pduLength, poll.faithful))
    ensures Whole(AllDecided(success, poll))
  {
    ResultsAreRight(chain, poll);
    ghost var outcomes := Outcomes(chain);
    success := CheckSuccess(status, firstItem, chain);
    assert forall k | 0 <= k < |chain| :: outcomes[k] == OutcomeOf(chain[k]);
    RightIsDecided(chain, outcomes, poll, success);
  }

  /** The port is locked and connected, and the batch is calm. */
  ghost predicate CalmPoll(driver: Driver, entries: seq<Entry>, lockStatus: AsynStatus)
    reads driver, driver.client, driver.client.plc
  {
    var client := driver.client;
    lockStatus == Success && driver.connected
    && Calm(RangesWanted(entries), client.plc.memory, client.PDULength, client.plc, client.plc.tick)
  }

  /** What decides about a poll that started with the telegram at `tick` and has had this result. */
  ghost function PollOf(driver: Driver, entries: seq<Entry>, tick: nat, result: AsynStatus): Poll
    reads driver, driver.client, driver.client.plc
  {
    var client := driver.client;
    Poll(entries, client.plc.memory, client.PDULength, result == Success,
         PlcFaithful(client.PDULength, client.plc, tick) && WellMeasured(RangesWanted(entries), client.PDULength))
  }

  /**
   * One poll. Every requester gets exactly one response for each of its requests, in the
   * order of its requests, whatever happens; a successful response holds exactly the
   * bytes that the PLC stores, as if the request had been read on its own. The poll has a result as
   * a whole, which tells whether the port could be locked and what became of the telegrams.
   */
  method Process(driver: Driver, requesters: seq<PollRequester>, lockStatus: AsynStatus)
      returns (ghost result: AsynStatus)
    requires driver.client.Valid() && 24 <= driver.client.PDULength <= 0xFFFF && NoDuplicates(requesters)
    requires Pollable(AllRequests(requesters), driver.client.payload)
    modifies driver, driver.client, driver.client.payload, driver.client.plc, requesters,
        Buffers(AllRequests(requesters))
    ensures driver.client.Valid() && driver.client.plc.memory == old(driver.client.plc.memory)
    ensures forall r | r in requesters ::
      Answered(r.responses, old(r.responses), r.wants,
               PollOf(driver, AllRequests(requesters), old(driver.client.plc.tick), result))
    ensures requesters != [] ==>
      Polled(lockStatus, old(driver.connected), driver.connected, old(driver.client.plc.requests),
             driver.client.plc.requests, result)
    ensures requesters == [] ==>
      driver.client.plc.requests == old(driver.client.plc.requests) && driver.connected == old(driver.connected)
    ensures requesters != [] && lockStatus == Success && old(driver.connected) ==>
      driver.EndedWell(old(driver.client.plc.tick), result)
    ensures requesters != [] && old(CalmPoll(driver, AllRequests(requesters), lockStatus)) ==> result == Success
  {
    result := lockStatus;
    if requesters == [] {
      return;
    }
    var requests := GatherRequests(requesters);
    var success;
    success, result := PollPlc(driver, requests, lockStatus);
    forall k | 0 <= k < |requests| ensures requests[k].requester in requesters {
      RequesterOf(requesters, k);
    }
    ghost var poll := PollOf(driver, requests, old(driver.client.plc.tick), result);
    Respond(requests, success, requesters, poll);
    forall r | r in requesters ensures Of(r, requests) == r.wants {
      OfAll(r, requesters);
    }
  }

  /**
   * Where a poll does what reading every request alone would do: if the read as a whole has been
   * successful, and the PLC is faithful and has all the ranges, all responses are successes if
   * and only if each request fits into a telegram.
   */
  lemma AllSucceedIff(poll: Poll, responses: seq<PollResponse>)
    requires poll.read && poll.faithful && |responses| == |poll.entries|
    requires forall k | 0 <= k < |poll.entries| :: Existing(RangeWanted(poll.entries[k].request), poll.memory)
    requires forall k | 0 <= k < |poll.entries| :: Fits(poll.entries[k].request, responses[k], poll)
    ensures (forall k | 0 <= k < |responses| :: responses[k].success)
        <==> (forall k | 0 <= k < |poll.entries| :: !Oversized(poll.entries[k].request.bufferSize, poll.pduLength))
    ensures poll.pduLength % 2 == 0 ==>
        ((forall k | 0 <= k < |responses| :: responses[k].success)
         <==> (forall k | 0 <= k < |poll.entries| :: poll.entries[k].request.bufferSize + 4 <= poll.pduLength - 14))
  {
    if forall k | 0 <= k < |poll.entries| :: !Oversized(poll.entries[k].request.bufferSize, poll.pduLength) {
      forall k | 0 <= k < |responses| ensures responses[k].success {
        WantedInOrder(poll, RangeWanted(poll.entries[k].request));
      }
    }
    if poll.pduLength % 2 == 0 {
      forall k | 0 <= k < |poll.entries|
        ensures Oversized(poll.entries[k].request.bufferSize, poll.pduLength)
            <==> poll.entries[k].request.bufferSize + 4 > poll.pduLength - 14
      {
        OversizedIff(poll.entries[k].request.bufferSize, poll.pduLength);
      }
    }
  }

  lemma WantedInOrder(poll: Poll, r: Range)
    requires forall k | 0 <= k < |poll.entries| ::
        && Existing(RangeWanted(poll.entries[k].request), poll.memory)
        && !Oversized(poll.entries[k].request.bufferSize, poll.pduLength)
    ensures InOrder(RangesWanted(poll.entries), r, poll.memory, poll.pduLength)
  {
    forall q | q in RangesWanted(poll.entries)
      ensures Existing(q, poll.memory) && !Oversized(q.readBytes, poll.pduLength)
    {
      var k :| 0 <= k < |poll.entries| && RangesWanted(poll.entries)[k] == q;
    }
  }
}

/** An input record: record thread, port thread and poll thread share the new data. */
module InputRecord {
  import opened PlcTypes
  import opened BufferHeap
  import opened StepHistory

  /** Where the record thread is in `processRecord`. */
  datatype RecordThread =
    | RecordIdle
    | Took(data: Option<nat>, error: bool, byCallback: bool)
    | Queueing

  /** Where the port thread is in `asynProcessCallback`. */
  datatype PortThread =
    | PortIdle
    | PortRead(buffer: Option<nat>, success: bool)
    | PortStored

  /** Where the poll thread is between preparing a request and dealing with the response. */
  datatype PollThread =
    | PollIdle
    | PollWaiting(buffer: nat)
    | PollAnswered(result: Option<nat>, success: bool)
    | PollStored

  /** What a processing of the record comes to: the value from a buffer, or a read alarm. */
  datatype Report =
    | Value(buffer: nat)
    | ReadAlarm

  /**
   * What the threads share, and where they are. `queued` and `callbacks` count pending requests of
   * the port and of the record, and `scanRequested` says that a poll has asked for a scan; `reports`
   * lists what the record has come to so far, and `udf` says that it has no value yet.
   */
  datatype State = State(newData: Option<nat>, processCallbackError: bool, pact: bool, queued: nat, callbacks: nat,
                         record: RecordThread, port: PortThread, poll: PollThread, heap: Heap, reports: seq<Report>,
                         udf: bool, scanRequested: bool)

  const INITIAL := State(None, false, false, 0, 0, RecordIdle, PortIdle, PollIdle, EMPTY, [], true, false)

  /** The steps; each is atomic because it holds the mutex or touches nothing that is shared. */
  datatype Step =
    | Scanned
    | ScannedForPoll
    | ScanIgnored
    | CalledBack
    | RecordGoesOn
    | QueueRequest(accepted: bool)
    | PortReads(success: bool)
    | PortStores
    | PortFinishes
    | PollPrepares
    | PollResponds(success: bool, realigned: bool)
    | PollStores
    | PollFinishes

  /** Record support does not process a record that is being processed; a callback always processes it. */
  predicate Enabled(s: State, step: Step) {
    match step
    case Scanned => s.record.RecordIdle? && !s.pact
    case ScannedForPoll => s.record.RecordIdle? && !s.pact && s.scanRequested
    case ScanIgnored => s.pact && s.scanRequested
    case CalledBack => s.record.RecordIdle? && s.callbacks > 0
    case RecordGoesOn => s.record.Took?
    case QueueRequest(_) => s.record.Queueing?
    case PortReads(_) => s.port.PortIdle? && s.queued > 0
    case PortStores => s.port.PortRead?
    case PortFinishes => s.port.PortStored?
    case PollPrepares => s.poll.PollIdle?
    case PollResponds(_, _) => s.poll.PollWaiting?
    case PollStores => s.poll.PollAnswered?
    case PollFinishes => s.poll.PollStored?
  }

  /** The section of `processRecord` that takes the new data. */
  function TakeData(s: State, byCallback: bool): State {
    s.(record := Took(s.newData, s.processCallbackError, byCallback), newData := None, processCallbackError := false)
  }

  /** The section that stores new data, after freeing data that has not been taken. */
  function StoreData(s: State, buffer: Option<nat>, success: bool): State {
    s.(newData := buffer, processCallbackError := !success, heap := FreeIf(s.heap, s.newData))
  }

  /** The end of `processRecord`, with what the record has come to. */
  function Finished(s: State, report: seq<Report>): State
    requires s.record.Took?
  {
    s.(heap := FreeIf(s.heap, s.record.data), pact := false, record := RecordIdle, reports := s.reports + report)
  }

  function Next(s: State, step: Step): State
    requires Enabled(s, step)
  {
    match step
    case Scanned => TakeData(s, false)
    case ScannedForPoll => TakeData(s.(scanRequested := false), false)
    case ScanIgnored => s.(scanRequested := false)
    case CalledBack => TakeData(s.(callbacks := s.callbacks - 1), true)
    case RecordGoesOn =>
      // with an error or new data, processing ends; otherwise a read is started
      if s.record.error then Finished(s, [ReadAlarm])
      else if s.record.data.Some? then Finished(s, [Value(s.record.data.value)]).(udf := false)
      else if !s.pact then s.(pact := true, record := Queueing)
      else Finished(s, [])
    case QueueRequest(accepted) =>
      if accepted then s.(queued := s.queued + 1, record := RecordIdle)
      else s.(pact := false, record := RecordIdle, reports := s.reports + [ReadAlarm])
    case PortReads(success) =>
      var taken := s.(queued := s.queued - 1, heap := Alloc(s.heap));
      if success then taken.(port := PortRead(Some(s.heap.next), true))
      else taken.(heap := Free(taken.heap, s.heap.next), port := PortRead(None, false))
    case PortStores => StoreData(s, s.port.buffer, s.port.success).(port := PortStored)
    case PortFinishes => s.(port := PortIdle, callbacks := if s.pact then s.callbacks + 1 else s.callbacks)
    case PollPrepares => s.(heap := Alloc(s.heap), poll := PollWaiting(s.heap.next))
    case PollResponds(success, realigned) =>
      if !success then s.(heap := Free(s.heap, s.poll.buffer), poll := PollAnswered(None, false))
      else if realigned then s.(heap := Free(Alloc(s.heap), s.poll.buffer),
          poll := PollAnswered(Some(s.heap.next), true))
      else s.(poll := PollAnswered(Some(s.poll.buffer), true))
    case PollStores => StoreData(s, s.poll.result, s.poll.success).(poll := PollStored)
    case PollFinishes => s.(poll := PollIdle, scanRequested := true)
  }

  // ---------- what every interleaving keeps ----------

  function HeldByRecord(s: State): set<nat> {
    if s.record.Took? then InSet(s.record.data) else {}
  }

  function HeldByPort(s: State): set<nat> {
    if s.port.PortRead? then InSet(s.port.buffer) else {}
  }

  function HeldByPoll(s: State): set<nat> {
    match s.poll case PollWaiting(b) => {b} case PollAnswered(r, _) => InSet(r) case _ => {}
  }

  /** Every live buffer is in exactly one place. */
  ghost predicate Owned(s: State) {
    && Sane(s.heap)
    && s.heap.live == InSet(s.newData) + HeldByRecord(s) + HeldByPort(s) + HeldByPoll(s)
    && InSet(s.newData) !! HeldByRecord(s) !! HeldByPort(s) !! HeldByPoll(s)
  }

  /** New data and an error never come together. */
  ghost predicate DataOrError(s: State) {
    && !(s.newData.Some? && s.processCallbackError)
    && (s.record.Took? ==> !(s.record.data.Some? && s.record.error))
    && (s.port.PortRead? ==> s.port.success == s.port.buffer.Some?)
    && (s.poll.PollAnswered? ==> s.poll.success == s.poll.result.Some?)
  }

  function Pending(s: State): nat {
    s.queued + s.callbacks + (if s.port.PortIdle? then 0 else 1) + if s.record.Took? && s.record.byCallback then 1
        else 0
  }

  /**
   * A record that is being processed is about to queue its request, or exactly one thing
   * is pending for it: the request, the read, the callback, or the processing of the result.
   */
  ghost predicate OnePending(s: State) {
    Pending(s) == if s.pact && !s.record.Queueing? then 1 else 0
  }

  /** A callback finds a result: new data or an error. */
  ghost predicate ResultForCallback(s: State) {
    && (s.callbacks > 0 || s.port.PortStored? ==> s.newData.Some? || s.processCallbackError)
    && (s.record.Took? && s.record.byCallback ==> s.record.data.Some? || s.record.error)
  }

  ghost predicate Inv(s: State) {
    Owned(s) && DataOrError(s) && OnePending(s) && ResultForCallback(s) && (s.record.Queueing? ==> s.pact)
    && (s.record.Took? && !s.record.byCallback ==> !s.pact)
  }

  lemma StepKeepsInv(s: State, step: Step)
    requires Inv(s) && Enabled(s, step)
    ensures Inv(Next(s, step))
  {
    StepKeepsOwned(s, step);
    StepKeepsPending(s, step);
    StepKeepsResult(s, step);
  }

  lemma StepKeepsPending(s: State, step: Step)
    requires Inv(s) && Enabled(s, step)
    ensures OnePending(Next(s, step)) && (Next(s, step).record.Queueing? ==> Next(s, step).pact)
    ensures Next(s, step).record.Took? && !Next(s, step).record.byCallback ==> !Next(s, step).pact
  {
  }

  lemma StepKeepsResult(s: State, step: Step)
    requires Inv(s) && Enabled(s, step)
    ensures DataOrError(Next(s, step)) && ResultForCallback(Next(s, step))
  {
  }

  lemma StepKeepsOwned(s: State, step: Step)
    requires Owned(s) && DataOrError(s) && Enabled(s, step)
    ensures Owned(Next(s, step))
  {
    if IsTake(step) || step.ScanIgnored? || step.QueueRequest? || step.PortFinishes? || step.PollFinishes? {
      NothingMoves(s, step);
    } else {
      match step
      case PortStores => PortStoresOwned(s);
      case PollStores => PollStoresOwned(s);
      case RecordGoesOn => GoesOnOwned(s);
      case PortReads(success) => PortReadsOwned(s, success);
      case PollPrepares => AllocSane(s.heap);
      case PollResponds(success, realigned) => PollRespondsOwned(s, success, realigned);
    }
  }

  /** Steps that neither allocate nor free a buffer. */
  lemma NothingMoves(s: State, step: Step)
    requires Owned(s) && Enabled(s, step)
    requires IsTake(step) || step.ScanIgnored? || step.QueueRequest? || step.PortFinishes? || step.PollFinishes?
    ensures Owned(Next(s, step))
  {
  }

  lemma PortStoresOwned(s: State)
    requires Owned(s) && Enabled(s, PortStores)
    ensures Owned(Next(s, PortStores))
  {
    FreeOwned(s, s.newData);
  }

  lemma PollStoresOwned(s: State)
    requires Owned(s) && Enabled(s, PollStores)
    ensures Owned(Next(s, PollStores))
  {
    FreeOwned(s, s.newData);
  }

  lemma GoesOnOwned(s: State)
    requires Owned(s) && DataOrError(s) && s.record.Took?
    ensures Owned(Next(s, RecordGoesOn))
  {
    FreeOwned(s, s.record.data);
  }

  lemma FreeOwned(s: State, b: Option<nat>)
    requires Owned(s) && InSet(b) <= s.heap.live
    ensures Sane(FreeIf(s.heap, b)) && FreeIf(s.heap, b).live == s.heap.live - InSet(b)
  {
    if b.Some? {
      assert b.value in InSet(b);
      FreeSane(s.heap, b.value);
    }
  }

  lemma PortReadsOwned(s: State, success: bool)
    requires Owned(s) && Enabled(s, PortReads(success))
    ensures Owned(Next(s, PortReads(success)))
  {
    AllocSane(s.heap);
    FreeSane(Alloc(s.heap), s.heap.next);
  }

  lemma PollRespondsOwned(s: State, success: bool, realigned: bool)
    requires Owned(s) && Enabled(s, PollResponds(success, realigned))
    ensures Owned(Next(s, PollResponds(success, realigned)))
  {
    assert s.poll.buffer in HeldByPoll(s);
    AllocSane(s.heap);
    if success {
      FreeSane(Alloc(s.heap), s.poll.buffer);
    } else {
      FreeSane(s.heap, s.poll.buffer);
    }
  }

  // ---------- all runs ----------

  /** A run: every state comes from the one before by a step. */
  ghost predicate IsRun(run: seq<State>, steps: seq<Step>) {
    && |run| == |steps| + 1 && run[0] == INITIAL
    && forall i {:trigger Goes(run, steps, i)} | 0 <= i < |steps| :: Goes(run, steps, i)
  }

  ghost predicate Goes(run: seq<State>, steps: seq<Step>, i: nat)
    requires i < |steps| < |run|
  {
    Enabled(run[i], steps[i]) && run[i + 1] == Next(run[i], steps[i])
  }

  lemma {:induction false} RunKeepsInv(run: seq<State>, steps: seq<Step>, i: nat)
    requires IsRun(run, steps) && i < |run|
    ensures Inv(run[i])
    decreases i
  {
    if i > 0 {
      RunKeepsInv(run, steps, i - 1);
      assert Goes(run, steps, i - 1);
      StepKeepsInv(run[i - 1], steps[i - 1]);
    } else {
      assert Pending(INITIAL) == 0;
    }
  }

  /**
   * In every interleaving: no buffer is freed twice or while it is somewhere else, none is
   * lost, new data and an error never come together, a callback finds the record being
   * processed, and when the port thread finishes the record is always called back.
   */
  lemma EveryRunIsSafe(run: seq<State>, steps: seq<Step>, i: nat)
    requires IsRun(run, steps) && i < |run|
    ensures !run[i].heap.bad && Sane(run[i].heap) && Owned(run[i])
    ensures !(run[i].newData.Some? && run[i].processCallbackError)
    ensures run[i].callbacks > 0 || run[i].port.PortStored? ==> run[i].pact
    ensures run[i].queued + run[i].callbacks <= 1
    ensures i < |steps| && steps[i].PortFinishes? ==> run[i + 1].callbacks == 1
  {
    RunKeepsInv(run, steps, i);
    assert i < |steps| ==> Goes(run, steps, i);
  }

  // ---------- what the record comes to ----------

  predicate IsTake(step: Step) { step.Scanned? || step.ScannedForPoll? || step.CalledBack? }

  predicate IsStore(step: Step) { step.PortStores? || step.PollStores? }

  predicate IsTakeOrStore(step: Step) { IsTake(step) || IsStore(step) }

  predicate IsRead(step: Step) { step.PortReads? }

  predicate IsPrepare(step: Step) { step.PollPrepares? }

  predicate IsResponse(step: Step) { step.PollResponds? }

  predicate IsRecordStep(step: Step) { IsTake(step) || step.RecordGoesOn? || step.QueueRequest? }

  /**
   * The result that the k-th step stores, in terms of the steps before: an alarm if the last read
   * or poll has failed; otherwise the buffer that it has filled. A read and a realignment fill a
   * buffer of their own, a poll without realignment the one that has been prepared for it.
   */
  ghost function ResultOf(run: seq<State>, steps: seq<Step>, k: nat): Report
    requires IsRun(run, steps) && k < |steps|
  {
    var i := Last(steps, k, if steps[k].PortStores? then IsRead else IsResponse);
    if i < 0 || !Successful(steps[i]) then ReadAlarm
    else if steps[i].PollResponds? && !steps[i].realigned then
      var j := Last(steps, i, IsPrepare);
      if j < 0 then ReadAlarm else Value(run[j].heap.next)
    else Value(run[i].heap.next)
  }

  predicate Successful(step: Step) {
    match step case PortReads(success) => success case PollResponds(success, _) => success case _ => false
  }

  /** The port thread holds what its last read has brought. */
  lemma {:induction false} PortHolds(run: seq<State>, steps: seq<Step>, n: nat)
    requires IsRun(run, steps) && n < |run| && run[n].port.PortRead?
    ensures var i := Last(steps, n, IsRead);
            && i >= 0 && run[n].port.success == steps[i].success
            && run[n].port.buffer == if steps[i].success then Some(run[i].heap.next) else None
  {
    if n > 0 {
      PortStep(run, steps, n - 1);
      if !IsRead(steps[n - 1]) {
        PortHolds(run, steps, n - 1);
      }
    }
  }

  lemma PortStep(run: seq<State>, steps: seq<Step>, k: nat)
    requires IsRun(run, steps) && k < |steps| && run[k + 1].port.PortRead?
    ensures if IsRead(steps[k]) then
              run[k + 1].port
              == if steps[k].success then PortRead(Some(run[k].heap.next), true) else PortRead(None, false)
            else run[k + 1].port == run[k].port
  {
    assert Goes(run, steps, k);
  }

  /** While the poll thread waits, it holds the buffer that it has prepared. */
  lemma {:induction false} PollWaits(run: seq<State>, steps: seq<Step>, n: nat)
    requires IsRun(run, steps) && n < |run| && run[n].poll.PollWaiting?
    ensures var i := Last(steps, n, IsPrepare); i >= 0 && run[n].poll.buffer == run[i].heap.next
  {
    if n > 0 {
      PollStep(run, steps, n - 1);
      if !IsPrepare(steps[n - 1]) {
        PollWaits(run, steps, n - 1);
      }
    }
  }

  lemma PollStep(run: seq<State>, steps: seq<Step>, k: nat)
    requires IsRun(run, steps) && k < |steps|
    ensures run[k + 1].poll.PollWaiting? ==>
              run[k + 1].poll == if IsPrepare(steps[k]) then PollWaiting(run[k].heap.next) else run[k].poll
    ensures run[k + 1].poll.PollAnswered? && !IsResponse(steps[k]) ==> run[k + 1].poll == run[k].poll
    ensures run[k + 1].poll.PollAnswered? && IsResponse(steps[k]) ==>
              && run[k].poll.PollWaiting?
              && run[k + 1].poll == if !steps[k].success then PollAnswered(None, false)
                   else PollAnswered(Some(if steps[k].realigned then run[k].heap.next else run[k].poll.buffer), true)
  {
    assert Goes(run, steps, k);
  }

  /** The poll thread holds what the last response has brought. */
  lemma {:induction false} PollHolds(run: seq<State>, steps: seq<Step>, n: nat)
    requires IsRun(run, steps) && n < |run| && run[n].poll.PollAnswered?
    ensures var i := Last(steps, n, IsResponse);
            && i >= 0 && run[n].poll.success == steps[i].success
            && (!steps[i].success ==> run[n].poll.result == None)
            && (steps[i].success && steps[i].realigned ==> run[n].poll.result == Some(run[i].heap.next))
            && (steps[i].success && !steps[i].realigned ==>
                  var j := Last(steps, i, IsPrepare); j >= 0 && run[n].poll.result == Some(run[j].heap.next))
  {
    if n > 0 {
      PollStep(run, steps, n - 1);
      if IsResponse(steps[n - 1]) {
        PollWaits(run, steps, n - 1);
      } else {
        PollHolds(run, steps, n - 1);
      }
    }
  }

  /** The new data, or the error, is the result that is given; without one there is neither. */
  ghost predicate Shows(newData: Option<nat>, error: bool, result: Option<Report>) {
    match result
    case None => newData.None? && !error
    case Some(Value(buffer)) => newData == Some(buffer) && !error
    case Some(ReadAlarm) => newData.None? && error
  }

  /** The result that has been stored and not taken when the first n steps have been made. */
  ghost function StoredResult(run: seq<State>, steps: seq<Step>, n: nat): Option<Report>
    requires IsRun(run, steps) && n < |run|
  {
    var i := Last(steps, n, IsTakeOrStore);
    if i >= 0 && IsStore(steps[i]) then Some(ResultOf(run, steps, i)) else None
  }

  /** What the threads share shows the last result that has been stored, unless it has been taken. */
  lemma {:induction false} SharedShowsResult(run: seq<State>, steps: seq<Step>, n: nat)
    requires IsRun(run, steps) && n < |run|
    ensures Shows(run[n].newData, run[n].processCallbackError, StoredResult(run, steps, n))
  {
    if n > 0 {
      if IsStore(steps[n - 1]) {
        StoredIsResult(run, steps, n - 1);
      } else if IsTake(steps[n - 1]) {
        NothingStored(run, steps, n - 1);
      } else {
        SharedShowsResult(run, steps, n - 1);
        StoredStays(run, steps, n - 1);
      }
    }
  }

  lemma NothingStored(run: seq<State>, steps: seq<Step>, k: nat)
    requires IsRun(run, steps) && k < |steps| && IsTake(steps[k])
    ensures run[k + 1].newData.None? && !run[k + 1].processCallbackError && StoredResult(run, steps, k + 1) == None
  {
    assert Goes(run, steps, k);
  }

  lemma StoredStays(run: seq<State>, steps: seq<Step>, k: nat)
    requires IsRun(run, steps) && k < |steps| && !IsTakeOrStore(steps[k])
    ensures run[k + 1].newData == run[k].newData && run[k + 1].processCallbackError == run[k].processCallbackError
    ensures StoredResult(run, steps, k + 1) == StoredResult(run, steps, k)
  {
    assert Goes(run, steps, k);
  }

  lemma StoredIsResult(run: seq<State>, steps: seq<Step>, k: nat)
    requires IsRun(run, steps) && k < |steps| && IsStore(steps[k])
    ensures Shows(run[k + 1].newData, run[k + 1].processCallbackError, Some(ResultOf(run, steps, k)))
  {
    assert Goes(run, steps, k);
    if steps[k].PortStores? {
      PortHolds(run, steps, k);
    } else {
      PollHolds(run, steps, k);
    }
  }

  /** The record thread holds what it has taken when processing began. */
  lemma {:induction false} RecordHolds(run: seq<State>, steps: seq<Step>, n: nat)
    requires IsRun(run, steps) && n < |run| && run[n].record.Took?
    ensures var j := Last(steps, n, IsTake);
            j >= 0 && run[n].record == Took(run[j].newData, run[j].processCallbackError, steps[j].CalledBack?)
  {
    if n > 0 {
      RecordStep(run, steps, n - 1);
      if !IsTake(steps[n - 1]) {
        RecordHolds(run, steps, n - 1);
      }
    }
  }

  lemma RecordStep(run: seq<State>, steps: seq<Step>, k: nat)
    requires IsRun(run, steps) && k < |steps| && run[k + 1].record.Took?
    ensures run[k + 1].record == if IsTake(steps[k])
        then Took(run[k].newData, run[k].processCallbackError, steps[k].CalledBack?) else run[k].record
  {
    assert Goes(run, steps, k);
  }

  /**
   * What a processing of the record comes to. If a result has been stored since the one before,
   * the record reports the last such result: data as the value, a failure as an alarm. Otherwise
   * it has not been called back, and a read is started.
   */
  lemma EveryProcessing(run: seq<State>, steps: seq<Step>, k: nat)
    requires IsRun(run, steps) && k < |steps| && steps[k].RecordGoesOn?
    ensures var j := Last(steps, k, IsTake);
            && j >= 0
            && match StoredResult(run, steps, j)
               case Some(result) =>
                 run[k + 1].reports == run[k].reports + [result] && !run[k + 1].pact && run[k + 1].record.RecordIdle?
                 && (result.Value? ==> !run[k + 1].udf)
               case None =>
                 run[k + 1].reports == run[k].reports && run[k + 1].pact && run[k + 1].record.Queueing?
                 && !steps[j].CalledBack?
  {
    RunKeepsInv(run, steps, k);
    assert Goes(run, steps, k);
    RecordHolds(run, steps, k);
    SharedShowsResult(run, steps, Last(steps, k, IsTake));
  }

  /** A request that is not accepted is reported as an alarm; nothing else is reported at other times. */
  lemma NothingElseReported(run: seq<State>, steps: seq<Step>, k: nat)
    requires IsRun(run, steps) && k < |steps| && !steps[k].RecordGoesOn?
    ensures run[k + 1].udf == run[k].udf
    ensures run[k + 1].reports == run[k].reports + if steps[k] == QueueRequest(false) then [ReadAlarm] else []
  {
    assert Goes(run, steps, k);
  }

  lemma ReportStep(run: seq<State>, steps: seq<Step>, k: nat)
    requires IsRun(run, steps) && k < |steps|
    ensures || (run[k + 1].reports == run[k].reports && run[k + 1].udf == run[k].udf)
            || exists r :: run[k + 1].reports == run[k].reports + [r] && run[k + 1].udf == (run[k].udf && !r.Value?)
  {
    assert Goes(run, steps, k);
    var before, now := run[k].reports, run[k + 1].reports;
    if now != before {
      assert now == before + [now[|before|]];
    }
  }

  /** The record has a value as soon as one has been reported. */
  lemma {:induction false} DefinedIff(run: seq<State>, steps: seq<Step>, n: nat)
    requires IsRun(run, steps) && n < |run|
    ensures !run[n].udf <==> exists r | r in run[n].reports :: r.Value?
  {
    if n > 0 {
      DefinedIff(run, steps, n - 1);
      ReportStep(run, steps, n - 1);
      if run[n].reports != run[n - 1].reports {
        var r :| run[n].reports == run[n - 1].reports + [r] && run[n].udf == (run[n - 1].udf && !r.Value?);
        assert r in run[n].reports && forall q | q in run[n - 1].reports :: q in run[n].reports;
      }
    }
  }

  /** The record thread stays where it is while only other threads make steps. */
  lemma {:induction false} RecordStays(run: seq<State>, steps: seq<Step>, i: nat, k: nat)
    requires IsRun(run, steps) && i <= k < |run| && forall m | i <= m < k :: !IsRecordStep(steps[m])
    ensures run[k].record == run[i].record
    decreases k
  {
    if i < k {
      RecordStays(run, steps, i, k - 1);
      assert Goes(run, steps, k - 1);
    }
  }

  /**
   * A scan that finds no data and no error starts a read: once its request has been accepted, the
   * record is being processed and the request is queued, whatever the other threads do.
   */
  lemma ScanStartsRead(run: seq<State>, steps: seq<Step>, j: nat, k: nat, q: nat)
    requires IsRun(run, steps) && j < k < q < |steps|
    requires IsTake(steps[j]) && !steps[j].CalledBack? && run[j].newData.None? && !run[j].processCallbackError
    requires forall m | j < m < k :: !IsRecordStep(steps[m])
    requires IsRecordStep(steps[k]) && forall m | k < m < q :: !IsRecordStep(steps[m])
    requires IsRecordStep(steps[q]) && steps[q] != QueueRequest(false)
    ensures steps[k].RecordGoesOn? && steps[q] == QueueRequest(true)
    ensures run[q + 1].pact && run[q + 1].queued == 1 && run[q + 1].record.RecordIdle?
  {
    RunKeepsInv(run, steps, j);
    assert Goes(run, steps, j);
    RecordStays(run, steps, j + 1, k);
    RunKeepsInv(run, steps, k);
    assert Goes(run, steps, k);
    RecordStays(run, steps, k + 1, q);
    assert Goes(run, steps, q);
    RunKeepsInv(run, steps, q + 1);
  }

  /** After every poll a scan is requested, until the record is scanned for it or found being processed. */
  lemma PollAsksForScan(run: seq<State>, steps: seq<Step>, k: nat)
    requires IsRun(run, steps) && k < |steps|
    ensures run[k + 1].scanRequested
        <==> steps[k].PollFinishes? || (run[k].scanRequested && !steps[k].ScannedForPoll? && !steps[k].ScanIgnored?)
    ensures steps[k].ScanIgnored? ==> run[k].pact && run[k + 1] == run[k].(scanRequested := false)
    ensures run[k].scanRequested && run[k].record.RecordIdle? && !run[k].pact ==> Enabled(run[k], ScannedForPoll)
  {
    assert Goes(run, steps, k);
  }

  /**
   * The result of a read that is not overwritten by a poll is what the record reports when it has been
   * called back for it.
   */
  lemma ReadIsReported(run: seq<State>, steps: seq<Step>, h: nat, i: nat, j: nat, k: nat)
    requires IsRun(run, steps) && h < i < j < k < |steps|
    requires steps[h].PortReads? && steps[i].PortStores? && forall m | h < m < i :: !IsRead(steps[m])
    requires IsTake(steps[j]) && forall m | i < m < j :: !IsTakeOrStore(steps[m])
    requires steps[k].RecordGoesOn? && forall m | j < m < k :: !IsTake(steps[m])
    ensures run[k + 1].reports
        == run[k].reports + [if steps[h].success then Value(run[h].heap.next) else ReadAlarm]
  {
    LastIs(steps, i, IsRead, h);
    LastIs(steps, j, IsTakeOrStore, i);
    LastIs(steps, k, IsTake, j);
    EveryProcessing(run, steps, k);
  }

  /** The steps of the record thread and the port thread that carry the processing of the record on. */
  predicate CarriesOn(step: Step) {
    step.RecordGoesOn? || step.QueueRequest? || step.PortReads? || step.PortStores? || step.PortFinishes?
        || step.CalledBack?
  }

  /** A record that is being processed never gets stuck: a step that carries its processing on is always possible. */
  lemma NeverStuck(run: seq<State>, steps: seq<Step>, i: nat) returns (step: Step)
    requires IsRun(run, steps) && i < |run| && run[i].pact
    ensures Enabled(run[i], step) && CarriesOn(step)
  {
    RunKeepsInv(run, steps, i);
    var s := run[i];
    step := if s.record.Took? then RecordGoesOn else if s.record.Queueing? then QueueRequest(true)
            else if s.port.PortRead? then PortStores else if s.port.PortStored? then PortFinishes
            else if s.queued > 0 then PortReads(true) else CalledBack;
  }

  /** The number of steps of the record thread and the port thread until processing ends. */
  function Remaining(s: State): nat {
    if s.record.Took? then (if s.record.byCallback then 1 else 7)
    else if s.record.Queueing? then 6
    else if s.queued > 0 then 5
    else if s.port.PortRead? then 4
    else if s.port.PortStored? then 3
    else if s.callbacks > 0 then 2
    else 0
  }

  /**
   * Every step that carries the processing on brings it closer to its end, and no other step takes
   * it away from there; at the end the record is free to be scanned again.
   */
  lemma AlwaysCloser(run: seq<State>, steps: seq<Step>, i: nat)
    requires IsRun(run, steps) && i < |steps| && Remaining(run[i]) > 0
    ensures if CarriesOn(steps[i]) then Remaining(run[i + 1]) < Remaining(run[i])
            else Remaining(run[i + 1]) == Remaining(run[i])
    ensures Remaining(run[i + 1]) == 0 ==> !run[i + 1].pact && run[i + 1].record.RecordIdle?
  {
    RunKeepsInv(run, steps, i);
    assert Goes(run, steps, i);
    RunKeepsInv(run, steps, i + 1);
  }

  /**
   * When nothing is going on, every buffer that has been allocated has been freed exactly once,
   * except for data not taken yet.
   */
  lemma NothingIsLost(run: seq<State>, steps: seq<Step>, i: nat, b: nat)
    requires IsRun(run, steps) && i < |run| && b < run[i].heap.next
    requires run[i].record.RecordIdle? && run[i].port.PortIdle? && run[i].poll.PollIdle?
    ensures (exists k :: 0 <= k < |run[i].heap.freed| && run[i].heap.freed[k] == b) <==> run[i].newData != Some(b)
    ensures forall j, k | 0 <= j < |run[i].heap.freed| && 0 <= k < |run[i].heap.freed| ::
      run[i].heap.freed[j] == b && run[i].heap.freed[k] == b ==> j == k
  {
    RunKeepsInv(run, steps, i);
    if run[i].newData != Some(b) {
      assert b !in run[i].heap.live;
    } else {
      assert b in InSet(run[i].newData);
    }
  }

  /** A run can be extended by every step that is enabled at its end. */
  lemma Extended(run: seq<State>, steps: seq<Step>, step: Step)
    returns (longer: seq<State>, all: seq<Step>)
    requires IsRun(run, steps) && Enabled(run[|steps|], step)
    ensures all == steps + [step] && IsRun(longer, all)
    ensures longer[|steps| + 1] == Next(run[|steps|], step)
  {
    longer, all := run + [Next(run[|steps|], step)], steps + [step];
    forall i | 0 <= i < |all| ensures Goes(longer, all, i) {
      assert i < |steps| ==> Goes(run, steps, i);
    }
  }

  /** A whole read: scanned, queued, read by the port thread, called back, and reported. */
  lemma ReadOnce() returns (run: seq<State>, steps: seq<Step>)
    ensures IsRun(run, steps) && |steps| == 8 && steps[0] == Scanned && steps[3] == PortReads(true)
    ensures run[8].reports == [Value(0)] && !run[8].udf && !run[8].pact && run[8].heap.freed == [0]
  {
    run, steps := [INITIAL], [];
    run, steps := Extended(run, steps, Scanned);
    run, steps := Extended(run, steps, RecordGoesOn);
    assert run[2] == INITIAL.(pact := true, record := Queueing);
    run, steps := Extended(run, steps, QueueRequest(true));
    assert run[3] == INITIAL.(pact := true, queued := 1);
    run, steps := Extended(run, steps, PortReads(true));
    assert run[4] == INITIAL.(pact := true, port := PortRead(Some(0), true), heap := Heap({0}, [], 1, false));
    run, steps := Extended(run, steps, PortStores);
    assert run[5] == INITIAL.(pact := true, newData := Some(0), port := PortStored, heap := Heap({0}, [], 1, false));
    run, steps := Extended(run, steps, PortFinishes);
    assert run[6] == INITIAL.(pact := true, newData := Some(0), callbacks := 1, heap := Heap({0}, [], 1, false));
    run, steps := Extended(run, steps, CalledBack);
    assert run[7] == INITIAL.(pact := true, record := Took(Some(0), false, true), heap := Heap({0}, [], 1, false));
    run, steps := Extended(run, steps, RecordGoesOn);
  }

  /** A whole poll: prepared, answered, realigned, scanned for, and reported. */
  lemma PollOnce() returns (run: seq<State>, steps: seq<Step>)
    ensures IsRun(run, steps) && |steps| == 6 && steps[1] == PollResponds(true, true)
    ensures run[6].reports == [Value(1)] && !run[6].udf && !run[6].pact && run[6].heap.freed == [0, 1]
  {
    run, steps := [INITIAL], [];
    run, steps := Extended(run, steps, PollPrepares);
    assert run[1] == INITIAL.(poll := PollWaiting(0), heap := Heap({0}, [], 1, false));
    run, steps := Extended(run, steps, PollResponds(true, true));
    assert run[2] == INITIAL.(poll := PollAnswered(Some(1), true), heap := Heap({1}, [0], 2, false));
    run, steps := Extended(run, steps, PollStores);
    run, steps := Extended(run, steps, PollFinishes);
    run, steps := Extended(run, steps, ScannedForPoll);
    assert run[5] == INITIAL.(record := Took(Some(1), false, false), heap := Heap({1}, [0], 2, false));
    run, steps := Extended(run, steps, RecordGoesOn);
  }
}

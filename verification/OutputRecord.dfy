/** An output record: record thread and port thread share the data to be written. */
module OutputRecord {
  import opened PlcTypes
  import opened BufferHeap
  import opened StepHistory

  datatype RecordThread =
    | RecordIdle
    | Filled(buffer: nat)
    | Placed
    | Queueing

  datatype PortThread =
    | PortIdle
    | PortTook(buffer: Option<nat>)
    | PortWritten

  /**
   * What the threads share, and where they are. `written` lists the buffers that have been given to
   * the PLC, and `alarms` counts the write alarms.
   */
  datatype State = State(newData: Option<nat>, processCallbackError: bool, pact: bool, udf: bool, queued: nat,
      callbacks: nat, record: RecordThread, port: PortThread, heap: Heap, written: seq<nat>, alarms: nat)

  const INITIAL := State(None, false, false, true, 0, 0, RecordIdle, PortIdle, EMPTY, [], 0)

  datatype Step =
    | Scanned
    | CalledBack
    | PlaceData
    | SetPact
    | QueueRequest(accepted: bool)
    | PortTakes
    | PortWrites(success: bool)
    | PortFinishes

  predicate Enabled(s: State, step: Step) {
    match step
    case Scanned => s.record.RecordIdle? && !s.pact
    case CalledBack => s.record.RecordIdle? && s.callbacks > 0
    case PlaceData => s.record.Filled?
    case SetPact => s.record.Placed?
    case QueueRequest(_) => s.record.Queueing?
    case PortTakes => s.port.PortIdle? && s.queued > 0
    case PortWrites(_) => s.port.PortTook?
    case PortFinishes => s.port.PortWritten?
  }

  function Next(s: State, step: Step): State
    requires Enabled(s, step)
  {
    match step
    case Scanned => s.(heap := Alloc(s.heap), record := Filled(s.heap.next))
    case CalledBack =>
      var called := s.(callbacks := s.callbacks - 1);
      // a callback that found the record idle would start a new write
      if !s.pact then called.(heap := Alloc(s.heap), record := Filled(s.heap.next))
      else called.(udf := s.udf && s.processCallbackError, pact := false)
    case PlaceData => s.(heap := FreeIf(s.heap, s.newData), newData := Some(s.record.buffer), record := Placed)
    case SetPact => s.(pact := true, record := Queueing)
    case QueueRequest(accepted) =>
      if accepted then s.(queued := s.queued + 1, record := RecordIdle)
      else s.(pact := false, record := RecordIdle, alarms := s.alarms + 1)
    case PortTakes => s.(queued := s.queued - 1, port := PortTook(s.newData), newData := None)
    case PortWrites(success) =>
      // without a buffer nothing is written, which is an error as well
      var failed := s.port.buffer.None? || !success;
      s.(heap := FreeIf(s.heap, s.port.buffer), processCallbackError := failed, port := PortWritten,
         written := if s.port.buffer.Some? then s.written + [s.port.buffer.value] else s.written,
         alarms := if failed then s.alarms + 1 else s.alarms)
    case PortFinishes => s.(port := PortIdle, callbacks := if s.pact then s.callbacks + 1 else s.callbacks)
  }

  // ---------- what every interleaving keeps ----------

  function HeldByRecord(s: State): set<nat> {
    if s.record.Filled? then {s.record.buffer} else {}
  }

  function HeldByPort(s: State): set<nat> {
    if s.port.PortTook? then InSet(s.port.buffer) else {}
  }

  /** Every live buffer is in exactly one place. */
  ghost predicate Owned(s: State) {
    && Sane(s.heap)
    && s.heap.live == InSet(s.newData) + HeldByRecord(s) + HeldByPort(s)
    && InSet(s.newData) !! HeldByRecord(s) !! HeldByPort(s)
  }

  function Pending(s: State): nat {
    s.queued + s.callbacks + if s.port.PortIdle? then 0 else 1
  }

  /** There is data for a queued request, and exactly one thing is pending while the record is being processed. */
  ghost predicate Protocol(s: State) {
    && Pending(s) == (if s.pact && !s.record.Queueing? then 1 else 0)
    && (s.queued > 0 || s.record.Placed? || s.record.Queueing? ==> s.newData.Some?)
    && (s.port.PortTook? ==> s.port.buffer.Some?)
    && (s.record.Queueing? ==> s.pact) && (s.record.Filled? || s.record.Placed? ==> !s.pact)
  }

  ghost predicate Inv(s: State) {
    Owned(s) && Protocol(s)
  }

  lemma StepKeepsInv(s: State, step: Step)
    requires Inv(s) && Enabled(s, step)
    ensures Inv(Next(s, step))
  {
    match step
    case Scanned =>
      AllocSane(s.heap);
    case CalledBack =>
      AllocSane(s.heap);
    case PlaceData =>
      if s.newData.Some? {
        FreeSane(s.heap, s.newData.value);
      }
    case PortWrites(_) =>
      FreeSane(s.heap, s.port.buffer.value);
    case _ =>
  }

  ghost predicate IsRun(run: seq<State>, steps: seq<Step>) {
    && |run| == |steps| + 1 && run[0] == INITIAL
    && forall i {:trigger Goes(run, steps, i)} | 0 <= i < |steps| :: Goes(run, steps, i)
  }

  ghost predicate Goes(run: seq<State>, steps: seq<Step>, i: nat)
    requires i < |steps| < |run|
  {
    Enabled(run[i], steps[i]) && run[i + 1] == Next(run[i], steps[i])
  }

  lemma {:induction false} RunKeepsInv(run: seq<State>, steps: seq<Step>, i: nat)
    requires IsRun(run, steps) && i < |run|
    ensures Inv(run[i])
    decreases i
  {
    if i > 0 {
      RunKeepsInv(run, steps, i - 1);
      assert Goes(run, steps, i - 1);
      StepKeepsInv(run[i - 1], steps[i - 1]);
    } else {
      assert Pending(INITIAL) == 0;
    }
  }

  /**
   * In every interleaving: no buffer is freed twice or lost, a queued request finds data
   * to write, so a write only fails if the PLC write fails, and a callback finds the
   * record being processed.
   */
  lemma EveryRunIsSafe(run: seq<State>, steps: seq<Step>, i: nat)
    requires IsRun(run, steps) && i < |run|
    ensures !run[i].heap.bad && Sane(run[i].heap) && Owned(run[i])
    ensures run[i].queued > 0 ==> run[i].newData.Some?
    ensures i < |steps| && steps[i].PortTakes? ==> run[i + 1].port.PortTook? && run[i + 1].port.buffer.Some?
    ensures i < |steps| && steps[i].PortWrites? ==> run[i + 1].processCallbackError == !steps[i].success
    ensures run[i].callbacks > 0 || run[i].port.PortWritten? ==> run[i].pact
    ensures run[i].queued + run[i].callbacks <= 1
    ensures i < |steps| && steps[i].PortFinishes? ==> run[i + 1].callbacks == 1
  {
    RunKeepsInv(run, steps, i);
    assert i < |steps| ==> Goes(run, steps, i);
  }

  // ---------- what is written ----------

  predicate IsScan(step: Step) { step.Scanned? }

  predicate IsWrite(step: Step) { step.PortWrites? }

  /** The buffer that has been filled last, by the last scan among the first n steps. */
  ghost function LastFilled(run: seq<State>, steps: seq<Step>, n: nat): nat
    requires IsRun(run, steps) && n < |run|
  {
    var j := Last(steps, n, IsScan);
    if j < 0 then 0 else run[j].heap.next
  }

  /** A buffer is only filled by a scan: the steps that allocate one are the scans. */
  lemma OnlyScansFill(run: seq<State>, steps: seq<Step>, j: nat)
    requires IsRun(run, steps) && j < |steps|
    ensures run[j + 1].heap.next == run[j].heap.next + if steps[j].Scanned? then 1 else 0
  {
    RunKeepsInv(run, steps, j);
    assert Goes(run, steps, j);
  }

  /** Where the buffer that has been filled last is, until the write of it ends. */
  ghost predicate HoldsLast(s: State, buffer: nat) {
    && (s.record.Filled? ==> s.record.buffer == buffer)
    && (s.record.Placed? || s.record.Queueing? || s.queued > 0 ==> s.newData == Some(buffer))
    && (s.port.PortTook? ==> s.port.buffer == Some(buffer))
  }

  lemma {:induction false} LastIsHeld(run: seq<State>, steps: seq<Step>, n: nat)
    requires IsRun(run, steps) && n < |run|
    ensures HoldsLast(run[n], LastFilled(run, steps, n))
    ensures Last(steps, n, IsScan) < 0 ==> run[n].record.RecordIdle? && run[n].queued == 0 && run[n].port.PortIdle?
  {
    if n > 0 {
      assert Goes(run, steps, n - 1);
      LastIsHeld(run, steps, n - 1);
      RunKeepsInv(run, steps, n - 1);
    }
  }

  /** The port thread takes the buffer that the last scan has filled, and gives this one to the PLC. */
  lemma LatestIsWritten(run: seq<State>, steps: seq<Step>, i: nat)
    requires IsRun(run, steps) && i < |steps|
    ensures var j := Last(steps, i, IsScan);
            && (steps[i].PortTakes? ==> j >= 0 && run[i + 1].port == PortTook(Some(run[j].heap.next)))
            && (steps[i].PortWrites? ==> j >= 0 && run[i + 1].written == run[i].written + [run[j].heap.next])
            && (!steps[i].PortWrites? ==> run[i + 1].written == run[i].written)
  {
    LastIsHeld(run, steps, i);
    RunKeepsInv(run, steps, i);
    assert Goes(run, steps, i);
  }

  /** The buffers filled for the requests that have been accepted, in order. */
  ghost function Accepted(run: seq<State>, steps: seq<Step>, n: nat): seq<nat>
    requires IsRun(run, steps) && n < |run|
  {
    if n == 0 then []
    else if steps[n - 1] == QueueRequest(true) then Accepted(run, steps, n - 1) + [LastFilled(run, steps, n - 1)]
    else Accepted(run, steps, n - 1)
  }

  /**
   * Every value whose request has been accepted is written exactly once, in order; at most the last
   * one is still pending.
   */
  lemma {:induction false} AcceptedIsWritten(run: seq<State>, steps: seq<Step>, n: nat)
    requires IsRun(run, steps) && n < |run|
    ensures Accepted(run, steps, n)
        == run[n].written + if run[n].queued > 0 || run[n].port.PortTook? then [LastFilled(run, steps, n)] else []
  {
    if n > 0 {
      assert Goes(run, steps, n - 1);
      AcceptedIsWritten(run, steps, n - 1);
      LastIsHeld(run, steps, n - 1);
      RunKeepsInv(run, steps, n - 1);
      RunKeepsInv(run, steps, n);
    }
  }

  /** Every failed write and every request that is not accepted raises an alarm; nothing else does. */
  lemma AlarmsAreRaised(run: seq<State>, steps: seq<Step>, i: nat)
    requires IsRun(run, steps) && i < |steps|
    ensures run[i + 1].alarms
        == run[i].alarms + if steps[i] == PortWrites(false) || steps[i] == QueueRequest(false) then 1 else 0
  {
    RunKeepsInv(run, steps, i);
    assert Goes(run, steps, i);
  }

  lemma {:induction false} ErrorIsLast(run: seq<State>, steps: seq<Step>, n: nat)
    requires IsRun(run, steps) && n < |run|
    ensures var w := Last(steps, n, IsWrite);
            && (w < 0 ==> run[n].callbacks == 0 && !run[n].port.PortWritten?)
            && (w >= 0 ==> run[n].processCallbackError == !steps[w].success)
  {
    if n > 0 {
      assert Goes(run, steps, n - 1);
      ErrorIsLast(run, steps, n - 1);
      RunKeepsInv(run, steps, n - 1);
    }
  }

  /** A callback ends the processing; the record is defined after it if it has been before or the write succeeded. */
  lemma EveryCallback(run: seq<State>, steps: seq<Step>, i: nat)
    requires IsRun(run, steps) && i < |steps|
    ensures steps[i].CalledBack? ==>
              var w := Last(steps, i, IsWrite);
              w >= 0 && !run[i + 1].pact && run[i + 1].udf == (run[i].udf && !steps[w].success)
    ensures !steps[i].CalledBack? ==> run[i + 1].udf == run[i].udf
  {
    RunKeepsInv(run, steps, i);
    ErrorIsLast(run, steps, i);
    assert Goes(run, steps, i);
  }

  /** When a request has been accepted, the record is being processed and the request is queued. */
  lemma AcceptedIsQueued(run: seq<State>, steps: seq<Step>, q: nat)
    requires IsRun(run, steps) && q < |steps| && steps[q] == QueueRequest(true)
    ensures run[q + 1].pact && run[q + 1].queued == 1
  {
    RunKeepsInv(run, steps, q);
    assert Goes(run, steps, q);
  }

  /**
   * A record that has something to write or is being processed never gets stuck: a step other
   * than a new scan is always possible.
   */
  lemma NeverStuck(run: seq<State>, steps: seq<Step>, i: nat) returns (step: Step)
    requires IsRun(run, steps) && i < |run| && Remaining(run[i]) > 0
    ensures Enabled(run[i], step) && !step.Scanned?
  {
    RunKeepsInv(run, steps, i);
    var s := run[i];
    step := if s.record.Filled? then PlaceData else if s.record.Placed? then SetPact
            else if s.record.Queueing? then QueueRequest(true)
            else if s.port.PortTook? then PortWrites(true) else if s.port.PortWritten? then PortFinishes
            else if s.queued > 0 then PortTakes else CalledBack;
  }

  /** The number of steps until processing ends. */
  function Remaining(s: State): nat {
    if s.record.Filled? then 8
    else if s.record.Placed? then 7
    else if s.record.Queueing? then 6
    else if s.queued > 0 then 5
    else if s.port.PortTook? then 4
    else if s.port.PortWritten? then 3
    else if s.callbacks > 0 then 2
    else 0
  }

  /** Every step brings the processing closer to its end; at the end the record is free to be scanned again. */
  lemma AlwaysCloser(run: seq<State>, steps: seq<Step>, i: nat)
    requires IsRun(run, steps) && i < |steps| && Remaining(run[i]) > 0
    ensures Remaining(run[i + 1]) < Remaining(run[i])
    ensures Remaining(run[i]) == 0 <==> run[i].record.RecordIdle? && !run[i].pact
    ensures Remaining(run[i + 1]) == 0 ==> run[i + 1].record.RecordIdle? && !run[i + 1].pact
  {
    RunKeepsInv(run, steps, i);
    assert Goes(run, steps, i);
    RunKeepsInv(run, steps, i + 1);
  }

  /** A run can be extended by every step that is enabled at its end. */
  lemma Extended(run: seq<State>, steps: seq<Step>, step: Step)
    returns (longer: seq<State>, all: seq<Step>)
    requires IsRun(run, steps) && Enabled(run[|steps|], step)
    ensures all == steps + [step] && IsRun(longer, all)
    ensures longer[|steps| + 1] == Next(run[|steps|], step)
  {
    longer, all := run + [Next(run[|steps|], step)], steps + [step];
    forall i | 0 <= i < |all| ensures Goes(longer, all, i) {
      assert i < |steps| ==> Goes(run, steps, i);
    }
  }

  /** A whole write: scanned, queued, written by the port thread, and called back. */
  lemma WriteOnce() returns (run: seq<State>, steps: seq<Step>)
    ensures IsRun(run, steps) && |steps| == 8 && steps[0] == Scanned && steps[5] == PortWrites(true)
    ensures run[8].written == [0] && run[8].alarms == 0 && !run[8].udf && !run[8].pact && run[8].heap.freed == [0]
  {
    run, steps := [INITIAL], [];
    run, steps := Extended(run, steps, Scanned);
    run, steps := Extended(run, steps, PlaceData);
    run, steps := Extended(run, steps, SetPact);
    assert run[3] == INITIAL.(pact := true, newData := Some(0), record := Queueing, heap := Heap({0}, [], 1, false));
    run, steps := Extended(run, steps, QueueRequest(true));
    run, steps := Extended(run, steps, PortTakes);
    assert run[5] == INITIAL.(pact := true, port := PortTook(Some(0)), heap := Heap({0}, [], 1, false));
    run, steps := Extended(run, steps, PortWrites(true));
    run, steps := Extended(run, steps, PortFinishes);
    assert run[7] == INITIAL.(pact := true, callbacks := 1, written := [0], heap := Heap({}, [0], 1, false));
    run, steps := Extended(run, steps, CalledBack);
  }
}

/** The buffers that the threads of a record allocate and free. */
module BufferHeap {
  import opened PlcTypes

  /** `freed` lists the buffers in the order in which they have been freed; `bad` says that a free was wrong. */
  datatype Heap = Heap(live: set<nat>, freed: seq<nat>, next: nat, bad: bool)

  const EMPTY := Heap({}, [], 0, false)

  function Alloc(h: Heap): Heap {
    h.(live := h.live + {h.next}, next := h.next + 1)
  }

  function Free(h: Heap, b: nat): Heap {
    if b in h.live then h.(live := h.live - {b}, freed := h.freed + [b]) else h.(bad := true)
  }

  function FreeIf(h: Heap, b: Option<nat>): Heap {
    match b case None => h case Some(x) => Free(h, x)
  }

  function InSet(b: Option<nat>): set<nat> {
    match b case None => {} case Some(x) => {x}
  }

  /** Every buffer that has been allocated is either live or has been freed exactly once. */
  ghost predicate Sane(h: Heap) {
    && !h.bad
    && (forall b :: b in h.live ==> b < h.next && b !in h.freed)
    && (forall i | 0 <= i < |h.freed| :: h.freed[i] < h.next)
    && (forall b: nat | b < h.next :: b in h.live || b in h.freed)
    && (forall i, j | 0 <= i < j < |h.freed| :: h.freed[i] != h.freed[j])
  }

  lemma AllocSane(h: Heap)
    requires Sane(h)
    ensures Sane(Alloc(h)) && h.next !in h.live
  {
  }

  lemma FreeSane(h: Heap, b: nat)
    requires Sane(h) && b in h.live
    ensures Sane(Free(h, b))
  {
    var after := Free(h, b);
    forall i, j | 0 <= i < j < |after.freed| ensures after.freed[i] != after.freed[j] {
      assert i < |h.freed| && after.freed[i] == h.freed[i] && h.freed[i] in h.freed;
    }
    forall x: nat | x < after.next ensures x in after.live || x in after.freed {
      assert x == b ==> after.freed[|h.freed|] == x;
      assert x in h.freed ==> x in after.freed;
    }
  }
}

/** Looking back over the steps of a run. */
module StepHistory {

  /** The last of the first n steps with a property; -1 if there is none. */
  function Last<T>(steps: seq<T>, n: nat, p: T -> bool): (k: int)
    requires n <= |steps|
    ensures -1 <= k < n && (k >= 0 ==> p(steps[k])) && forall m | k < m < n :: !p(steps[m])
  {
    if n == 0 then -1 else if p(steps[n - 1]) then n - 1 else Last(steps, n - 1, p)
  }

  /** The last one is found by its property. */
  lemma LastIs<T>(steps: seq<T>, n: nat, p: T -> bool, k: nat)
    requires k < n <= |steps| && p(steps[k]) && forall m | k < m < n :: !p(steps[m])
    ensures Last(steps, n, p) == k
  {
  }
}

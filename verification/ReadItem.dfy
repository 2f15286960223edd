/** Read items of the port driver and the forest that the read optimizer builds from them. */
module ReadItems {
  import opened PlcTypes

  /** The two fields of a request that a read writes, and that a wrapping item refers to. */
  class ReadResult {
    var bytesRead: int
    var status: AsynStatus

    constructor ()
      ensures bytesRead == 0 && status == Success
    {
      bytesRead, status := 0, Success;
    }
  }

  /** One read request as the device support hands it to the driver, linked to the next one. */
  class AsynReadItem {
    const area: Area
    const areaNumber: int
    const startByte: int
    const readBytes: int
    const buffer: array<byte>
    const result: ReadResult
    var next: AsynReadItem?

    constructor (area: Area, areaNumber: int, startByte: int, readBytes: int, buffer: array<byte>)
      ensures this.area == area && this.areaNumber == areaNumber
      ensures this.startByte == startByte && this.readBytes == readBytes && this.buffer == buffer
      ensures fresh(result) && result.bytesRead == 0 && result.status == Success && next == null
    {
      this.area, this.areaNumber := area, areaNumber;
      this.startByte, this.readBytes, this.buffer := startByte, readBytes, buffer;
      result := new ReadResult();
      next := null;
    }
  }

  /** The state a read leaves in an item: status, number of bytes read and the buffer. */
  datatype Outcome = Outcome(status: AsynStatus, bytesRead: int, bytes: seq<byte>)

  class ReadItem {
    const area: Area
    const areaNumber: int
    var startByte: int
    var readBytes: int
    /** Where results are stored: in the wrapped request or, with an internal buffer, with the item. */
    const result: ReadResult
    var buffer: array<byte>
    const usingInternalBuffer: bool
    var includedReadItems: seq<ReadItem>
    /** The wrapped request. */
    ghost const request: AsynReadItem?
    /** The item that includes this one; null for a root. */
    ghost var parent: ReadItem?
    /** Larger than the rank of every included item. */
    ghost var rank: nat

    constructor Internal(area: Area, areaNumber: int, startByte: int, readBytes: int)
      requires 0 <= readBytes
      ensures this.area == area && this.areaNumber == areaNumber && usingInternalBuffer && request == null
      ensures this.startByte == startByte && this.readBytes == readBytes
      ensures fresh(result) && result.bytesRead == 0 && result.status == Success
      ensures fresh(buffer) && buffer.Length == readBytes
      ensures includedReadItems == [] && parent == null && rank == 0
    {
      this.area, this.areaNumber, this.startByte, this.readBytes := area, areaNumber, startByte, readBytes;
      usingInternalBuffer, request := true, null;
      result := new ReadResult();
      buffer := new byte[readBytes](_ => 0);
      includedReadItems, parent, rank := [], null, 0;
    }

    constructor Wrap(readItem: AsynReadItem)
      ensures area == readItem.area && areaNumber == readItem.areaNumber && !usingInternalBuffer && request == readItem
      ensures startByte == readItem.startByte && readBytes == readItem.readBytes
      ensures result == readItem.result && buffer == readItem.buffer
      ensures includedReadItems == [] && parent == null && rank == 0
    {
      area, areaNumber, startByte, readBytes := readItem.area, readItem.areaNumber, readItem.startByte,
          readItem.readBytes;
      usingInternalBuffer, request := false, readItem;
      result, buffer := readItem.result, readItem.buffer;
      includedReadItems, parent, rank := [], null, 0;
    }

    function EndByte(): int
      reads this
    {
      startByte + readBytes
    }

    /** Stores a successful result. */
    method SetBytesRead(bytesRead: int)
      modifies result
      ensures result.bytesRead == bytesRead && result.status == Success
    {
      result.bytesRead, result.status := bytesRead, Success;
    }

    /** Stores an error, which also means that no bytes have been read. */
    method SetErrorStatus(status: AsynStatus)
      requires status != Success
      modifies result
      ensures result.bytesRead == 0 && result.status == status
    {
      result.bytesRead, result.status := 0, status;
    }

    predicate IncludesNoAreaCheck(other: ReadItem)
      reads this, other
    {
      startByte <= other.startByte && other.EndByte() <= EndByte()
    }

    /** Grows the item to the given range; only an unread item with an internal buffer can do that. */
    method Resize(newStartByte: int, newLength: int, ghost sh: Places) returns (ok: bool, ghost after: Places)
      requires Current(sh) && WellFormed(sh) && this in sh && parent == null
      requires newStartByte <= startByte && EndByte() <= newStartByte + newLength
      modifies this
      ensures ok == ((newStartByte == old(startByte) && newLength == old(readBytes))
                     || (usingInternalBuffer && result.bytesRead == 0))
      ensures after == if !ok || (newStartByte == old(startByte) && newLength == old(readBytes)) then sh
                       else Resized(sh, this, newStartByte, newLength, buffer)
      ensures if !ok || (newStartByte == old(startByte) && newLength == old(readBytes))
              then buffer == old(buffer) else fresh(buffer)
      ensures Current(after) && WellFormed(after)
      ensures unchanged(result)
    {
      after := sh;
      assert NodeOk(this, sh);
      if newStartByte != startByte || newLength != readBytes {
        if !usingInternalBuffer || result.bytesRead != 0 {
          return false, sh;
        }
        buffer := new byte[newLength](_ => 0);
        startByte, readBytes := newStartByte, newLength;
        after := Resized(sh, this, newStartByte, newLength, buffer);
        ResizedOk(sh, this, newStartByte, newLength, buffer);
      }
      ok := true;
    }

    /** Puts the items, which lie in the range of this item, below this item. */
    method Attach(items: seq<ReadItem>, ghost sh: Places) returns (ghost after: Places)
      requires Current(sh) && WellFormed(sh) && this in sh && parent == null
      requires Roots(items, sh) && this !in items
      requires CoversAll(this, items, sh)
      modifies sh.Keys
      ensures after == Attached(sh, this, items) && Current(after) && WellFormed(after)
      ensures unchanged(result)
    {
      AttachedOk(sh, this, items);
      after := Attached(sh, this, items);
      includedReadItems, rank := includedReadItems + items, after[this].rank;
      forall c | c in items {
        c.parent := this;
      }
    }

    /**
     * Includes one item; false, and nothing changes, if the areas differ or this
     * item cannot grow as needed.
     */
    method AddReadItem(item: ReadItem?, ghost sh: Places) returns (ok: bool, ghost after: Places)
      requires Current(sh) && WellFormed(sh) && this in sh && parent == null
      requires item != null ==> item in sh && item != this && item.parent == null
      modifies sh.Keys
      ensures ok == (item != null && area == item.area && areaNumber == item.areaNumber
                     && (old(IncludesNoAreaCheck(item)) || (usingInternalBuffer && result.bytesRead == 0)))
      ensures ok ==>
          startByte == Min(old(startByte), old(item.startByte)) && EndByte() == Max(old(EndByte()), old(item.EndByte()))
      ensures old(item != null && IncludesNoAreaCheck(item)) ==> buffer == old(buffer)
      ensures after == if !ok then sh else if Covers(this, item, sh) then Attached(sh, this, [item])
                       else Attached(Resized(sh, this, startByte, readBytes, buffer), this, [item])
      ensures Current(after) && WellFormed(after)
      ensures buffer == old(buffer) || fresh(buffer)
    {
      if item == null || area != item.area || areaNumber != item.areaNumber {
        return false, sh;
      }
      assert NodeOk(item, sh) && NodeOk(this, sh);
      var newStartByte := Min(startByte, item.startByte);
      var newEndByte := Max(EndByte(), item.EndByte());
      ok, after := Resize(newStartByte, newEndByte - newStartByte, sh);
      if ok {
        after := Attach([item], after);
      }
    }

    /**
     * Includes a list of items of the same area, growing to span all of them.
     * As in AddReadItem, nothing changes if this item cannot grow as needed.
     */
    method AddReadItems(items: seq<ReadItem>, ghost sh: Places) returns (ok: bool, ghost after: Places)
      requires Current(sh) && WellFormed(sh) && this in sh && parent == null
      requires Roots(items, sh) && this !in items
      requires forall c | c in items :: c.area == area && c.areaNumber == areaNumber
      modifies sh.Keys
      ensures ok == (CoversAll(this, items, sh) || (usingInternalBuffer && result.bytesRead == 0))
      ensures ok ==> Spans(startByte, EndByte(), this, items, sh)
      ensures after == if !ok then sh else if CoversAll(this, items, sh) then Attached(sh, this, items)
                       else Attached(Resized(sh, this, startByte, readBytes, buffer), this, items)
      ensures Current(after) && WellFormed(after)
      ensures unchanged(result)
      ensures if CoversAll(this, items, sh) then buffer == old(buffer) else !ok || fresh(buffer)
    {
      assert NodeOk(this, sh);
      var newStartByte, newEndByte := Span(items, sh);
      ok, after := Resize(newStartByte, newEndByte - newStartByte, sh);
      if ok {
        after := Attach(items, after);
      }
    }

    /** The smallest range that covers this item and all the given items. */
    method Span(items: seq<ReadItem>, ghost sh: Places) returns (newStartByte: int, newEndByte: int)
      requires Current(sh) && this in sh && forall c | c in items :: c in sh
      ensures Spans(newStartByte, newEndByte, this, items, sh)
    {
      newStartByte, newEndByte := startByte, EndByte();
      for k := 0 to |items|
        invariant Spans(newStartByte, newEndByte, this, items[..k], sh)
      {
        newStartByte := Min(newStartByte, items[k].startByte);
        newEndByte := Max(newEndByte, items[k].EndByte());
        assert items[..k + 1] == items[..k] + [items[k]];
      }
      assert items[..|items|] == items;
    }

    /**
     * Copies the result of this item to the included items, and on to the items
     * they include, even if only some of its bytes have been read. D is the set of items
     * below this one.
     */
    method DispatchReadResultToChildren(ghost sh: Places) returns (ghost D: set<ReadItem>)
      requires Current(sh) && WellFormed(sh) && this in sh && DeliversFrom(this, sh)
      modifies Results(sh.Keys), Buffers(sh)
      ensures Descent(this, D, sh)
      ensures forall d | d in D :: Settled(d, sh)
      ensures forall d | d in sh && d !in D :: ResultOf(d, sh) == old(ResultOf(d, sh))
      decreases rank, 0
    {
      D := {};
      assert NodeOk(this, sh);
      for i := 0 to |includedReadItems|
        invariant PartialDescent(this, i, D, sh)
        invariant forall d | d in D :: Settled(d, sh)
        invariant forall d | d in sh && d !in D :: ResultOf(d, sh) == old(ResultOf(d, sh))
      {
        ghost var below := DispatchTo(i, D, sh);
        D := D + below;
      }
    }

    /** Hands the result of this item to its i-th included item and on to what lies below that. */
    method DispatchTo(i: nat, ghost D: set<ReadItem>, ghost sh: Places) returns (ghost below: set<ReadItem>)
      requires Current(sh) && WellFormed(sh) && this in sh && DeliversFrom(this, sh)
      requires i < |includedReadItems| && PartialDescent(this, i, D, sh)
      modifies Results(sh.Keys), Buffers(sh)
      ensures PartialDescent(this, i + 1, D + below, sh) && below !! D
      ensures forall d | d in below :: Settled(d, sh)
      ensures forall d | d in sh && d !in below :: ResultOf(d, sh) == old(ResultOf(d, sh))
      decreases includedReadItems[i].rank, 1
    {
      assert NodeOk(this, sh);
      var child := includedReadItems[i];
      DeliverTo(child, sh);
      label delivered:
      below := child.DispatchReadResultToChildren(sh);
      DescentsApart(this, i, D, below, sh);
      assert ResultOf(child, sh) == old@delivered(ResultOf(child, sh))
          && ResultOf(this, sh) == old@delivered(ResultOf(this, sh)) && sh[child].parent == this;
      assert Settled(child, sh);
      below := below + {child};
    }

    /** One step of the dispatch: hands the result of this item to one included item. */
    method DeliverTo(child: ReadItem, ghost sh: Places)
      requires Current(sh) && WellFormed(sh) && this in sh && DeliversFrom(this, sh)
      requires child in includedReadItems && child in sh
      modifies child.result, child.buffer
      ensures Settled(child, sh) && DeliversFrom(child, sh)
      ensures forall d | d in sh && d != child :: ResultOf(d, sh) == old(ResultOf(d, sh))
    {
      assert NodeOk(this, sh) && NodeOk(child, sh);
      if result.status == Success {
        if result.bytesRead != 0 {
          var offset := child.startByte - startByte;
          var bytesRead := Min(result.bytesRead - offset, child.readBytes);
          child.SetBytesRead(bytesRead);
          forall k | 0 <= k < bytesRead {
            child.buffer[k] := buffer[offset + k];
          }
        } else {
          child.SetBytesRead(0);
        }
      } else {
        child.SetErrorStatus(result.status);
      }
    }
  }

  function Min(a: int, b: int): int { if a < b then a else b }

  function Max(a: int, b: int): int { if a < b then b else a }

  ghost function Members(items: seq<ReadItem>): set<ReadItem> {
    set c | c in items
  }

  /** What the structure of the forest says about one item. */
  datatype Place = Place(parent: ReadItem?, rank: nat, kids: seq<ReadItem>, startByte: int, readBytes: int,
      buffer: array<byte>)
  {
    function End(): int { startByte + readBytes }
  }

  type Places = map<ReadItem, Place>

  /** The value describes the structure of the forest as it is now. */
  ghost predicate Current(sh: Places)
    reads sh.Keys
  {
    forall n | n in sh ::
      sh[n] == Place(n.parent, n.rank, n.includedReadItems, n.startByte, n.readBytes, n.buffer)
  }

  /** Where a single item stands in the forest: it is a root or occurs below its parent. */
  ghost predicate NodeOk(n: ReadItem, sh: Places)
    requires n in sh
  {
    var p := sh[n];
    && 0 <= p.readBytes && p.buffer.Length == p.readBytes
    && (n.usingInternalBuffer || MirrorsRequest(n, p))
    && (p.parent != null ==> p.parent in sh && n in sh[p.parent].kids)
    && (forall i | 0 <= i < |p.kids| ::
          p.kids[i] in sh && sh[p.kids[i]].parent == n && sh[p.kids[i]].rank < p.rank && Covers(n, p.kids[i], sh))
    && (forall i, j | 0 <= i < j < |p.kids| :: p.kids[i] != p.kids[j])
  }

  /** A wrapper reads the range of its request and refers to the buffer and the result of its request. */
  ghost predicate MirrorsRequest(n: ReadItem, p: Place) {
    && n.request != null
    && n.area == n.request.area && n.areaNumber == n.request.areaNumber
    && p.startByte == n.request.startByte && p.readBytes == n.request.readBytes
    && p.buffer == n.request.buffer && n.result == n.request.result
  }

  /** The range of `c` lies within the range of `n` in the same memory area. */
  ghost predicate Covers(n: ReadItem, c: ReadItem, sh: Places)
    requires n in sh && c in sh
  {
    n.area == c.area && n.areaNumber == c.areaNumber && sh[n].startByte <= sh[c].startByte && sh[c].End() <= sh[n].End()
  }

  ghost predicate CoversAll(n: ReadItem, items: seq<ReadItem>, sh: Places)
    requires n in sh && forall c | c in items :: c in sh
  {
    forall c | c in items :: Covers(n, c, sh)
  }

  ghost predicate Separate(sh: Places) {
    forall a, b | a in sh && b in sh && a != b :: sh[a].buffer != sh[b].buffer && a.result != b.result
  }

  /** The items form a forest: every item is a root or occurs exactly once, below its one parent. */
  ghost predicate WellFormed(sh: Places) {
    Separate(sh) && NodesOk(sh)
  }

  ghost predicate NodesOk(sh: Places) {
    forall n {:trigger NodeOk(n, sh)} | n in sh :: NodeOk(n, sh)
  }

  /** A list of different roots. */
  ghost predicate Roots(items: seq<ReadItem>, sh: Places) {
    && (forall i | 0 <= i < |items| :: items[i] in sh && sh[items[i]].parent == null)
    && (forall i, j | 0 <= i < j < |items| :: items[i] != items[j])
  }

  /** The structure after `p` has got a new range and buffer. */
  ghost function Resized(sh: Places, p: ReadItem, startByte: int, readBytes: int, buffer: array<byte>): Places
    requires p in sh
  {
    sh[p := sh[p].(startByte := startByte, readBytes := readBytes, buffer := buffer)]
  }

  lemma ResizedOk(sh: Places, p: ReadItem, startByte: int, readBytes: int, buffer: array<byte>)
    requires WellFormed(sh) && p in sh && sh[p].parent == null
    requires startByte <= sh[p].startByte && sh[p].End() <= startByte + readBytes && buffer.Length == readBytes
    requires forall n | n in sh && n != p :: sh[n].buffer != buffer
    requires p.usingInternalBuffer
        || (startByte == sh[p].startByte && readBytes == sh[p].readBytes && buffer == sh[p].buffer)
    ensures WellFormed(Resized(sh, p, startByte, readBytes, buffer))
  {
    var after := Resized(sh, p, startByte, readBytes, buffer);
    forall n | n in after ensures NodeOk(n, after) {
      ResizedNodeOk(sh, p, startByte, readBytes, buffer, n);
    }
  }

  lemma ResizedNodeOk(sh: Places, p: ReadItem, startByte: int, readBytes: int, buffer: array<byte>, n: ReadItem)
    requires NodesOk(sh) && p in sh && sh[p].parent == null && n in sh
    requires startByte <= sh[p].startByte && sh[p].End() <= startByte + readBytes && buffer.Length == readBytes
    requires p.usingInternalBuffer
        || (startByte == sh[p].startByte && readBytes == sh[p].readBytes && buffer == sh[p].buffer)
    ensures n in Resized(sh, p, startByte, readBytes, buffer)
    ensures NodeOk(n, Resized(sh, p, startByte, readBytes, buffer))
  {
    assert NodeOk(n, sh) && NodeOk(p, sh);
  }

  /** From `low` to `high` is the smallest range that covers `n` and the items. */
  ghost predicate Spans(low: int, high: int, n: ReadItem, items: seq<ReadItem>, sh: Places)
    requires n in sh && forall c | c in items :: c in sh
  {
    && low <= sh[n].startByte && sh[n].End() <= high
    && (forall c | c in items :: low <= sh[c].startByte && sh[c].End() <= high)
    && (low == sh[n].startByte || exists c :: c in items && sh[c].startByte == low)
    && (high == sh[n].End() || exists c :: c in items && sh[c].End() == high)
  }

  /** The structure after a new root without included items has come up. */
  ghost function WithRoot(sh: Places, root: ReadItem, startByte: int, readBytes: int, buffer: array<byte>): Places {
    sh[root := Place(null, 0, [], startByte, readBytes, buffer)]
  }

  lemma WithRootOk(sh: Places, root: ReadItem, startByte: int, readBytes: int, buffer: array<byte>)
    requires WellFormed(sh) && root !in sh && 0 <= readBytes && buffer.Length == readBytes
    requires root.usingInternalBuffer || MirrorsRequest(root, Place(null, 0, [], startByte, readBytes, buffer))
    requires forall n | n in sh :: sh[n].buffer != buffer && n.result != root.result
    ensures WellFormed(WithRoot(sh, root, startByte, readBytes, buffer))
  {
    var after := WithRoot(sh, root, startByte, readBytes, buffer);
    forall n | n in after ensures NodeOk(n, after) {
      assert n != root ==> NodeOk(n, sh);
    }
  }

  /** A rank of at least `r` that is larger than that of every item. */
  ghost function RankAbove(sh: Places, items: seq<ReadItem>, r: nat): (above: nat)
    requires forall c | c in items :: c in sh
    ensures r <= above && forall c | c in items :: sh[c].rank < above
  {
    if items == [] then r else Max(RankAbove(sh, items[1..], r), sh[items[0]].rank + 1)
  }

  /** The structure after the items have been put below `p`. */
  ghost function Attached(sh: Places, p: ReadItem, items: seq<ReadItem>): Places
    requires p in sh && forall c | c in items :: c in sh
  {
    map n | n in sh ::
      if n == p then sh[p].(kids := sh[p].kids + items, rank := RankAbove(sh, items, sh[p].rank))
      else if n in items then sh[n].(parent := p)
      else sh[n]
  }

  /** Putting roots in the range of a root below it keeps the forest. */
  lemma AttachedOk(sh: Places, p: ReadItem, items: seq<ReadItem>)
    requires WellFormed(sh) && p in sh && sh[p].parent == null
    requires Roots(items, sh) && p !in items
    requires CoversAll(p, items, sh)
    ensures WellFormed(Attached(sh, p, items))
  {
    var after := Attached(sh, p, items);
    forall n | n in after ensures NodeOk(n, after) {
      if n == p {
        AttachedParent(sh, p, items);
      } else {
        AttachedOther(sh, p, items, n);
      }
    }
  }

  lemma AttachedParent(sh: Places, p: ReadItem, items: seq<ReadItem>)
    requires NodesOk(sh) && p in sh && sh[p].parent == null
    requires Roots(items, sh) && p !in items
    requires CoversAll(p, items, sh)
    ensures NodeOk(p, Attached(sh, p, items))
  {
    var after := Attached(sh, p, items);
    assert NodeOk(p, sh);
    forall i | 0 <= i < |after[p].kids|
      ensures var c := after[p].kids[i];
            c in after && after[c].parent == p && after[c].rank < after[p].rank && Covers(p, c, after)
    {
      if i >= |sh[p].kids| {
        assert after[p].kids[i] == items[i - |sh[p].kids|];
      }
    }
  }

  lemma AttachedOther(sh: Places, p: ReadItem, items: seq<ReadItem>, n: ReadItem)
    requires NodesOk(sh) && p in sh && sh[p].parent == null
    requires Roots(items, sh) && p !in items && n in sh && n != p
    ensures NodeOk(n, Attached(sh, p, items))
  {
    var after := Attached(sh, p, items);
    assert NodeOk(n, sh);
    if n in items {
      assert n in after[p].kids;
    }
  }

  ghost function Results(U: set<ReadItem>): set<ReadResult> {
    set n | n in U :: n.result
  }

  ghost function Buffers(sh: Places): set<array<byte>> {
    set n | n in sh :: sh[n].buffer
  }

  ghost function ResultOf(n: ReadItem, sh: Places): Outcome
    requires n in sh
    reads n.result, sh[n].buffer
  {
    Outcome(n.result.status, n.result.bytesRead, sh[n].buffer[..])
  }

  /** How many of `length` bytes are there from an offset on, if `bytesRead` bytes are there from the start on. */
  function Part(bytesRead: int, offset: int, length: int): int {
    Max(0, Min(bytesRead - offset, length))
  }

  /** An item passes on those of the bytes that it has read, or the error. */
  ghost predicate Passes(from: Outcome, offset: int, length: int, to: Outcome) {
    && to.status == from.status
    && to.bytesRead == (if from.status == Success then Part(from.bytesRead, offset, length) else 0)
    && (to.bytesRead != 0 ==>
          && 0 <= offset && to.bytesRead <= |to.bytes| && offset + to.bytesRead <= |from.bytes|
          && to.bytes[..to.bytesRead] == from.bytes[offset..offset + to.bytesRead])
  }

  /**
   * No item below is asked to copy a negative number of bytes: none begins behind the bytes that
   * the item above it has got, if that has got any.
   */
  ghost predicate Deliverable(n: ReadItem, bytesRead: int, sh: Places)
    requires NodesOk(sh) && n in sh
    decreases sh[n].rank
  {
    assert NodeOk(n, sh);
    bytesRead == 0 || forall c | c in sh[n].kids ::
      && sh[c].startByte - sh[n].startByte <= bytesRead
      && Deliverable(c, Min(bytesRead - (sh[c].startByte - sh[n].startByte), sh[c].readBytes), sh)
  }

  /** The result of the item can be handed down. */
  ghost predicate DeliversFrom(n: ReadItem, sh: Places)
    requires NodesOk(sh) && n in sh
    reads n.result
  {
    n.result.status == Success ==> Deliverable(n, n.result.bytesRead, sh)
  }

  /** All bytes of an item can be handed down. */
  lemma {:induction false} AllDeliverable(n: ReadItem, sh: Places)
    requires NodesOk(sh) && n in sh
    ensures Deliverable(n, sh[n].readBytes, sh)
    decreases sh[n].rank
  {
    assert NodeOk(n, sh);
    forall c | c in sh[n].kids
      ensures c in sh && Covers(n, c, sh) && Deliverable(c, sh[c].readBytes, sh)
      ensures Min(sh[n].readBytes - (sh[c].startByte - sh[n].startByte), sh[c].readBytes) == sh[c].readBytes
      ensures sh[c].startByte - sh[n].startByte <= sh[n].readBytes
    {
      assert NodeOk(c, sh);
      AllDeliverable(c, sh);
    }
  }

  /** The item has the result that follows from the result of its parent. */
  ghost predicate Settled(d: ReadItem, sh: Places)
    requires d in sh
    reads d.result, sh[d].buffer
    reads if sh[d].parent == null || sh[d].parent !in sh then {} else {sh[d].parent.result}
    reads if sh[d].parent == null || sh[d].parent !in sh then {} else {sh[sh[d].parent].buffer}
  {
    && sh[d].parent != null && sh[d].parent in sh
    && Passes(ResultOf(sh[d].parent, sh), sh[d].startByte - sh[sh[d].parent].startByte, sh[d].readBytes,
        ResultOf(d, sh))
  }

  /** D consists of what lies below the first k included items of n. */
  ghost predicate PartialDescent(n: ReadItem, k: int, D: set<ReadItem>, sh: Places)
    requires n in sh
  {
    && D <= sh.Keys && n !in D
    && (forall d | d in D :: sh[d].rank < sh[n].rank && (sh[d].parent == n || sh[d].parent in D))
    && (forall d, c | d in D && c in sh[d].kids :: c in D)
    && (forall j | 0 <= j < |sh[n].kids| :: sh[n].kids[j] in D <==> j < k)
  }

  /** D consists of all items below n. */
  ghost predicate Descent(n: ReadItem, D: set<ReadItem>, sh: Places)
    requires n in sh
  {
    PartialDescent(n, |sh[n].kids|, D, sh)
  }

  /** What lies below different included items of n is disjoint. */
  lemma DescentsApart(n: ReadItem, k: int, D: set<ReadItem>, below: set<ReadItem>, sh: Places)
    requires n in sh && WellFormed(sh) && PartialDescent(n, k, D, sh)
    requires 0 <= k < |sh[n].kids| && sh[n].kids[k] in sh && Descent(sh[n].kids[k], below, sh)
    ensures D !! below + {sh[n].kids[k]} && n !in below
    ensures PartialDescent(n, k + 1, D + (below + {sh[n].kids[k]}), sh)
  {
    assert NodeOk(n, sh);
    forall d | d in D && d in below ensures false {
      NoCommonItem(n, k, D, below, sh, d);
    }
  }

  lemma {:induction false} NoCommonItem(n: ReadItem, k: int, D: set<ReadItem>, below: set<ReadItem>, sh: Places,
      d: ReadItem)
    requires n in sh && WellFormed(sh) && PartialDescent(n, k, D, sh)
    requires 0 <= k < |sh[n].kids| && sh[n].kids[k] in sh && Descent(sh[n].kids[k], below, sh)
    requires d in D && d in below
    ensures false
    decreases sh[n].rank - sh[d].rank
  {
    assert NodeOk(n, sh) && NodeOk(d, sh);
    var up := sh[d].parent;
    if up in D && up in below {
      assert NodeOk(up, sh);
      NoCommonItem(n, k, D, below, sh, up);
    }
  }
}

/** The read optimizer: absorbs contained ranges and merges near neighbours into a forest of read items. */
module ReadOptimizer {
  import opened PlcTypes
  import opened ReadItems

  // ---------- what the two passes establish ----------

  /** The passes only move items in the forest; ranges and buffers stay. */
  ghost predicate SameRanges(sh: Places, after: Places) {
    sh.Keys <= after.Keys
    && forall n | n in sh ::
         sh[n].startByte == after[n].startByte && sh[n].readBytes == after[n].readBytes
             && sh[n].buffer == after[n].buffer
  }

  ghost predicate SameArea(items: seq<ReadItem>) {
    forall a, b | a in items && b in items :: a.area == b.area && a.areaNumber == b.areaNumber
  }

  ghost predicate AllIn(items: seq<ReadItem>, sh: Places) {
    forall c | c in items :: c in sh
  }

  ghost predicate SortedByStart(items: seq<ReadItem>, sh: Places)
    requires AllIn(items, sh)
  {
    forall i, j | 0 <= i < j < |items| :: sh[items[i]].startByte <= sh[items[j]].startByte
  }

  /** `b` starts and ends behind `a`, so neither range includes the other. */
  ghost predicate Precedes(a: ReadItem, b: ReadItem, sh: Places)
    requires a in sh && b in sh
  {
    sh[a].startByte < sh[b].startByte && sh[a].End() < sh[b].End()
  }

  /** No range includes another one, and starts and ends increase together. */
  ghost predicate Antichain(items: seq<ReadItem>, sh: Places)
    requires AllIn(items, sh)
  {
    forall i, j | 0 <= i < j < |items| :: Precedes(items[i], items[j], sh)
  }

  /** Of the roots in `items`, exactly those in `kept` are still roots; nothing else has changed its place. */
  ghost predicate Demoted(sh: Places, items: seq<ReadItem>, kept: seq<ReadItem>, after: Places) {
    sh.Keys <= after.Keys
    && forall n | n in sh :: if n in items then after[n].parent == null <==> n in kept
        else after[n].parent == sh[n].parent
  }

  // ---------- sorting ----------

  /** The items that start at a byte, in order. */
  ghost function StartingAt(items: seq<ReadItem>, start: int, sh: Places): seq<ReadItem> {
    if items == [] then [] else
      var last := items[|items| - 1];
      StartingAt(items[..|items| - 1], start, sh) + if last in sh && sh[last].startByte == start then [last] else []
  }

  lemma {:induction false} StartingConcat(a: seq<ReadItem>, b: seq<ReadItem>, start: int, sh: Places)
    ensures StartingAt(a + b, start, sh) == StartingAt(a, start, sh) + StartingAt(b, start, sh)
    decreases |b|
  {
    if b == [] {
      assert a + b == a;
    } else {
      StartingConcat(a, b[..|b| - 1], start, sh);
      assert (a + b)[..|a + b| - 1] == a + b[..|b| - 1];
    }
  }

  lemma {:induction false} StartingLater(items: seq<ReadItem>, start: int, sh: Places)
    requires forall n | n in items && n in sh :: start < sh[n].startByte
    ensures StartingAt(items, start, sh) == []
  {
    if items != [] {
      StartingLater(items[..|items| - 1], start, sh);
    }
  }

  /** Items that start later do not matter. */
  lemma ThreeParts(front: seq<ReadItem>, middle: seq<ReadItem>, back: seq<ReadItem>, start: int, sh: Places)
    requires StartingAt(middle, start, sh) == [] || StartingAt(back, start, sh) == []
    ensures StartingAt(front + middle + back, start, sh) == StartingAt(front + back + middle, start, sh)
  {
    StartingConcat(front + middle, back, start, sh);
    StartingConcat(front, middle, start, sh);
    StartingConcat(front + back, middle, start, sh);
    StartingConcat(front, back, start, sh);
  }

  /** An item that is put before all that start later comes behind those with the same start. */
  lemma InsertedLast(items: seq<ReadItem>, i: nat, x: ReadItem, start: int, sh: Places)
    requires i <= |items| && x in sh && forall n | n in items[i..] && n in sh :: sh[x].startByte < sh[n].startByte
    ensures StartingAt(Inserted(items, i, x), start, sh) == StartingAt(items + [x], start, sh)
  {
    assert items[..i] + items[i..] == items && Inserted(items, i, x) == items[..i] + [x] + items[i..];
    if sh[x].startByte == start {
      StartingLater(items[i..], start, sh);
    }
    ThreeParts(items[..i], [x], items[i..], start, sh);
  }

  /** Both lists have the same items for each start byte, in the same order. */
  ghost predicate SameOrder(a: seq<ReadItem>, b: seq<ReadItem>, sh: Places) {
    forall start :: StartingAt(a, start, sh) == StartingAt(b, start, sh)
  }

  lemma OrderKept(items: seq<ReadItem>, k: nat, sorted: seq<ReadItem>, i: nat, sh: Places)
    requires k < |items| && items[k] in sh && SameOrder(sorted, items[..k], sh)
    requires i <= |sorted| && forall n | n in sorted[i..] && n in sh :: sh[items[k]].startByte < sh[n].startByte
    ensures SameOrder(Inserted(sorted, i, items[k]), items[..k + 1], sh)
  {
    assert items[..k + 1] == items[..k] + [items[k]];
    forall start
      ensures StartingAt(Inserted(sorted, i, items[k]), start, sh) == StartingAt(items[..k + 1], start, sh)
    {
      InsertedLast(sorted, i, items[k], start, sh);
      StartingConcat(sorted, [items[k]], start, sh);
      StartingConcat(items[..k], [items[k]], start, sh);
    }
  }

  /** Finds the place of an item, behind those with the same start byte. */
  method FindPlace(item: ReadItem, sorted: seq<ReadItem>, ghost sh: Places) returns (i: nat)
    requires Current(sh) && item in sh && AllIn(sorted, sh) && SortedByStart(sorted, sh)
    ensures i <= |sorted|
    ensures forall j | 0 <= j < |sorted| :: sh[item].startByte < sh[sorted[j]].startByte <==> i <= j
  {
    i := |sorted|;
    while i > 0 && item.startByte < sorted[i - 1].startByte
      invariant 0 <= i <= |sorted|
      invariant forall j | i <= j < |sorted| :: sh[item].startByte < sh[sorted[j]].startByte
    {
      i := i - 1;
    }
  }

  lemma StillSorted(sorted: seq<ReadItem>, i: nat, x: ReadItem, sh: Places)
    requires Roots(sorted, sh) && SortedByStart(sorted, sh) && i <= |sorted|
    requires x in sh && sh[x].parent == null && x !in sorted
    requires forall j | 0 <= j < |sorted| :: sh[x].startByte < sh[sorted[j]].startByte <==> i <= j
    ensures Roots(Inserted(sorted, i, x), sh) && SortedByStart(Inserted(sorted, i, x), sh)
  {
  }

  /** Sorts by start byte; items with the same start byte keep their order. */
  method SortByStartByte(items: seq<ReadItem>, ghost sh: Places) returns (sorted: seq<ReadItem>)
    requires Current(sh) && Roots(items, sh)
    ensures Roots(sorted, sh) && SortedByStart(sorted, sh) && SameOrder(sorted, items, sh)
    ensures forall n :: n in sorted <==> n in items
  {
    sorted := [];
    for k := 0 to |items|
      invariant Roots(sorted, sh) && SortedByStart(sorted, sh) && SameOrder(sorted, items[..k], sh)
      invariant forall n :: n in sorted <==> n in items[..k]
    {
      var i := FindPlace(items[k], sorted, sh);
      assert items[k] !in items[..k];
      OrderKept(items, k, sorted, i, sh);
      StillSorted(sorted, i, items[k], sh);
      sorted := Inserted(sorted, i, items[k]);
      assert items[..k + 1] == items[..k] + [items[k]];
    }
    assert items[..|items|] == items;
  }

  function Inserted<T>(s: seq<T>, i: nat, x: T): (r: seq<T>)
    requires i <= |s|
    ensures |r| == |s| + 1 && r[i] == x
    ensures forall j | 0 <= j < |r| :: r[j] == if j < i then s[j] else if j == i then x else s[j - 1]
    ensures forall n | n in r :: n in s || n == x
    ensures x in r && forall n | n in s :: n in r
  {
    var r := s[..i] + [x] + s[i..];
    assert s == s[..i] + s[i..];
    r
  }

  function Erased<T>(s: seq<T>, i: nat): (r: seq<T>)
    requires i < |s|
    ensures |r| == |s| - 1
    ensures forall j | 0 <= j < |r| :: r[j] == if j < i then s[j] else s[j + 1]
    ensures forall n | n in r :: n in s
    ensures forall n | n in s && n != s[i] :: n in r
  {
    var r := s[..i] + s[i + 1..];
    assert s == s[..i] + [s[i]] + s[i + 1..];
    r
  }

  // ---------- first pass ----------

  /** The first pass has absorbed some of the items; the others are still there, in order, as roots. */
  ghost predicate Absorbing(sh: Places, items: seq<ReadItem>, rest: seq<ReadItem>, at: Places) {
    && WellFormed(at) && at.Keys == sh.Keys && SameRanges(sh, at)
    && NoDuplicates(rest) && (forall n | n in rest :: n in items && n in sh)
    && SortedByStart(rest, sh)
    && Demoted(sh, items, rest, at)
  }

  ghost predicate NoDuplicates<T>(s: seq<T>) {
    forall i, j | 0 <= i < j < |s| :: s[i] != s[j]
  }

  /** One item absorbs another one that it includes. */
  lemma AbsorbOne(sh: Places, items: seq<ReadItem>, rest: seq<ReadItem>, at: Places, p: nat, x: nat)
    requires Roots(items, sh) && Absorbing(sh, items, rest, at) && p < |rest| && x < |rest| && p != x
    requires Covers(rest[p], rest[x], at)
    ensures Roots(rest, at)
    ensures Absorbing(sh, items, Erased(rest, x), Attached(at, rest[p], [rest[x]]))
  {
    AttachedOk(at, rest[p], [rest[x]]);
    AbsorbOneDemotes(sh, items, rest, at, p, x);
    ErasedInOrder(rest, x, sh);
  }

  lemma ErasedInOrder(rest: seq<ReadItem>, x: nat, sh: Places)
    requires x < |rest| && AllIn(rest, sh) && NoDuplicates(rest) && SortedByStart(rest, sh)
    ensures NoDuplicates(Erased(rest, x)) && SortedByStart(Erased(rest, x), sh)
  {
  }

  lemma AbsorbOneDemotes(sh: Places, items: seq<ReadItem>, rest: seq<ReadItem>, at: Places, p: nat, x: nat)
    requires NoDuplicates(rest) && (forall n | n in rest :: n in items && n in sh) && at.Keys == sh.Keys
    requires Demoted(sh, items, rest, at) && p < |rest| && x < |rest| && p != x
    ensures Demoted(sh, items, Erased(rest, x), Attached(at, rest[p], [rest[x]]))
  {
    var shorter := Erased(rest, x);
    forall n | n in rest ensures n in shorter <==> n != rest[x] {
    }
  }

  /**
   * Compares the first item with the items behind it: absorbs items that it
   * includes and stops when an item includes it or nothing behind it can overlap.
   */
  method AbsorbIntoFirst(items: seq<ReadItem>, ghost sh: Places)
      returns (rest: seq<ReadItem>, keepItem: bool, ghost after: Places)
    requires Current(sh) && items != [] && SameArea(items) && Roots(items, sh) && Absorbing(sh, items, items, sh)
    modifies sh.Keys
    ensures Current(after) && 0 < |rest| <= |items| && rest[0] == items[0]
    ensures Absorbing(sh, items, if keepItem then rest else rest[1..], after)
    ensures keepItem && |rest| > 1 ==> Precedes(rest[0], rest[1], sh)
    ensures !keepItem ==>
        |rest| > 1 && sh[rest[1]].startByte == sh[rest[0]].startByte && sh[rest[0]].End() <= sh[rest[1]].End()
  {
    rest, keepItem, after := items, true, sh;
    var firstItem := items[0];
    var i := 1;
    while i < |rest|
      invariant 1 <= i <= |rest| <= |items| && rest[0] == firstItem
      invariant Current(after) && Absorbing(sh, items, rest, after)
      invariant i > 1 ==> Precedes(firstItem, rest[1], sh)
      decreases |rest| - i
    {
      var item := rest[i];
      var ok;
      if item.IncludesNoAreaCheck(firstItem) {
        ok, after := Absorb(item, firstItem, items, rest, i, 0, sh, after);
        if ok {
          keepItem := false;
          assert rest[1..] == Erased(rest, 0);
        }
        break;
      } else if firstItem.IncludesNoAreaCheck(item) {
        ok, after := Absorb(firstItem, item, items, rest, 0, i, sh, after);
        if ok {
          rest := Erased(rest, i);
        } else {
          break;
        }
      } else if firstItem.EndByte() <= item.startByte {
        break;
      } else {
        i := i + 1;
      }
    }
  }

  /** Adding an included item to the item that includes it succeeds: the range does not have to grow. */
  method Absorb(into: ReadItem, item: ReadItem, ghost items: seq<ReadItem>, ghost rest: seq<ReadItem>,
                ghost p: nat, ghost x: nat, ghost sh: Places, ghost at: Places)
      returns (ok: bool, ghost after: Places)
    requires Current(at) && SameArea(items) && Roots(items, sh) && Absorbing(sh, items, rest, at)
    requires p < |rest| && x < |rest| && p != x && rest[p] == into && rest[x] == item
    requires into.IncludesNoAreaCheck(item)
    modifies at.Keys
    ensures ok && Current(after) && Absorbing(sh, items, Erased(rest, x), after)
  {
    AbsorbOne(sh, items, rest, at, p, x);
    ok, after := into.AddReadItem(item, at);
  }

  /** A later part of the pass continues the part that has led to the structure `at`. */
  lemma AbsorbMore(sh: Places, items: seq<ReadItem>, kept: seq<ReadItem>, rest: seq<ReadItem>, at: Places,
                   roots: seq<ReadItem>, after: Places)
    requires Absorbing(sh, items, kept + rest, at) && Absorbing(at, rest, roots, after)
    ensures Absorbing(sh, items, kept + roots, after)
  {
    KeptApart(kept, rest);
    MoreInOrder(kept, rest, roots, sh);
    assert forall n | n in rest :: n in kept + rest;
    assert forall n | n in kept :: n in kept + rest;
    assert forall n | n in kept + roots :: n in kept || n in roots;
    assert forall n | n in roots :: n in kept + roots;
    assert forall n | n in kept :: n in kept + roots;
  }

  lemma Apart<T>(a: seq<T>, b: seq<T>)
    requires NoDuplicates(a) && NoDuplicates(b) && forall n | n in a :: n !in b
    ensures NoDuplicates(a + b)
  {
    forall i, j | 0 <= i < j < |a + b| ensures (a + b)[i] != (a + b)[j] {
      if i < |a| && |a| <= j {
        assert a[i] in a && b[j - |a|] in b;
      }
    }
  }

  lemma KeptApart<T>(kept: seq<T>, rest: seq<T>)
    requires NoDuplicates(kept + rest)
    ensures NoDuplicates(kept) && NoDuplicates(rest) && forall n | n in kept :: n !in rest
  {
    var all := kept + rest;
    forall i, j | 0 <= i < |kept| && 0 <= j < |rest| ensures kept[i] != rest[j] {
      assert all[i] != all[|kept| + j];
    }
    forall i, j | 0 <= i < j < |kept| ensures kept[i] != kept[j] {
      assert all[i] != all[j];
    }
    forall i, j | 0 <= i < j < |rest| ensures rest[i] != rest[j] {
      assert all[|kept| + i] != all[|kept| + j];
    }
  }

  lemma MoreInOrder(kept: seq<ReadItem>, rest: seq<ReadItem>, roots: seq<ReadItem>, sh: Places)
    requires AllIn(kept + rest, sh) && SortedByStart(kept + rest, sh) && NoDuplicates(kept + rest)
    requires NoDuplicates(roots) && (forall n | n in roots :: n in rest && n in sh) && SortedByStart(roots, sh)
    ensures AllIn(kept + roots, sh) && SortedByStart(kept + roots, sh) && NoDuplicates(kept + roots)
  {
    var all, more := kept + rest, kept + roots;
    KeptApart(kept, rest);
    forall i, j | 0 <= i < j < |more| ensures more[i] != more[j] && sh[more[i]].startByte <= sh[more[j]].startByte {
      if i < |kept| && j < |kept| {
        assert all[i] != all[j];
      } else if i < |kept| {
        assert more[j] == roots[j - |kept|] && roots[j - |kept|] in rest;
        var k :| 0 <= k < |rest| && rest[k] == more[j];
        assert all[i] != all[|kept| + k];
      } else {
        assert roots[i - |kept|] != roots[j - |kept|];
      }
    }
  }

  /** What is left to do is a task of its own. */
  lemma StartAgain(sh: Places, items: seq<ReadItem>, kept: seq<ReadItem>, rest: seq<ReadItem>, at: Places)
    requires Roots(items, sh) && SameArea(items) && Absorbing(sh, items, kept + rest, at)
    ensures Roots(rest, at) && SameArea(rest) && Absorbing(at, rest, rest, at)
      && forall n | n in rest :: n in items && n in sh
  {
    KeptApart(kept, rest);
    assert forall n | n in rest :: n in kept + rest;
    forall i, j | 0 <= i < j < |rest| ensures at[rest[i]].startByte <= at[rest[j]].startByte {
      assert (kept + rest)[|kept| + i] == rest[i] && (kept + rest)[|kept| + j] == rest[j];
    }
  }

  /** Keeps the items that no other item includes; the others go below one that includes them. */
  method KeepUnincluded(items: seq<ReadItem>, ghost sh: Places) returns (kept: seq<ReadItem>, ghost after: Places)
    requires Current(sh) && WellFormed(sh) && Roots(items, sh) && SameArea(items) && SortedByStart(items, sh)
    modifies sh.Keys
    ensures Current(after) && Absorbing(sh, items, kept, after)
    ensures Antichain(kept, sh)
  {
    var rest := items;
    kept, after := [], sh;
    assert kept + rest == items;
    while rest != []
      invariant Current(after) && Whole(Absorbing(sh, items, kept + rest, after))
      invariant AllIn(kept, sh) && AllIn(rest, sh) && Whole(Antichain(kept, sh))
      invariant Whole(Follows(kept, rest, sh))
      decreases |rest|
    {
      ghost var before, was := after, rest;
      StartAgain(sh, items, kept, rest, after);
      var keepItem;
      rest, keepItem, after := AbsorbIntoFirst(rest, after);
      AbsorbMore(sh, items, kept, was, before, if keepItem then rest else rest[1..], after);
      NextFollows(kept, rest, keepItem, sh);
      if keepItem {
        MoveFirst(kept, rest);
        kept := kept + [rest[0]];
      }
      rest := rest[1..];
    }
    assert kept + rest == kept;
  }

  lemma MoveFirst<T>(a: seq<T>, b: seq<T>)
    requires b != []
    ensures (a + [b[0]]) + b[1..] == a + b
  {
  }

  /** The first item still to be looked at lies behind everything kept. */
  ghost predicate Follows(kept: seq<ReadItem>, rest: seq<ReadItem>, sh: Places)
    requires AllIn(kept, sh) && AllIn(rest, sh)
  {
    kept != [] && rest != [] ==> Precedes(kept[|kept| - 1], rest[0], sh)
  }

  lemma NextFollows(kept: seq<ReadItem>, rest: seq<ReadItem>, keepItem: bool, sh: Places)
    requires AllIn(kept, sh) && AllIn(rest, sh) && rest != [] && Antichain(kept, sh) && Follows(kept, rest, sh)
    requires keepItem && |rest| > 1 ==> Precedes(rest[0], rest[1], sh)
    requires !keepItem ==>
        |rest| > 1 && sh[rest[1]].startByte == sh[rest[0]].startByte && sh[rest[0]].End() <= sh[rest[1]].End()
    ensures AllIn(rest[1..], sh)
    ensures Follows(if keepItem then kept + [rest[0]] else kept, rest[1..], sh)
    ensures Antichain(kept + [rest[0]], sh)
  {
  }

  // ---------- second pass ----------

  /** The item at `k` joins the block that the items before it form. */
  ghost predicate Joins(list: seq<ReadItem>, k: nat, maxPayloadSize: int, sh: Places)
    requires AllIn(list, sh) && 0 < k < |list|
  {
    && sh[list[k]].End() - sh[list[0]].startByte + 4 <= maxPayloadSize
    && sh[list[k]].startByte <= sh[list[k - 1]].End() + 4
  }

  /** The length of the first block, of which k items are known. */
  ghost function BlockLength(list: seq<ReadItem>, k: nat, maxPayloadSize: int, sh: Places): (b: nat)
    requires AllIn(list, sh) && 0 < k <= |list|
    ensures k <= b <= |list|
    decreases |list| - k
  {
    if k < |list| && Joins(list, k, maxPayloadSize, sh) then BlockLength(list, k + 1, maxPayloadSize, sh) else k
  }

  /** The division of a list into blocks: each takes as many of the next items as join it. */
  ghost function Blocks(list: seq<ReadItem>, maxPayloadSize: int, sh: Places): seq<seq<ReadItem>>
    requires AllIn(list, sh)
    decreases |list|
  {
    if list == [] then [] else
      var b := BlockLength(list, 1, maxPayloadSize, sh);
      [list[..b]] + Blocks(list[b..], maxPayloadSize, sh)
  }

  /** A block of one item is that item; a longer block is a new item that spans and includes its members. */
  ghost predicate Represents(root: ReadItem, block: seq<ReadItem>, sh: Places, after: Places) {
    && block != [] && AllIn(block, sh) && root in after
    && if |block| == 1 then root == block[0] else
         && root !in sh && root.usingInternalBuffer
         && root.area == block[0].area && root.areaNumber == block[0].areaNumber
         && after[root].kids == block
         && after[root].startByte == sh[block[0]].startByte && after[root].End() == sh[block[|block| - 1]].End()
  }

  /** Of the items `all`, those in `todo` are still to be divided; the blocks of the others have the given roots. */
  ghost predicate Partway(sh: Places, all: set<ReadItem>, todo: set<ReadItem>, roots: set<ReadItem>, at: Places) {
    && WellFormed(at) && SameRanges(sh, at)
    && todo <= all <= sh.Keys && roots <= at.Keys && roots !! todo
    && (forall n | n in at && (n in all || n !in sh) :: at[n].parent == null <==> n in roots || n in todo)
    && (forall n | n in at && n !in sh :: n in roots)
    && (forall n | n in sh && n !in all :: n !in roots && at[n].parent == sh[n].parent)
  }

  /** Only the members of the block get a new parent, which is the root. */
  ghost predicate OnlyBlockMoves(at: Places, block: set<ReadItem>, root: ReadItem, after: Places) {
    && (root in block || root !in at)
    && after.Keys == at.Keys + {root} && SameRanges(at, after) && after[root].parent == null
    && (forall n | n in at && n !in block :: after[n] == at[n])
    && (forall n | n in block && n in at :: after[n].parent == null <==> n == root)
  }

  lemma NextBlock(sh: Places, all: set<ReadItem>, todo: set<ReadItem>, roots: set<ReadItem>, at: Places,
                  block: set<ReadItem>, root: ReadItem, after: Places)
    requires Partway(sh, all, todo, roots, at) && block <= todo
    requires WellFormed(after) && OnlyBlockMoves(at, block, root, after)
    ensures Partway(sh, all, todo - block, roots + {root}, after)
    ensures root !in roots && forall r | r in roots :: after[r] == at[r]
  {
  }

  /** The inner loop of the second pass: takes the items off the list that join the block of the first item. */
  method TakeBlock(list: seq<ReadItem>, maxPayloadSize: int, ghost sh: Places)
      returns (itemsInBlock: seq<ReadItem>, endByte: int, rest: seq<ReadItem>)
    requires AllIn(list, sh) && list != [] && Current(sh)
    ensures var b := BlockLength(list, 1, maxPayloadSize, sh);
            itemsInBlock == list[1..b] && rest == [list[0]] + list[b..] && endByte == sh[list[b - 1]].End()
  {
    var firstItem := list[0];
    var i := 1;
    var startByte := firstItem.startByte;
    endByte := firstItem.EndByte();
    itemsInBlock, rest := [], list;
    ghost var b := 1;
    while i < |rest|
      invariant i == 1 && b == |itemsInBlock| + 1 <= |list|
      invariant rest == [list[0]] + list[b..] && itemsInBlock == list[1..b]
      invariant endByte == sh[list[b - 1]].End()
      invariant BlockLength(list, 1, maxPayloadSize, sh) == BlockLength(list, b, maxPayloadSize, sh)
      decreases |rest|
    {
      var item := rest[i];
      assert item == list[b];
      if item.EndByte() - startByte + 4 > maxPayloadSize {
        break;
      }
      if item.startByte <= endByte + 4 {
        endByte := item.EndByte();
        itemsInBlock := itemsInBlock + [item];
        rest := Erased(rest, i);
        b := b + 1;
      } else {
        break;
      }
    }
  }

  /** A new item with an internal buffer that spans the items of a block and includes them. */
  method NewBlock(block: seq<ReadItem>, startByte: int, endByte: int, ghost at: Places)
      returns (newItem: ReadItem, ok: bool, ghost after: Places)
    requires Current(at) && WellFormed(at) && |block| > 1 && Roots(block, at)
    requires startByte == at[block[0]].startByte && endByte == at[block[|block| - 1]].End() && startByte <= endByte
    requires forall c | c in block :: InRange(c, block[0].area, block[0].areaNumber, startByte, endByte, at)
    modifies at.Keys
    ensures OnlyBlockMoves(at, Members(block), newItem, after) && Represents(newItem, block, at, after)
    ensures ok && fresh(newItem) && fresh(newItem.result) && fresh(after[newItem].buffer) && Unread(newItem)
    ensures Current(after) && WellFormed(after)
  {
    newItem := new ReadItem.Internal(block[0].area, block[0].areaNumber, startByte, endByte - startByte);
    assert forall n | n in at :: at[n].buffer == n.buffer;
    WithRootOk(at, newItem, startByte, endByte - startByte, newItem.buffer);
    ghost var at1 := WithRoot(at, newItem, startByte, endByte - startByte, newItem.buffer);
    assert CoversAll(newItem, block, at1);
    ok, after := newItem.AddReadItems(block, at1);
    NewBlockMoves(newItem, startByte, endByte, at1[newItem].buffer, block, at, after);
  }

  ghost predicate InRange(c: ReadItem, area: Area, areaNumber: int, startByte: int, endByte: int, sh: Places) {
    c in sh && c.area == area && c.areaNumber == areaNumber && startByte <= sh[c].startByte && sh[c].End() <= endByte
  }

  /** An item that has no near neighbours stays as it is. */
  lemma SingleBlock(item: ReadItem, sh: Places)
    requires WellFormed(sh) && AllIn([item], sh) && sh[item].parent == null
    ensures Represents(item, [item], sh, sh) && OnlyBlockMoves(sh, Members([item]), item, sh)
  {
  }

  /** The members of a block lie in the range that the second pass gives to the new item. */
  lemma BlockInRange(list: seq<ReadItem>, b: nat, sh: Places)
    requires WellFormed(sh) && AllIn(list, sh) && SameArea(list) && Antichain(list, sh) && 0 < b <= |list|
    ensures sh[list[0]].startByte <= sh[list[b - 1]].End()
    ensures forall c | c in list[..b] ::
      InRange(c, list[0].area, list[0].areaNumber, sh[list[0]].startByte, sh[list[b - 1]].End(), sh)
  {
    assert NodeOk(list[0], sh);
    forall c | c in list[..b]
      ensures InRange(c, list[0].area, list[0].areaNumber, sh[list[0]].startByte, sh[list[b - 1]].End(), sh)
    {
      var k :| 0 <= k < b && list[k] == c;
      assert 0 == k || Precedes(list[0], list[k], sh);
      assert k == b - 1 || Precedes(list[k], list[b - 1], sh);
    }
  }

  lemma NewBlockMoves(newItem: ReadItem, startByte: int, endByte: int, buffer: array<byte>, block: seq<ReadItem>,
      sh: Places, after: Places)
    requires |block| > 1 && AllIn(block, sh) && newItem !in sh && newItem.usingInternalBuffer
    requires newItem.area == block[0].area && newItem.areaNumber == block[0].areaNumber
    requires startByte == sh[block[0]].startByte && endByte == sh[block[|block| - 1]].End()
    requires after == Attached(WithRoot(sh, newItem, startByte, endByte - startByte, buffer), newItem, block)
    ensures OnlyBlockMoves(sh, Members(block), newItem, after) && Represents(newItem, block, sh, after)
  {
    assert [] + block == block;
  }

  /** Keeps an item without near neighbours, or replaces it and its neighbours by a new item. */
  method ReplaceBlock(firstItem: ReadItem, itemsInBlock: seq<ReadItem>, startByte: int, endByte: int,
                      ghost block: seq<ReadItem>, ghost at: Places)
      returns (root: ReadItem, ghost after: Places)
    requires Current(at) && WellFormed(at)
    requires block == [firstItem] + itemsInBlock && Roots(block, at) && AllIn(block, at)
    requires startByte == at[block[0]].startByte && endByte == at[block[|block| - 1]].End() && startByte <= endByte
    requires forall c | c in block :: InRange(c, block[0].area, block[0].areaNumber, startByte, endByte, at)
    modifies at.Keys
    ensures Current(after) && WellFormed(after)
    ensures Whole(Represents(root, block, at, after)) && Whole(OnlyBlockMoves(at, Members(block), root, after))
    ensures root in at || (fresh(root) && fresh(root.result) && fresh(after[root].buffer) && Unread(root))
  {
    if itemsInBlock == [] {
      assert block == [firstItem];
      root, after := firstItem, at;
      SingleBlock(firstItem, at);
    } else {
      var ok;
      root, ok, after := NewBlock([firstItem] + itemsInBlock, startByte, endByte, at);
    }
  }

  /** One round of the second pass: takes the next block of items off the list and finds or creates its root. */
  method JoinOneBlock(list: seq<ReadItem>, maxPayloadSize: int, ghost sh: Places)
      returns (rest: seq<ReadItem>, root: ReadItem, ghost after: Places)
    requires Current(sh) && WellFormed(sh) && list != [] && Roots(list, sh) && SameArea(list) && Antichain(list, sh)
    modifies sh.Keys
    ensures Current(after) && WellFormed(after)
    ensures var b := BlockLength(list, 1, maxPayloadSize, sh);
            && rest == list[b..] && Whole(Represents(root, list[..b], sh, after))
            && Whole(OnlyBlockMoves(sh, Members(list[..b]), root, after))
    ensures root in sh || (fresh(root) && fresh(root.result) && fresh(after[root].buffer) && Unread(root))
    ensures forall n | n in sh && old(Unread(n)) :: Unread(n)
  {
    var firstItem := list[0];
    var startByte := firstItem.startByte;
    var itemsInBlock, endByte;
    itemsInBlock, endByte, rest := TakeBlock(list, maxPayloadSize, sh);
    ghost var b := BlockLength(list, 1, maxPayloadSize, sh);
    assert list[..b] == [firstItem] + itemsInBlock;
    BlockInRange(list, b, sh);
    root, after := ReplaceBlock(firstItem, itemsInBlock, startByte, endByte, list[..b], sh);
    rest := rest[1..];
  }

  ghost predicate Unread(n: ReadItem)
    reads n.result
  {
    n.result.bytesRead == 0 && n.result.status == Success
  }

  /** What the second pass knows about the list of items that it has not divided yet. */
  ghost predicate ListTask(list: seq<ReadItem>, todo: set<ReadItem>, sh: Places) {
    && AllIn(list, sh) && todo == Members(list) && NoDuplicates(list) && SameArea(list) && Antichain(list, sh)
  }

  lemma TaskRoots(sh: Places, all: set<ReadItem>, todo: set<ReadItem>, roots: set<ReadItem>, at: Places,
      list: seq<ReadItem>)
    requires Partway(sh, all, todo, roots, at) && ListTask(list, todo, sh)
    ensures Roots(list, at) && Antichain(list, at)
  {
    assert forall n | n in list :: n in todo;
    forall i, j | 0 <= i < j < |list| ensures Precedes(list[i], list[j], at) {
      assert Precedes(list[i], list[j], sh);
    }
  }

  lemma RestTask(list: seq<ReadItem>, todo: set<ReadItem>, b: nat, sh: Places)
    requires ListTask(list, todo, sh) && b <= |list|
    ensures Members(list[..b]) <= todo && ListTask(list[b..], todo - Members(list[..b]), sh)
  {
    var rest := list[b..];
    assert forall n | n in rest :: n in list;
    forall n | n in list ensures n in list[..b] || n in rest {
      var i :| 0 <= i < |list| && list[i] == n;
      assert i < b || rest[i - b] == n;
    }
    forall i, j | 0 <= i < j < |rest| ensures Precedes(rest[i], rest[j], sh) && rest[i] != rest[j] {
      assert Precedes(list[b + i], list[b + j], sh);
    }
    forall n | n in list[..b] ensures n !in rest {
      var i :| 0 <= i < b && list[i] == n;
      assert forall j | 0 <= j < |rest| :: rest[j] == list[b + j];
    }
  }

  lemma SameBlockLength(list: seq<ReadItem>, k: nat, maxPayloadSize: int, sh: Places, at: Places)
    requires AllIn(list, sh) && SameRanges(sh, at) && 0 < k <= |list|
    ensures BlockLength(list, k, maxPayloadSize, at) == BlockLength(list, k, maxPayloadSize, sh)
    decreases |list| - k
  {
  }

  /** The root of a block in terms of the structure before the second pass. */
  lemma RepresentsSince(sh: Places, at: Places, root: ReadItem, block: seq<ReadItem>, after: Places)
    requires SameRanges(sh, at) && AllIn(block, sh) && Represents(root, block, at, after)
    ensures Represents(root, block, sh, after)
  {
  }

  lemma StillRepresents(sh: Places, roots: set<ReadItem>, at: Places, after: Places, result: seq<ReadItem>,
      blocks: seq<seq<ReadItem>>)
    requires |result| == |blocks| && roots == Members(result)
      && forall r | r in roots && r in at :: r in after && after[r] == at[r]
    requires forall j | 0 <= j < |result| :: Represents(result[j], blocks[j], sh, at)
    ensures forall j | 0 <= j < |result| :: Represents(result[j], blocks[j], sh, after)
  {
    forall j | 0 <= j < |result| ensures Represents(result[j], blocks[j], sh, after) {
      assert Represents(result[j], blocks[j], sh, at) && result[j] in roots;
    }
  }

  /** The roots found so far stand for the blocks found so far. */
  ghost predicate Divided(items: seq<ReadItem>, list: seq<ReadItem>, maxPayloadSize: int, blocks: seq<seq<ReadItem>>,
                          result: seq<ReadItem>, roots: set<ReadItem>, sh: Places, at: Places) {
    && AllIn(items, sh) && AllIn(list, sh)
    && Blocks(items, maxPayloadSize, sh) == blocks + Blocks(list, maxPayloadSize, sh)
    && |result| == |blocks| && roots == Members(result) && NoDuplicates(result)
    && (forall j | 0 <= j < |result| :: Represents(result[j], blocks[j], sh, at))
  }

  lemma DividedMore(items: seq<ReadItem>, list: seq<ReadItem>, maxPayloadSize: int, blocks: seq<seq<ReadItem>>,
                    result: seq<ReadItem>, roots: set<ReadItem>, sh: Places, at: Places, root: ReadItem, after: Places)
    requires Divided(items, list, maxPayloadSize, blocks, result, roots, sh, at) && SameRanges(sh, at) && list != []
    requires var b := BlockLength(list, 1, maxPayloadSize, at); Represents(root, list[..b], at, after)
    requires root !in roots && forall r | r in roots && r in at :: r in after && after[r] == at[r]
    ensures var b := BlockLength(list, 1, maxPayloadSize, at);
            Divided(items, list[b..], maxPayloadSize, blocks + [list[..b]], result + [root], roots + {root}, sh, after)
  {
    SameBlockLength(list, 1, maxPayloadSize, sh, at);
    var b := BlockLength(list, 1, maxPayloadSize, at);
    StillRepresents(sh, roots, at, after, result, blocks);
    RepresentsSince(sh, at, root, list[..b], after);
    assert blocks + ([list[..b]] + Blocks(list[b..], maxPayloadSize, sh)) == blocks + [list[..b]] + Blocks(list[b..],
        maxPayloadSize, sh);
  }

  /** The state of the second pass between two rounds. */
  ghost predicate SecondPass(items: seq<ReadItem>, list: seq<ReadItem>, maxPayloadSize: int, todo: set<ReadItem>,
                             blocks: seq<seq<ReadItem>>, result: seq<ReadItem>, roots: set<ReadItem>, sh: Places,
                                 at: Places) {
    && Partway(sh, Members(items), todo, roots, at)
    && ListTask(list, todo, sh)
    && Divided(items, list, maxPayloadSize, blocks, result, roots, sh, at)
  }

  lemma SecondPassStarts(items: seq<ReadItem>, maxPayloadSize: int, sh: Places)
    requires WellFormed(sh) && Roots(items, sh) && SameArea(items) && Antichain(items, sh)
    ensures SecondPass(items, items, maxPayloadSize, Members(items), [], [], {}, sh, sh)
  {
  }

  lemma SecondPassGoesOn(items: seq<ReadItem>, list: seq<ReadItem>, maxPayloadSize: int, todo: set<ReadItem>,
                         blocks: seq<seq<ReadItem>>, result: seq<ReadItem>, roots: set<ReadItem>, sh: Places,
                             at: Places, b: nat, root: ReadItem, after: Places)
    requires SecondPass(items, list, maxPayloadSize, todo, blocks, result, roots, sh, at)
    requires AllIn(list, at) && list != [] && b == BlockLength(list, 1, maxPayloadSize, at) && WellFormed(after)
    requires Represents(root, list[..b], at, after) && OnlyBlockMoves(at, Members(list[..b]), root, after)
    ensures SecondPass(items, list[b..], maxPayloadSize, todo - Members(list[..b]), blocks + [list[..b]],
                       result + [root], roots + {root}, sh, after)
  {
    RestTask(list, todo, b, sh);
    NextBlock(sh, Members(items), todo, roots, at, Members(list[..b]), root, after);
    DividedMore(items, list, maxPayloadSize, blocks, result, roots, sh, at, root, after);
  }

  /**
   * Divides the items into blocks of near neighbours that fit into one response, and
   * replaces each block of several items by a new item that includes them.
   */
  method JoinNeighbours(items: seq<ReadItem>, maxPayloadSize: int, ghost sh: Places)
      returns (result: seq<ReadItem>, ghost roots: set<ReadItem>, ghost after: Places)
    requires Current(sh) && WellFormed(sh) && Roots(items, sh) && SameArea(items) && Antichain(items, sh)
    modifies sh.Keys
    ensures Current(after) && Partway(sh, Members(items), {}, roots, after)
    ensures Divided(items, [], maxPayloadSize, Blocks(items, maxPayloadSize, sh), result, roots, sh, after)
    ensures forall n | n in after && n !in sh :: fresh(n) && fresh(n.result) && fresh(after[n].buffer) && Unread(n)
  {
    SecondPassStarts(items, maxPayloadSize, sh);
    result, roots, after := [], {}, sh;
    var list := items;
    ghost var todo, blocks := Members(items), [];
    while list != []
      invariant Current(after)
      invariant SecondPass(items, list, maxPayloadSize, todo, blocks, result, roots, sh, after)
      invariant forall n | n in after && n !in sh :: fresh(n) && fresh(n.result) && fresh(after[n].buffer) && Unread(n)
      decreases |list|
    {
      TaskRoots(sh, Members(items), todo, roots, after, list);
      ghost var at, was, b := after, list, BlockLength(list, 1, maxPayloadSize, after);
      var root;
      list, root, after := JoinOneBlock(list, maxPayloadSize, at);
      SecondPassGoesOn(items, was, maxPayloadSize, todo, blocks, result, roots, sh, at, b, root, after);
      result, roots, blocks, todo := result + [root], roots + {root}, blocks + [was[..b]], todo - Members(was[..b]);
    }
    assert blocks + [] == blocks;
  }

  // ---------- both passes ----------

  lemma {:induction false} SameBlocks(list: seq<ReadItem>, maxPayloadSize: int, sh: Places, at: Places)
    requires AllIn(list, sh) && SameRanges(sh, at)
    ensures Blocks(list, maxPayloadSize, at) == Blocks(list, maxPayloadSize, sh)
    decreases |list|
  {
    if list != [] {
      SameBlockLength(list, 1, maxPayloadSize, sh, at);
      SameBlocks(list[BlockLength(list, 1, maxPayloadSize, sh)..], maxPayloadSize, sh, at);
    }
  }

  /**
   * What the optimizer makes of the items of one area: `kept` are the items that no
   * other one includes, and `result` holds one root for each of their blocks.
   */
  ghost predicate Optimized(sh: Places, items: seq<ReadItem>, maxPayloadSize: int, kept: seq<ReadItem>,
                            result: seq<ReadItem>, after: Places) {
    && WellFormed(after) && SameRanges(sh, after)
    && AllIn(kept, sh) && (forall k | k in kept :: k in items) && Antichain(kept, sh)
    && Divided(kept, [], maxPayloadSize, Blocks(kept, maxPayloadSize, sh), result, Members(result), sh, after)
    && RootsAre(sh, items, result, after)
  }

  /** Among the items and what is new, exactly the result items are roots; all other items stay in their places. */
  ghost predicate RootsAre(sh: Places, items: seq<ReadItem>, result: seq<ReadItem>, after: Places) {
    && sh.Keys <= after.Keys
    && (forall r | r in result :: r in after && (r in items || r !in sh))
    && (forall n | n in after && (n in items || n !in sh) :: after[n].parent == null <==> n in result)
    && (forall n | n in after && n !in sh :: n in result)
    && (forall n | n in sh && n !in items :: after[n].parent == sh[n].parent)
  }

  lemma BothPasses(sh: Places, items: seq<ReadItem>, sorted: seq<ReadItem>, maxPayloadSize: int, kept: seq<ReadItem>,
      at: Places, result: seq<ReadItem>, roots: set<ReadItem>, after: Places)
    requires (forall n | n in items :: n in sorted) && (forall n | n in sorted :: n in items)
    requires Absorbing(sh, sorted, kept, at) && Antichain(kept, sh)
    requires Partway(at, Members(kept), {}, roots, after)
    requires Divided(kept, [], maxPayloadSize, Blocks(kept, maxPayloadSize, at), result, roots, at, after)
    ensures Optimized(sh, items, maxPayloadSize, kept, result, after)
  {
    SameBlocks(kept, maxPayloadSize, sh, at);
    var blocks := Blocks(kept, maxPayloadSize, sh);
    BlocksWithin(kept, maxPayloadSize, sh);
    forall j | 0 <= j < |result| ensures Represents(result[j], blocks[j], sh, after) {
      RepresentsSince(sh, at, result[j], blocks[j], after);
    }
    assert forall r | r in result :: r in roots;
  }

  /** Every member of a block is one of the items. */
  lemma {:induction false} BlocksWithin(list: seq<ReadItem>, maxPayloadSize: int, sh: Places)
    requires AllIn(list, sh)
    ensures forall block | block in Blocks(list, maxPayloadSize, sh) :: forall n | n in block :: n in list && n in sh
    decreases |list|
  {
    if list != [] {
      var b := BlockLength(list, 1, maxPayloadSize, sh);
      BlocksWithin(list[b..], maxPayloadSize, sh);
      assert forall n | n in list[b..] :: n in list;
    }
  }

  /** Optimizes the requests within one memory area. */
  method OptimizeWithinArea(items: seq<ReadItem>, maxPayloadSize: int, ghost sh: Places)
      returns (result: seq<ReadItem>, ghost kept: seq<ReadItem>, ghost after: Places)
    requires Current(sh) && WellFormed(sh) && Roots(items, sh) && SameArea(items)
    modifies sh.Keys
    ensures Current(after) && Optimized(sh, items, maxPayloadSize, kept, result, after)
    ensures forall n | n in after && n !in sh :: fresh(n) && fresh(n.result) && fresh(after[n].buffer) && Unread(n)
  {
    var sorted := SortByStartByte(items, sh);
    var keptItems;
    ghost var at, roots;
    keptItems, at := KeepUnincluded(sorted, sh);
    result, roots, after := JoinNeighbours(keptItems, maxPayloadSize, at);
    kept := keptItems;
    BothPasses(sh, items, sorted, maxPayloadSize, kept, at, result, roots, after);
  }
}

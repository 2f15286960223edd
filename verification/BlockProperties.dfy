/** What the division into blocks means for the telegrams: every block fits, is maximal and saves bytes. */
module BlockProperties {
  import opened PlcTypes
  import opened ReadItems
  import opened ReadOptimizer

  ghost function TotalWireBytes(items: seq<ReadItem>, sh: Places): int
    requires AllIn(items, sh)
  {
    if items == [] then 0
    else TotalWireBytes(items[..|items| - 1], sh) + WireBytes(sh[items[|items| - 1]].readBytes)
  }

  ghost function Concat(blocks: seq<seq<ReadItem>>): seq<ReadItem> {
    if blocks == [] then [] else blocks[0] + Concat(blocks[1..])
  }

  /** The blocks are the list again, cut into non-empty pieces. */
  lemma {:induction false} BlocksCover(list: seq<ReadItem>, maxPayloadSize: int, sh: Places)
    requires AllIn(list, sh)
    ensures Concat(Blocks(list, maxPayloadSize, sh)) == list
    ensures forall block | block in Blocks(list, maxPayloadSize, sh) :: block != []
    decreases |list|
  {
    if list != [] {
      var b := BlockLength(list, 1, maxPayloadSize, sh);
      BlocksCover(list[b..], maxPayloadSize, sh);
      assert list == list[..b] + list[b..];
    }
  }

  /** Neighbours in a block are at most four bytes apart, and a block of several items fits into one response. */
  ghost predicate Chained(block: seq<ReadItem>, maxPayloadSize: int, sh: Places)
    requires AllIn(block, sh)
  {
    forall k | 0 < k < |block| :: Joins(block, k, maxPayloadSize, sh)
  }

  lemma {:induction false} BlockJoins(list: seq<ReadItem>, k: nat, maxPayloadSize: int, sh: Places)
    requires AllIn(list, sh) && 0 < k <= |list| && forall j: nat | 0 < j < k :: Joins(list, j, maxPayloadSize, sh)
    ensures var b := BlockLength(list, k, maxPayloadSize, sh);
            (forall j: nat | 0 < j < b :: Joins(list, j, maxPayloadSize, sh))
                && (b < |list| ==> !Joins(list, b, maxPayloadSize, sh))
    decreases |list| - k
  {
    if k < |list| && Joins(list, k, maxPayloadSize, sh) {
      BlockJoins(list, k + 1, maxPayloadSize, sh);
    }
  }

  /** The first item of the next block does not join this block: it is too far away or the block would grow too long. */
  ghost predicate Maximal(block: seq<ReadItem>, next: ReadItem, maxPayloadSize: int, sh: Places)
    requires AllIn(block, sh) && next in sh && block != []
  {
    || sh[next].End() - sh[block[0]].startByte + 4 > maxPayloadSize
    || sh[next].startByte > sh[block[|block| - 1]].End() + 4
  }

  /** The first block is chained and maximal. */
  lemma FirstBlock(list: seq<ReadItem>, maxPayloadSize: int, sh: Places)
    requires AllIn(list, sh) && list != []
    ensures var b := BlockLength(list, 1, maxPayloadSize, sh);
            && Chained(list[..b], maxPayloadSize, sh)
            && (b < |list| ==> Maximal(list[..b], list[b], maxPayloadSize, sh))
  {
    BlockJoins(list, 1, maxPayloadSize, sh);
    var b := BlockLength(list, 1, maxPayloadSize, sh);
    var block := list[..b];
    forall j | 0 < j < |block| ensures Joins(block, j, maxPayloadSize, sh) {
      assert Joins(list, j, maxPayloadSize, sh);
    }
  }

  ghost predicate GoodBlock(block: seq<ReadItem>, maxPayloadSize: int, sh: Places) {
    block != [] && AllIn(block, sh) && Chained(block, maxPayloadSize, sh)
  }

  /** Every block is chained, and none could have taken the item that follows it. */
  ghost predicate GoodBlocks(blocks: seq<seq<ReadItem>>, maxPayloadSize: int, sh: Places) {
    && (forall j | 0 <= j < |blocks| :: GoodBlock(blocks[j], maxPayloadSize, sh))
    && (forall i, j | 0 <= i && i + 1 == j < |blocks| :: Maximal(blocks[i], blocks[j][0], maxPayloadSize, sh))
  }

  lemma {:induction false} BlocksChainedAndMaximal(list: seq<ReadItem>, maxPayloadSize: int, sh: Places)
    requires AllIn(list, sh)
    ensures GoodBlocks(Blocks(list, maxPayloadSize, sh), maxPayloadSize, sh)
    decreases |list|
  {
    if list != [] {
      var b := BlockLength(list, 1, maxPayloadSize, sh);
      FirstBlock(list, maxPayloadSize, sh);
      BlocksChainedAndMaximal(list[b..], maxPayloadSize, sh);
      var later := Blocks(list[b..], maxPayloadSize, sh);
      assert later != [] ==> later[0][0] == list[b];
      OneMoreGoodBlock(list[..b], later, maxPayloadSize, sh);
    }
  }

  lemma OneMoreGoodBlock(block: seq<ReadItem>, later: seq<seq<ReadItem>>, maxPayloadSize: int, sh: Places)
    requires GoodBlock(block, maxPayloadSize, sh) && GoodBlocks(later, maxPayloadSize, sh)
    requires later != [] ==> Maximal(block, later[0][0], maxPayloadSize, sh)
    ensures GoodBlocks([block] + later, maxPayloadSize, sh)
  {
    var blocks := [block] + later;
    forall j | 0 <= j < |blocks| ensures GoodBlock(blocks[j], maxPayloadSize, sh) {
      assert j == 0 || blocks[j] == later[j - 1];
    }
    forall i, j | 0 <= i && i + 1 == j < |blocks| ensures Maximal(blocks[i], blocks[j][0], maxPayloadSize, sh) {
      assert blocks[j] == later[j - 1] && (i == 0 || blocks[i] == later[i - 1]);
    }
  }

  /**
   * One block lies before another one: it starts and ends earlier, and the first item of the later
   * one is too far away from it, or would make it too long.
   */
  ghost predicate BlockBefore(a: seq<ReadItem>, b: seq<ReadItem>, maxPayloadSize: int, sh: Places) {
    && a != [] && b != [] && AllIn(a, sh) && AllIn(b, sh)
    && sh[a[0]].startByte < sh[b[0]].startByte && sh[a[|a| - 1]].End() < sh[b[|b| - 1]].End()
    && Maximal(a, b[0], maxPayloadSize, sh)
  }

  /** Of two blocks, the earlier one lies before the later one, even if there are others between them. */
  lemma {:induction false} BlocksInOrder(list: seq<ReadItem>, maxPayloadSize: int, sh: Places, i: nat, j: nat)
    requires AllIn(list, sh) && Antichain(list, sh) && i < j < |Blocks(list, maxPayloadSize, sh)|
    ensures BlockBefore(Blocks(list, maxPayloadSize, sh)[i], Blocks(list, maxPayloadSize, sh)[j], maxPayloadSize, sh)
    decreases |list|
  {
    var b := BlockLength(list, 1, maxPayloadSize, sh);
    assert Blocks(list, maxPayloadSize, sh) == [list[..b]] + Blocks(list[b..], maxPayloadSize, sh);
    if i > 0 {
      RestInOrder(list, b, sh);
      BlocksInOrder(list[b..], maxPayloadSize, sh, i - 1, j - 1);
    } else {
      FirstBefore(list, b, maxPayloadSize, sh, j - 1);
    }
  }

  lemma RestInOrder(list: seq<ReadItem>, b: nat, sh: Places)
    requires AllIn(list, sh) && Antichain(list, sh) && b <= |list|
    ensures Antichain(list[b..], sh)
  {
    forall k, m | 0 <= k < m < |list[b..]| ensures Precedes(list[b..][k], list[b..][m], sh) {
      assert Precedes(list[b + k], list[b + m], sh);
    }
  }

  lemma FirstBefore(list: seq<ReadItem>, b: nat, maxPayloadSize: int, sh: Places, j: nat)
    requires AllIn(list, sh) && Antichain(list, sh) && list != [] && b == BlockLength(list, 1, maxPayloadSize, sh)
    requires j < |Blocks(list[b..], maxPayloadSize, sh)|
    ensures BlockBefore(list[..b], Blocks(list[b..], maxPayloadSize, sh)[j], maxPayloadSize, sh)
  {
    var block := Blocks(list[b..], maxPayloadSize, sh)[j];
    BlocksWithin(list[b..], maxPayloadSize, sh);
    BlocksCover(list[b..], maxPayloadSize, sh);
    FirstBlock(list, maxPayloadSize, sh);
    assert block in Blocks(list[b..], maxPayloadSize, sh) && block[0] in block && block[|block| - 1] in block;
    LaterItem(list, b, block[0], maxPayloadSize, sh);
    LaterItem(list, b, block[|block| - 1], maxPayloadSize, sh);
  }

  /** The items of a block are in order as well. */
  lemma {:induction false} BlockInOrder(list: seq<ReadItem>, maxPayloadSize: int, sh: Places, j: nat)
    requires AllIn(list, sh) && Antichain(list, sh) && j < |Blocks(list, maxPayloadSize, sh)|
    ensures AllIn(Blocks(list, maxPayloadSize, sh)[j], sh) && Antichain(Blocks(list, maxPayloadSize, sh)[j], sh)
    decreases |list|
  {
    var b := BlockLength(list, 1, maxPayloadSize, sh);
    if j > 0 {
      RestInOrder(list, b, sh);
      BlockInOrder(list[b..], maxPayloadSize, sh, j - 1);
    }
  }

  /** An item behind the first block starts and ends later, and does not join it. */
  lemma LaterItem(list: seq<ReadItem>, b: nat, n: ReadItem, maxPayloadSize: int, sh: Places)
    requires AllIn(list, sh) && Antichain(list, sh) && 0 < b < |list| && n in list[b..]
    requires Maximal(list[..b], list[b], maxPayloadSize, sh)
    ensures sh[list[0]].startByte < sh[n].startByte && sh[list[b - 1]].End() < sh[n].End()
    ensures Maximal(list[..b], n, maxPayloadSize, sh)
  {
    var k :| 0 <= k < |list[b..]| && list[b..][k] == n;
    assert Precedes(list[0], list[b + k], sh) && Precedes(list[b - 1], list[b + k], sh);
    assert k == 0 || Precedes(list[b], list[b + k], sh);
  }

  /** One item in place of a block never costs more bytes in the response than its members would. */
  lemma {:induction false} JoiningSaves(block: seq<ReadItem>, maxPayloadSize: int, sh: Places)
    requires AllIn(block, sh) && block != [] && Chained(block, maxPayloadSize, sh)
    ensures WireBytes(sh[block[|block| - 1]].End() - sh[block[0]].startByte) <= TotalWireBytes(block, sh)
    decreases |block|
  {
    var front := block[..|block| - 1];
    if front != [] {
      forall k | 0 < k < |front| ensures Joins(front, k, maxPayloadSize, sh) {
        assert Joins(block, k, maxPayloadSize, sh);
      }
      JoiningSaves(front, maxPayloadSize, sh);
      assert Joins(block, |block| - 1, maxPayloadSize, sh);
    }
  }

  lemma {:induction false} TotalStays(items: seq<ReadItem>, sh: Places, after: Places)
    requires AllIn(items, sh) && SameRanges(sh, after)
    ensures AllIn(items, after) && TotalWireBytes(items, after) == TotalWireBytes(items, sh)
    decreases |items|
  {
    if items != [] {
      TotalStays(items[..|items| - 1], sh, after);
    }
  }

  lemma {:induction false} TotalOfConcat(a: seq<ReadItem>, b: seq<ReadItem>, sh: Places)
    requires AllIn(a, sh) && AllIn(b, sh)
    ensures AllIn(a + b, sh) && TotalWireBytes(a + b, sh) == TotalWireBytes(a, sh) + TotalWireBytes(b, sh)
    decreases |b|
  {
    if b == [] {
      assert a + b == a;
    } else {
      var front := b[..|b| - 1];
      TotalOfConcat(a, front, sh);
      assert (a + b)[..|a + b| - 1] == a + front;
    }
  }

  /** The roots for the blocks together cost at most what the items would. */
  lemma {:induction false} RootsSave(list: seq<ReadItem>, blocks: seq<seq<ReadItem>>, maxPayloadSize: int, sh: Places,
                                     result: seq<ReadItem>, after: Places)
    requires AllIn(list, sh) && SameRanges(sh, after) && blocks == Blocks(list, maxPayloadSize, sh)
        && |result| == |blocks|
    requires forall j | 0 <= j < |result| :: Represents(result[j], blocks[j], sh, after)
    ensures AllIn(result, after) && TotalWireBytes(result, after) <= TotalWireBytes(list, sh)
    decreases |list|
  {
    if list != [] {
      var b := BlockLength(list, 1, maxPayloadSize, sh);
      var first, later := result[0], result[1..];
      assert blocks == [list[..b]] + Blocks(list[b..], maxPayloadSize, sh);
      assert blocks[0] == list[..b] && blocks[1..] == Blocks(list[b..], maxPayloadSize, sh);
      forall j | 0 <= j < |later| ensures Represents(later[j], blocks[1..][j], sh, after) {
        assert Represents(result[j + 1], blocks[j + 1], sh, after);
      }
      RootsSave(list[b..], blocks[1..], maxPayloadSize, sh, later, after);
      RootSaves(list, maxPayloadSize, sh, first, after);
      TotalOfConcat(list[..b], list[b..], sh);
      TotalOfConcat([first], later, after);
      assert list == list[..b] + list[b..] && result == [first] + later;
    }
  }

  lemma RootSaves(list: seq<ReadItem>, maxPayloadSize: int, sh: Places, root: ReadItem, after: Places)
    requires AllIn(list, sh) && SameRanges(sh, after) && list != []
    requires Represents(root, list[..BlockLength(list, 1, maxPayloadSize, sh)], sh, after)
    ensures var b := BlockLength(list, 1, maxPayloadSize, sh);
            TotalWireBytes([root], after) <= TotalWireBytes(list[..b], sh)
  {
    var b := BlockLength(list, 1, maxPayloadSize, sh);
    FirstBlock(list, maxPayloadSize, sh);
    JoiningSaves(list[..b], maxPayloadSize, sh);
    assert TotalWireBytes([root], after) == WireBytes(after[root].readBytes);
  }

  /** Some of the items cost at most what all of them cost. */
  lemma {:induction false} KeepingSaves(kept: seq<ReadItem>, items: seq<ReadItem>, sh: Places)
    requires AllIn(items, sh) && NoDuplicates(kept) && (forall k | k in kept :: k in items)
    requires forall n | n in items :: 0 <= sh[n].readBytes
    ensures AllIn(kept, sh) && TotalWireBytes(kept, sh) <= TotalWireBytes(items, sh)
    decreases |kept|
  {
    if kept == [] {
      TotalNotNegative(items, sh);
    } else {
      var last := kept[|kept| - 1];
      assert last in kept;
      var i :| 0 <= i < |items| && items[i] == last;
      var front, rest := kept[..|kept| - 1], items[..i] + items[i + 1..];
      forall k | k in front ensures k in rest {
        assert k in items && k != last;
        var j :| 0 <= j < |items| && items[j] == k;
        assert rest[if j < i then j else j - 1] == k;
      }
      KeepingSaves(front, rest, sh);
      TotalOfConcat(items[..i], items[i + 1..], sh);
      TotalOfConcat(items[..i], [last], sh);
      TotalOfConcat(items[..i] + [last], items[i + 1..], sh);
      assert items == items[..i] + [last] + items[i + 1..];
      assert TotalWireBytes([last], sh) == WireBytes(sh[last].readBytes);
    }
  }

  lemma {:induction false} TotalNotNegative(items: seq<ReadItem>, sh: Places)
    requires AllIn(items, sh) && forall n | n in items :: 0 <= sh[n].readBytes
    ensures 0 <= TotalWireBytes(items, sh)
    decreases |items|
  {
    if items != [] {
      TotalNotNegative(items[..|items| - 1], sh);
    }
  }

  /** Optimizing an area never costs bytes in the responses. */
  lemma OptimizingSaves(sh: Places, items: seq<ReadItem>, maxPayloadSize: int, kept: seq<ReadItem>,
      result: seq<ReadItem>, after: Places)
    requires WellFormed(sh) && AllIn(items, sh) && Optimized(sh, items, maxPayloadSize, kept, result, after)
    ensures AllIn(result, after) && TotalWireBytes(result, after) <= TotalWireBytes(items, sh)
  {
    forall i, j | 0 <= i < j < |kept| ensures kept[i] != kept[j] {
      assert Precedes(kept[i], kept[j], sh);
    }
    forall n | n in items ensures 0 <= sh[n].readBytes {
      assert NodeOk(n, sh);
    }
    KeepingSaves(kept, items, sh);
    RootsSave(kept, Blocks(kept, maxPayloadSize, sh), maxPayloadSize, sh, result, after);
  }

  /** A root that is not a request itself fits into one response together with its header. */
  lemma NewRootsFit(sh: Places, items: seq<ReadItem>, maxPayloadSize: int, kept: seq<ReadItem>, result: seq<ReadItem>,
      after: Places)
    requires Optimized(sh, items, maxPayloadSize, kept, result, after)
    ensures forall r | r in result && r !in sh :: r in after && after[r].readBytes + 4 <= maxPayloadSize
  {
    BlocksChainedAndMaximal(kept, maxPayloadSize, sh);
    var blocks := Blocks(kept, maxPayloadSize, sh);
    forall j | 0 <= j < |result| && result[j] !in sh ensures result[j] in after
        && after[result[j]].readBytes + 4 <= maxPayloadSize {
      assert Represents(result[j], blocks[j], sh, after);
      NewRootFits(blocks[j], maxPayloadSize, sh, result[j], after);
    }
  }

  lemma NewRootFits(block: seq<ReadItem>, maxPayloadSize: int, sh: Places, root: ReadItem, after: Places)
    requires GoodBlock(block, maxPayloadSize, sh) && Represents(root, block, sh, after) && root !in sh
    ensures after[root].readBytes + 4 <= maxPayloadSize
  {
    assert Joins(block, |block| - 1, maxPayloadSize, sh);
  }
}

/** From the chain of requests to the optimized list of read items. */
module OptimizedList {
  import opened PlcTypes
  import opened ReadItems
  import opened ReadOptimizer
  import BlockProperties

  /** Every request is linked to the next one. */
  ghost predicate Linked(chain: seq<AsynReadItem>)
    reads chain
  {
    forall k {:trigger chain[k].next} | 0 <= k < |chain| :: chain[k].next == if k + 1 < |chain| then chain[k + 1]
        else null
  }

  /** The linked requests, as a sequence. */
  ghost predicate Chain(firstItem: AsynReadItem?, chain: seq<AsynReadItem>)
    reads chain
  {
    firstItem == (if chain == [] then null else chain[0]) && Linked(chain)
  }

  /** Every request has a buffer and a result of its own. */
  ghost predicate OwnBuffers(chain: seq<AsynReadItem>) {
    && (forall k | 0 <= k < |chain| :: 0 <= chain[k].readBytes == chain[k].buffer.Length)
    && (forall i, j {:trigger chain[i].buffer, chain[j].buffer} | 0 <= i < j < |chain| ::
        chain[i].buffer != chain[j].buffer)
    && (forall i, j {:trigger chain[i].result, chain[j].result} | 0 <= i < j < |chain| ::
        chain[i].result != chain[j].result)
  }

  /** The items of one memory area. */
  datatype Bucket = Bucket(area: Area, areaNumber: int, items: seq<ReadItem>)

  function Ordinal(area: Area): nat {
    match area
    case Db => 0
    case Flags => 1
    case Inputs => 2
    case Outputs => 3
    case Timer => 4
    case Counter => 5
  }

  /** The order of the keys by which the items are grouped. */
  predicate Earlier(area: Area, areaNumber: int, otherArea: Area, otherNumber: int) {
    Ordinal(area) < Ordinal(otherArea) || (area == otherArea && areaNumber < otherNumber)
  }

  predicate KeyLess(b: Bucket, area: Area, areaNumber: int) {
    Earlier(b.area, b.areaNumber, area, areaNumber)
  }

  ghost predicate SortedByKey(buckets: seq<Bucket>) {
    forall i, j | 0 <= i < j < |buckets| :: KeyLess(buckets[i], buckets[j].area, buckets[j].areaNumber)
  }

  ghost predicate BucketOk(bucket: Bucket, sh: Places) {
    && NoDuplicates(bucket.items)
    && (forall n | n in bucket.items :: n in sh && n.area == bucket.area && n.areaNumber == bucket.areaNumber)
  }

  /** The buckets have increasing keys and hold different items of their areas. */
  ghost predicate BucketsOk(buckets: seq<Bucket>, sh: Places) {
    SortedByKey(buckets) && forall i | 0 <= i < |buckets| :: BucketOk(buckets[i], sh)
  }

  ghost function ItemsOf(buckets: seq<Bucket>): set<ReadItem> {
    set b, n | b in buckets && n in b.items :: n
  }

  /** Those of the items that belong to the area and number, in their order. */
  ghost function WithKey(items: seq<ReadItem>, area: Area, areaNumber: int): (group: seq<ReadItem>)
    ensures forall n | n in group :: n in items && n.area == area && n.areaNumber == areaNumber
  {
    if items == [] then [] else
      var group, last := WithKey(items[..|items| - 1], area, areaNumber), items[|items| - 1];
      if last.area == area && last.areaNumber == areaNumber then group + [last] else group
  }

  /** Every bucket holds what belongs to it, in the order of the requests. */
  ghost predicate Grouped(buckets: seq<Bucket>, items: seq<ReadItem>) {
    ItemsOf(buckets) == Members(items) && forall i | 0 <= i < |buckets| :: GroupOf(buckets[i], items)
  }

  ghost predicate GroupOf(bucket: Bucket, items: seq<ReadItem>) {
    bucket.items == WithKey(items, bucket.area, bucket.areaNumber)
  }

  /** The wrappers of the first k requests are all the items there are, each a root without included items. */
  ghost predicate Wrapped(chain: seq<AsynReadItem>, k: int, wrappers: seq<ReadItem>, sh: Places) {
    && 0 <= k <= |chain| && |wrappers| == k && NoDuplicates(wrappers) && sh.Keys == Members(wrappers)
    && (forall j | 0 <= j < k :: wrappers[j].request == chain[j] && !wrappers[j].usingInternalBuffer)
    && (forall n | n in sh :: sh[n].parent == null && sh[n].kids == [])
    && WellFormed(sh)
  }

  /** Puts an item into the bucket of its area, which is created if there is none yet. */
  method AddToBucket(buckets: seq<Bucket>, item: ReadItem, ghost items: seq<ReadItem>, ghost sh: Places)
      returns (more: seq<Bucket>)
    requires BucketsOk(buckets, sh) && item in sh && item !in ItemsOf(buckets) && Whole(Grouped(buckets, items))
    ensures BucketsOk(more, sh) && ItemsOf(more) == ItemsOf(buckets) + {item} && Whole(Grouped(more, items + [item]))
  {
    var i := 0;
    while i < |buckets| && KeyLess(buckets[i], item.area, item.areaNumber)
      invariant 0 <= i <= |buckets|
      invariant forall j | 0 <= j < i :: KeyLess(buckets[j], item.area, item.areaNumber)
    {
      i := i + 1;
    }
    if i < |buckets| && buckets[i].area == item.area && buckets[i].areaNumber == item.areaNumber {
      more := buckets[i := buckets[i].(items := buckets[i].items + [item])];
      GrownBucket(buckets, i, item, sh);
      SameGroups(buckets, more, i, item, items, sh);
    } else {
      more := Inserted(buckets, i, Bucket(item.area, item.areaNumber, [item]));
      NewBucket(buckets, i, item, sh);
      MoreGroups(buckets, more, i, item, items, sh);
    }
  }

  /** One more item belongs to the group of its key and to no other one. */
  lemma WithKeyOfMore(items: seq<ReadItem>, item: ReadItem, area: Area, areaNumber: int)
    ensures WithKey(items + [item], area, areaNumber)
        == WithKey(items, area, areaNumber) + if item.area == area && item.areaNumber == areaNumber then [item] else []
  {
    assert (items + [item])[..|items|] == items;
  }

  lemma SameGroups(buckets: seq<Bucket>, more: seq<Bucket>, i: nat, item: ReadItem, items: seq<ReadItem>, sh: Places)
    requires BucketsOk(buckets, sh) && Grouped(buckets, items) && i < |buckets|
    requires buckets[i].area == item.area && buckets[i].areaNumber == item.areaNumber
    requires more == buckets[i := buckets[i].(items := buckets[i].items + [item])]
    requires ItemsOf(more) == ItemsOf(buckets) + {item}
    ensures Grouped(more, items + [item])
  {
    forall j | 0 <= j < |more| ensures GroupOf(more[j], items + [item]) {
      WithKeyOfMore(items, item, more[j].area, more[j].areaNumber);
      assert GroupOf(buckets[j], items);
      if j < i {
        assert KeyLess(buckets[j], buckets[i].area, buckets[i].areaNumber);
      } else if j > i {
        assert KeyLess(buckets[i], buckets[j].area, buckets[j].areaNumber);
      }
    }
  }

  /** Without a bucket for the key, no item belongs there. */
  lemma NoGroup(buckets: seq<Bucket>, area: Area, areaNumber: int, items: seq<ReadItem>, sh: Places)
    requires BucketsOk(buckets, sh) && ItemsOf(buckets) == Members(items)
    requires forall j | 0 <= j < |buckets| :: buckets[j].area != area || buckets[j].areaNumber != areaNumber
    ensures WithKey(items, area, areaNumber) == []
  {
    forall n | n in Members(items) ensures n.area != area || n.areaNumber != areaNumber {
      var b :| b in buckets && n in b.items;
      var j :| 0 <= j < |buckets| && buckets[j] == b;
      assert BucketOk(buckets[j], sh);
    }
    assert forall n | n in items :: n in Members(items);
    NoneWithKey(items, area, areaNumber);
  }

  lemma {:induction false} NoneWithKey(items: seq<ReadItem>, area: Area, areaNumber: int)
    requires forall n | n in items :: n.area != area || n.areaNumber != areaNumber
    ensures WithKey(items, area, areaNumber) == []
  {
    if items != [] {
      assert items[|items| - 1] in items;
      NoneWithKey(items[..|items| - 1], area, areaNumber);
    }
  }

  lemma MoreGroups(buckets: seq<Bucket>, more: seq<Bucket>, i: nat, item: ReadItem, items: seq<ReadItem>, sh: Places)
    requires BucketsOk(buckets, sh) && Grouped(buckets, items) && i <= |buckets|
    requires forall j | 0 <= j < |buckets| :: buckets[j].area != item.area || buckets[j].areaNumber != item.areaNumber
    requires more == Inserted(buckets, i, Bucket(item.area, item.areaNumber, [item]))
    requires ItemsOf(more) == ItemsOf(buckets) + {item}
    ensures Grouped(more, items + [item])
  {
    NoGroup(buckets, item.area, item.areaNumber, items, sh);
    forall j | 0 <= j < |more| ensures GroupOf(more[j], items + [item]) {
      WithKeyOfMore(items, item, more[j].area, more[j].areaNumber);
      if j != i {
        assert GroupOf(buckets[if j < i then j else j - 1], items);
      }
    }
  }

  lemma GrownBucket(buckets: seq<Bucket>, i: nat, item: ReadItem, sh: Places)
    requires BucketsOk(buckets, sh) && item in sh && item !in ItemsOf(buckets) && i < |buckets|
    requires buckets[i].area == item.area && buckets[i].areaNumber == item.areaNumber
    ensures var more := buckets[i := buckets[i].(items := buckets[i].items + [item])];
            BucketsOk(more, sh) && ItemsOf(more) == ItemsOf(buckets) + {item}
  {
    var grown := buckets[i].(items := buckets[i].items + [item]);
    var more := buckets[i := grown];
    assert buckets[i] in buckets && grown == more[i] && item in grown.items;
    assert item !in buckets[i].items && BucketOk(grown, sh);
    forall n | n in ItemsOf(buckets) ensures n in ItemsOf(more) {
      var j :| 0 <= j < |buckets| && n in buckets[j].items;
      assert more[j] in more && n in more[j].items;
    }
    forall n | n in ItemsOf(more) ensures n in ItemsOf(buckets) + {item} {
      var j :| 0 <= j < |more| && n in more[j].items;
      assert buckets[j] in buckets;
    }
  }

  lemma NewBucket(buckets: seq<Bucket>, i: nat, item: ReadItem, sh: Places)
    requires BucketsOk(buckets, sh) && item in sh && i <= |buckets|
    requires forall j | 0 <= j < i :: KeyLess(buckets[j], item.area, item.areaNumber)
    requires i < |buckets| ==> !KeyLess(buckets[i], item.area, item.areaNumber)
                               && !(buckets[i].area == item.area && buckets[i].areaNumber == item.areaNumber)
    ensures var more := Inserted(buckets, i, Bucket(item.area, item.areaNumber, [item]));
            BucketsOk(more, sh) && ItemsOf(more) == ItemsOf(buckets) + {item}
  {
    var single := Bucket(item.area, item.areaNumber, [item]);
    var more := Inserted(buckets, i, single);
    assert more[i] == single && item in single.items;
    assert BucketOk(single, sh);
    if i < |buckets| {
      assert KeyLess(single, buckets[i].area, buckets[i].areaNumber);
    }
  }

  /** Wraps every request and sorts the wrappers into the buckets of their areas. */
  method WrapRequests(firstItem: AsynReadItem?, ghost chain: seq<AsynReadItem>)
      returns (buckets: seq<Bucket>, ghost wrappers: seq<ReadItem>, ghost sh: Places)
    requires Chain(firstItem, chain) && OwnBuffers(chain)
    ensures Current(sh) && Whole(Wrapped(chain, |chain|, wrappers, sh)) && fresh(sh.Keys)
    ensures Whole(BucketsOk(buckets, sh)) && ItemsOf(buckets) == sh.Keys && Whole(Grouped(buckets, wrappers))
  {
    buckets, wrappers, sh := [], [], map[];
    var item := firstItem;
    ghost var k := 0;
    while item != null
      invariant 0 <= k <= |chain| && item == (if k < |chain| then chain[k] else null)
      invariant Current(sh) && Whole(Wrapped(chain, k, wrappers, sh)) && fresh(sh.Keys)
      invariant Whole(BucketsOk(buckets, sh)) && ItemsOf(buckets) == sh.Keys && Whole(Grouped(buckets, wrappers))
      decreases |chain| - k
    {
      assert item == chain[k] && item.next == if k + 1 < |chain| then chain[k + 1] else null;
      var newItem := new ReadItem.Wrap(item);
      ghost var before := sh;
      sh := WithRoot(before, newItem, item.startByte, item.readBytes, item.buffer);
      buckets := SortIn(buckets, newItem, chain, k, wrappers, before, sh);
      wrappers := wrappers + [newItem];
      item, k := item.next, k + 1;
    }
  }

  /** Puts the wrapper of the next request into its bucket. */
  method SortIn(buckets: seq<Bucket>, newItem: ReadItem, ghost chain: seq<AsynReadItem>, ghost k: nat,
                ghost wrappers: seq<ReadItem>, ghost before: Places, ghost sh: Places) returns (more: seq<Bucket>)
    requires OwnBuffers(chain) && k < |chain| && newItem !in before && Whole(Wrapped(chain, k, wrappers, before))
    requires newItem.request == chain[k] && !newItem.usingInternalBuffer
    requires newItem.area == chain[k].area && newItem.areaNumber == chain[k].areaNumber
        && newItem.result == chain[k].result
    requires sh == WithRoot(before, newItem, chain[k].startByte, chain[k].readBytes, chain[k].buffer)
    requires Whole(BucketsOk(buckets, before)) && ItemsOf(buckets) == before.Keys && Whole(Grouped(buckets, wrappers))
    ensures Whole(Wrapped(chain, k + 1, wrappers + [newItem], sh))
    ensures Whole(BucketsOk(more, sh)) && ItemsOf(more) == sh.Keys && Whole(Grouped(more, wrappers + [newItem]))
  {
    WrapOne(chain, k, wrappers, before, newItem);
    BucketsStay(buckets, before, sh);
    more := AddToBucket(buckets, newItem, wrappers, sh);
  }

  lemma WrapOne(chain: seq<AsynReadItem>, k: nat, wrappers: seq<ReadItem>, sh: Places, newItem: ReadItem)
    requires OwnBuffers(chain) && Wrapped(chain, k, wrappers, sh) && k < |chain| && newItem !in sh
    requires newItem.request == chain[k] && !newItem.usingInternalBuffer
    requires newItem.area == chain[k].area && newItem.areaNumber == chain[k].areaNumber
        && newItem.result == chain[k].result
    ensures Wrapped(chain, k + 1, wrappers + [newItem],
                    WithRoot(sh, newItem, chain[k].startByte, chain[k].readBytes, chain[k].buffer))
  {
    forall n | n in sh ensures sh[n].buffer != chain[k].buffer && n.result != newItem.result {
      assert NodeOk(n, sh) && n in Members(wrappers);
      var j :| 0 <= j < k && wrappers[j] == n;
    }
    WithRootOk(sh, newItem, chain[k].startByte, chain[k].readBytes, chain[k].buffer);
  }

  lemma BucketsStay(buckets: seq<Bucket>, sh: Places, after: Places)
    requires BucketsOk(buckets, sh) && sh.Keys <= after.Keys
    ensures BucketsOk(buckets, after)
  {
    forall i | 0 <= i < |buckets| ensures BucketOk(buckets[i], after) {
      assert BucketOk(buckets[i], sh);
    }
  }

  /** The range of `r` starts with one of the members and ends with another one, in the same area. */
  ghost predicate Bounded(r: ReadItem, members: set<ReadItem>, at: Places) {
    r in at && exists a, b :: a in members && b in members && a != b && a in at && b in at && SameArea([r, a, b])
                              && at[a].startByte == at[r].startByte && at[b].End() == at[r].End()
  }

  /** The root `b` starts with the member `w`, which is too far away from the root `a`, or would make it too long. */
  ghost predicate NotJoined(a: ReadItem, b: ReadItem, w: ReadItem, maxPayloadSize: int, at: Places) {
    && a in at && b in at && w in at && (w == b || at[w].parent == b) && at[w].startByte == at[b].startByte
    && (at[w].startByte > at[a].End() + 4 || at[w].End() - at[a].startByte + 4 > maxPayloadSize)
  }

  /** Two roots of one area are apart: none includes the other, and they could not have been joined. */
  ghost predicate RootsApart(a: ReadItem, b: ReadItem, members: set<ReadItem>, maxPayloadSize: int, at: Places) {
    a in at && b in at && Precedes(a, b, at) && exists w :: w in members && NotJoined(a, b, w, maxPayloadSize, at)
  }

  /** The roots are in the order of their areas and ranges, and roots of one area are apart. */
  ghost predicate RootsInOrder(roots: seq<ReadItem>, members: set<ReadItem>, maxPayloadSize: int, at: Places) {
    forall i, j | 0 <= i < j < |roots| :: PairInOrder(roots[i], roots[j], members, maxPayloadSize, at)
  }

  ghost predicate PairInOrder(a: ReadItem, b: ReadItem, members: set<ReadItem>, maxPayloadSize: int, at: Places) {
    || Earlier(a.area, a.areaNumber, b.area, b.areaNumber)
    || (a.area == b.area && a.areaNumber == b.areaNumber
        && (ByteAddressed(a.area) ==> RootsApart(a, b, members, maxPayloadSize, at)))
  }

  /** Between the members that a root joins there are gaps of at most four bytes. */
  ghost predicate Gapless(root: ReadItem, members: set<ReadItem>, at: Places) {
    root in at && forall w | w in members && w in at && at[w].parent == root && at[w].startByte > at[root].startByte ::
        exists v :: v in members && Bridges(v, w, root, at)
  }

  /** `v` is joined by the same root as `w`, starts earlier and ends at most four bytes before it. */
  ghost predicate Bridges(v: ReadItem, w: ReadItem, root: ReadItem, at: Places)
    requires w in at
  {
    v in at && at[v].parent == root && at[v].startByte < at[w].startByte <= at[v].End() + 4
  }

  /** What the requests have become: the structure `after` with the roots `finalList`. */
  ghost predicate Planned(chain: seq<AsynReadItem>, wrappers: seq<ReadItem>, maxPayloadSize: int,
      finalList: seq<ReadItem>, after: Places) {
    && WellFormed(after) && NoDuplicates(finalList) && NoDuplicates(wrappers) && |wrappers| == |chain|
    // every request has exactly one wrapper, and what is no wrapper is an item of the driver
    && (forall j | 0 <= j < |chain| ::
          wrappers[j] in after && wrappers[j].request == chain[j] && !wrappers[j].usingInternalBuffer)
    && (forall n | n in after :: n in wrappers || n.usingInternalBuffer)
    // the list holds exactly the roots
    && (forall r | r in finalList :: r in after)
    && (forall n | n in after :: after[n].parent == null <==> n in finalList)
    // an item of the driver fits into one response, and no item of another area has been touched
    && AllIn(wrappers, after)
    && (forall r | r in finalList && r !in wrappers ::
          after[r].readBytes + 4 <= maxPayloadSize && Bounded(r, Members(wrappers), after))
    && (forall w | w in wrappers && !ByteAddressed(w.area) :: w in finalList)
    // what belongs together has been joined, and nothing else
    && Whole(RootsInOrder(finalList, Members(wrappers), maxPayloadSize, after))
    && (forall r | r in finalList && r !in wrappers :: Whole(Gapless(r, Members(wrappers), after)))
  }

  /** The buckets before `rest` have been dealt with; `done` are their items. */
  ghost predicate Planning(sh: Places, maxPayloadSize: int, rest: seq<Bucket>, done: seq<ReadItem>,
      finalList: seq<ReadItem>, at: Places) {
    && Partway(sh, sh.Keys, ItemsOf(rest), Members(finalList), at) && NoDuplicates(finalList)
    && AllIn(finalList, at) && AllIn(done, sh)
    && BucketsOk(rest, sh) && NoDuplicates(done) && sh.Keys == ItemsOf(rest) + Members(done)
    && (forall n | n in done :: n !in ItemsOf(rest) && (ByteAddressed(n.area) || n in finalList))
    && (forall r | r in finalList && r !in sh ::
          at[r].readBytes + 4 <= maxPayloadSize && r.usingInternalBuffer && Bounded(r, sh.Keys, at))
    && Whole(Arranged(sh, rest, finalList, maxPayloadSize, at))
    && BlockProperties.TotalWireBytes(finalList, at) <= BlockProperties.TotalWireBytes(done, sh)
  }

  /** The roots found so far are in order and without gaps, and come before everything that is left. */
  ghost predicate Arranged(sh: Places, rest: seq<Bucket>, finalList: seq<ReadItem>, maxPayloadSize: int, at: Places) {
    && RootsInOrder(finalList, sh.Keys, maxPayloadSize, at)
    && (forall r | r in finalList && r !in sh :: Gapless(r, sh.Keys, at))
    && (forall r, b | r in finalList && b in rest :: Earlier(r.area, r.areaNumber, b.area, b.areaNumber))
  }

  /** The items of a bucket are roots of one area. */
  ghost predicate BucketReady(bucket: Bucket, at: Places) {
    && WellFormed(at) && Roots(bucket.items, at) && SameArea(bucket.items)
    && (forall n | n in bucket.items :: n.area == bucket.area)
    && RootsAre(at, bucket.items, bucket.items, at)
  }

  /** The roots of a bucket are in order and without gaps. */
  ghost predicate AreaArranged(at: Places, bucket: Bucket, areaList: seq<ReadItem>, maxPayloadSize: int,
      after: Places) {
    && (ByteAddressed(bucket.area) ==>
          forall i, j | 0 <= i < j < |areaList| ::
            RootsApart(areaList[i], areaList[j], Members(bucket.items), maxPayloadSize, after))
    && (forall r | r in areaList && r !in at :: Gapless(r, Members(bucket.items), after))
  }

  /** What has become of the items of a bucket: some roots, optimized or as they were. */
  ghost predicate BucketDone(at: Places, bucket: Bucket, maxPayloadSize: int, areaList: seq<ReadItem>, after: Places) {
    && WellFormed(after) && SameRanges(at, after) && RootsAre(at, bucket.items, areaList, after)
        && NoDuplicates(areaList)
    && (ByteAddressed(bucket.area) || areaList == bucket.items) && AllIn(areaList, after) && AllIn(bucket.items, at)
    && (forall r | r in areaList && r !in at ::
          after[r].readBytes + 4 <= maxPayloadSize && r.usingInternalBuffer && Bounded(r, Members(bucket.items), after))
    && Whole(AreaArranged(at, bucket, areaList, maxPayloadSize, after))
    && BlockProperties.TotalWireBytes(areaList, after) <= BlockProperties.TotalWireBytes(bucket.items, at)
  }

  /** The next bucket: its items become some roots, optimized or as they are. */
  lemma NextBucket(sh: Places, maxPayloadSize: int, rest: seq<Bucket>, done: seq<ReadItem>, finalList: seq<ReadItem>,
      at: Places, areaList: seq<ReadItem>, after: Places)
    requires Planning(sh, maxPayloadSize, rest, done, finalList, at) && rest != []
    requires BucketDone(at, rest[0], maxPayloadSize, areaList, after)
    ensures Planning(sh, maxPayloadSize, rest[1..], done + rest[0].items, finalList + areaList, after)
  {
    FirstBucket(rest, sh);
    NextRoots(sh, ItemsOf(rest), Members(finalList), at, rest[0].items, areaList, after);
    NextLists(sh, rest, done, finalList, at, areaList, after);
    NextTotal(sh, done, rest[0].items, finalList, areaList, at, after);
    NextArranged(sh, maxPayloadSize, rest, finalList, at, areaList, after);
    forall r | r in finalList + areaList && r !in sh
      ensures after[r].readBytes + 4 <= maxPayloadSize && r.usingInternalBuffer && Bounded(r, sh.Keys, after)
    {
      if r in at {
        StaysBounded(r, sh.Keys, sh.Keys, at, after);
      } else {
        StaysBounded(r, Members(rest[0].items), sh.Keys, after, after);
      }
    }
  }

  /** The roots of the next bucket come behind those found so far. */
  lemma NextArranged(sh: Places, maxPayloadSize: int, rest: seq<Bucket>, finalList: seq<ReadItem>, at: Places,
                     areaList: seq<ReadItem>, after: Places)
    requires rest != [] && BucketsOk(rest, sh) && Members(rest[0].items) <= sh.Keys && NodesOk(after)
    requires Partway(sh, sh.Keys, ItemsOf(rest), Members(finalList), at) && Members(rest[0].items) <= ItemsOf(rest)
    requires Whole(Arranged(sh, rest, finalList, maxPayloadSize, at))
    requires Whole(AreaArranged(at, rest[0], areaList, maxPayloadSize, after))
    requires SameRanges(at, after) && RootsAre(at, rest[0].items, areaList, after)
    requires forall r | r in areaList && r !in at :: Bounded(r, Members(rest[0].items), after)
    ensures Whole(Arranged(sh, rest[1..], finalList + areaList, maxPayloadSize, after))
  {
    var all := finalList + areaList;
    AreaKeys(rest[0], sh, at, areaList, after);
    forall i, j | 0 <= i < j < |all| ensures PairInOrder(all[i], all[j], sh.Keys, maxPayloadSize, after) {
      if j < |finalList| {
        assert PairInOrder(finalList[i], finalList[j], sh.Keys, maxPayloadSize, at);
        StaysInOrder(sh, rest, finalList, at, areaList, after, finalList[i], finalList[j], maxPayloadSize);
      } else if i < |finalList| {
        assert all[j] in areaList && all[i] in finalList && rest[0] in rest;
      } else {
        NewInOrder(sh, rest[0], areaList, maxPayloadSize, at, after, i - |finalList|, j - |finalList|);
      }
    }
    forall r | r in all && r !in sh ensures Gapless(r, sh.Keys, after) {
      if r in finalList {
        assert rest[0] in rest;
        StaysGapless(sh, rest, finalList, at, areaList, after, r);
      } else {
        MoreGapless(r, rest[0], areaList, sh, at, after);
      }
    }
    forall r, b | r in all && b in rest[1..] ensures Earlier(r.area, r.areaNumber, b.area, b.areaNumber) {
      var k :| 0 <= k < |rest[1..]| && rest[1..][k] == b;
      assert b == rest[k + 1] && KeyLess(rest[0], b.area, b.areaNumber);
      assert b in rest;
    }
  }

  /** The roots of a bucket belong to its area. */
  lemma AreaKeys(bucket: Bucket, sh: Places, at: Places, areaList: seq<ReadItem>, after: Places)
    requires BucketOk(bucket, sh) && RootsAre(at, bucket.items, areaList, after)
    requires forall r | r in areaList && r !in at :: Bounded(r, Members(bucket.items), after)
    ensures forall r | r in areaList :: r.area == bucket.area && r.areaNumber == bucket.areaNumber
  {
    forall r | r in areaList ensures r.area == bucket.area && r.areaNumber == bucket.areaNumber {
      if r !in bucket.items {
        var a := BoundedBy(r, Members(bucket.items), after);
      }
    }
  }

  /** A bounded root belongs to the area of a member. */
  lemma BoundedBy(r: ReadItem, members: set<ReadItem>, at: Places) returns (a: ReadItem)
    requires Bounded(r, members, at)
    ensures a in members && r.area == a.area && r.areaNumber == a.areaNumber
  {
    var c, b :| c in members && b in members && c != b && c in at && b in at && SameArea([r, c, b])
                && at[c].startByte == at[r].startByte && at[b].End() == at[r].End();
    a := c;
    assert r in [r, c, b] && c in [r, c, b];
  }

  /** An item that is a root found so far, or below one, is none of those that are left. */
  lemma NotLeft(sh: Places, rest: seq<Bucket>, roots: set<ReadItem>, at: Places, w: ReadItem)
    requires rest != [] && Partway(sh, sh.Keys, ItemsOf(rest), roots, at) && Members(rest[0].items) <= ItemsOf(rest)
    requires w in at && (w in roots || at[w].parent != null)
    ensures w !in rest[0].items
  {
    assert w !in Members(rest[0].items);
  }

  /** No item of a bucket comes below a root of an earlier area. */
  lemma OtherArea(bucket: Bucket, sh: Places, r: ReadItem, w: ReadItem, after: Places)
    requires BucketOk(bucket, sh) && NodesOk(after) && w in after && after[w].parent == r
    requires Earlier(r.area, r.areaNumber, bucket.area, bucket.areaNumber)
    ensures w !in bucket.items
  {
    assert NodeOk(w, after);
    assert NodeOk(r, after);
  }

  /** Old roots stay in order: what they have joined does not move any more. */
  lemma StaysInOrder(sh: Places, rest: seq<Bucket>, finalList: seq<ReadItem>, at: Places, areaList: seq<ReadItem>,
                     after: Places, a: ReadItem, b: ReadItem, maxPayloadSize: int)
    requires rest != [] && Partway(sh, sh.Keys, ItemsOf(rest), Members(finalList), at)
    requires Members(rest[0].items) <= ItemsOf(rest) && b in finalList
    requires SameRanges(at, after) && RootsAre(at, rest[0].items, areaList, after)
    requires PairInOrder(a, b, sh.Keys, maxPayloadSize, at)
    ensures PairInOrder(a, b, sh.Keys, maxPayloadSize, after)
  {
    if !Earlier(a.area, a.areaNumber, b.area, b.areaNumber) && ByteAddressed(a.area) {
      var w :| w in sh.Keys && NotJoined(a, b, w, maxPayloadSize, at);
      assert b in Members(finalList);
      NotLeft(sh, rest, Members(finalList), at, w);
      assert NotJoined(a, b, w, maxPayloadSize, after);
    }
  }

  lemma NewInOrder(sh: Places, bucket: Bucket, areaList: seq<ReadItem>, maxPayloadSize: int, at: Places,
                   after: Places, i: nat, j: nat)
    requires AreaArranged(at, bucket, areaList, maxPayloadSize, after) && i < j < |areaList|
    requires Members(bucket.items) <= sh.Keys
    requires forall r | r in areaList :: r.area == bucket.area && r.areaNumber == bucket.areaNumber
    ensures PairInOrder(areaList[i], areaList[j], sh.Keys, maxPayloadSize, after)
  {
    var a, b := areaList[i], areaList[j];
    assert a in areaList && b in areaList;
    if ByteAddressed(bucket.area) {
      assert RootsApart(a, b, Members(bucket.items), maxPayloadSize, after);
      var w :| w in Members(bucket.items) && NotJoined(a, b, w, maxPayloadSize, after);
      assert w in sh.Keys;
    }
  }

  lemma StaysGapless(sh: Places, rest: seq<Bucket>, finalList: seq<ReadItem>, at: Places, areaList: seq<ReadItem>,
                     after: Places, r: ReadItem)
    requires rest != [] && Partway(sh, sh.Keys, ItemsOf(rest), Members(finalList), at) && NodesOk(after)
    requires Members(rest[0].items) <= ItemsOf(rest) && r in finalList && Gapless(r, sh.Keys, at)
    requires SameRanges(at, after) && RootsAre(at, rest[0].items, areaList, after) && BucketOk(rest[0], sh)
    requires Earlier(r.area, r.areaNumber, rest[0].area, rest[0].areaNumber)
    ensures Gapless(r, sh.Keys, after)
  {
    assert r in Members(finalList);
    forall w | w in sh.Keys && w in after && after[w].parent == r && after[w].startByte > after[r].startByte
      ensures exists v :: v in sh.Keys && Bridges(v, w, r, after)
    {
      OtherArea(rest[0], sh, r, w, after);
      var v :| v in sh.Keys && Bridges(v, w, r, at);
      NotLeft(sh, rest, Members(finalList), at, v);
      assert Bridges(v, w, r, after);
    }
  }

  /** A new root joins nothing but items of its bucket. */
  lemma MoreGapless(r: ReadItem, bucket: Bucket, areaList: seq<ReadItem>, sh: Places, at: Places, after: Places)
    requires Gapless(r, Members(bucket.items), after) && Members(bucket.items) <= sh.Keys <= at.Keys && r !in at
    requires NodesOk(at) && RootsAre(at, bucket.items, areaList, after)
    ensures Gapless(r, sh.Keys, after)
  {
    forall w | w in sh.Keys && w in after && after[w].parent == r && after[w].startByte > after[r].startByte
      ensures exists v :: v in sh.Keys && Bridges(v, w, r, after)
    {
      assert NodeOk(w, at);
      assert w in Members(bucket.items);
      var v :| v in Members(bucket.items) && Bridges(v, w, r, after);
    }
  }

  lemma StaysBounded(r: ReadItem, members: set<ReadItem>, more: set<ReadItem>, at: Places, after: Places)
    requires Bounded(r, members, at) && members <= more && SameRanges(at, after)
    ensures Bounded(r, more, after)
  {
    var a, b :| a in members && b in members && a != b && a in at && b in at && SameArea([r, a, b])
                && at[a].startByte == at[r].startByte && at[b].End() == at[r].End();
    assert a in more && b in more && a in after && b in after;
  }

  lemma NextLists(sh: Places, rest: seq<Bucket>, done: seq<ReadItem>, finalList: seq<ReadItem>, at: Places,
                  areaList: seq<ReadItem>, after: Places)
    requires rest != [] && BucketsOk(rest, sh) && BucketOk(rest[0], sh) && NoDuplicates(done) && NoDuplicates(finalList)
    requires Members(rest[0].items) !! ItemsOf(rest[1..])
        && ItemsOf(rest) == Members(rest[0].items) + ItemsOf(rest[1..])
    requires forall n | n in done :: n !in ItemsOf(rest) && (ByteAddressed(n.area) || n in finalList)
    requires (ByteAddressed(rest[0].area) || areaList == rest[0].items) && NoDuplicates(areaList)
    requires Members(finalList) !! Members(areaList)
    ensures ItemsOf(rest) - Members(rest[0].items) == ItemsOf(rest[1..])
    ensures Members(finalList + areaList) == Members(finalList) + Members(areaList)
    ensures Members(done + rest[0].items) == Members(done) + Members(rest[0].items)
    ensures NoDuplicates(finalList + areaList) && NoDuplicates(done + rest[0].items)
    ensures forall n | n in done + rest[0].items ::
      n !in ItemsOf(rest[1..]) && (ByteAddressed(n.area) || n in finalList + areaList)
  {
    assert forall r | r in areaList :: r in Members(areaList);
    Apart(finalList, areaList);
    assert forall n | n in rest[0].items :: n in ItemsOf(rest);
    Apart(done, rest[0].items);
  }

  lemma NextRoots(sh: Places, todo: set<ReadItem>, roots: set<ReadItem>, at: Places, items: seq<ReadItem>,
                  areaList: seq<ReadItem>, after: Places)
    requires Partway(sh, sh.Keys, todo, roots, at) && Members(items) <= todo && WellFormed(after)
        && SameRanges(at, after)
    requires RootsAre(at, items, areaList, after)
    ensures Partway(sh, sh.Keys, todo - Members(items), roots + Members(areaList), after)
    ensures roots !! Members(areaList)
  {
    forall r | r in areaList ensures r !in roots && r !in todo - Members(items) {
      assert r in Members(items) || r !in at;
    }
    forall n | n in after
      ensures after[n].parent == null <==> n in roots + Members(areaList) || n in todo - Members(items)
    {
      if n in at && n !in items {
        assert after[n].parent == at[n].parent;
      }
    }
  }

  lemma NextTotal(sh: Places, done: seq<ReadItem>, items: seq<ReadItem>, finalList: seq<ReadItem>,
      areaList: seq<ReadItem>, at: Places, after: Places)
    requires AllIn(done, sh) && AllIn(items, sh) && AllIn(finalList, at) && AllIn(areaList, after)
    requires SameRanges(sh, at) && SameRanges(at, after)
    requires BlockProperties.TotalWireBytes(finalList, at) <= BlockProperties.TotalWireBytes(done, sh)
    requires AllIn(items, at)
        && BlockProperties.TotalWireBytes(areaList, after) <= BlockProperties.TotalWireBytes(items, at)
    ensures AllIn(finalList + areaList, after) && AllIn(done + items, sh)
    ensures BlockProperties.TotalWireBytes(finalList + areaList,
        after) <= BlockProperties.TotalWireBytes(done + items, sh)
  {
    BlockProperties.TotalStays(finalList, at, after);
    BlockProperties.TotalStays(items, sh, at);
    BlockProperties.TotalOfConcat(finalList, areaList, after);
    BlockProperties.TotalOfConcat(done, items, sh);
  }

  /** The items of the first bucket are in no other bucket. */
  lemma FirstBucket(rest: seq<Bucket>, sh: Places)
    requires BucketsOk(rest, sh) && rest != []
    ensures BucketsOk(rest[1..], sh) && BucketOk(rest[0], sh)
    ensures Members(rest[0].items) !! ItemsOf(rest[1..])
    ensures ItemsOf(rest) == Members(rest[0].items) + ItemsOf(rest[1..])
  {
    assert BucketOk(rest[0], sh);
    forall i | 0 <= i < |rest[1..]| ensures BucketOk(rest[1..][i], sh) {
      assert BucketOk(rest[i + 1], sh);
    }
    forall n | n in ItemsOf(rest) ensures n in Members(rest[0].items) + ItemsOf(rest[1..]) {
      var j :| 0 <= j < |rest| && n in rest[j].items;
      assert j == 0 || rest[j] == rest[1..][j - 1];
    }
    forall j, n | 0 <= j < |rest[1..]| && n in rest[1..][j].items ensures n !in rest[0].items {
      assert KeyLess(rest[0], rest[j + 1].area, rest[j + 1].areaNumber) && BucketOk(rest[j + 1], sh);
    }
  }

  /** The items of the next bucket are roots of one area. */
  lemma BucketTask(sh: Places, maxPayloadSize: int, rest: seq<Bucket>, done: seq<ReadItem>, finalList: seq<ReadItem>,
      at: Places)
    requires Planning(sh, maxPayloadSize, rest, done, finalList, at) && rest != []
    ensures Whole(BucketReady(rest[0], at))
  {
    BucketRoots(sh, rest, Members(finalList), at);
  }

  lemma BucketRoots(sh: Places, rest: seq<Bucket>, roots: set<ReadItem>, at: Places)
    requires Partway(sh, sh.Keys, ItemsOf(rest), roots, at) && BucketsOk(rest, sh) && rest != []
    ensures Whole(BucketReady(rest[0], at))
  {
    FirstBucket(rest, sh);
    forall n | n in rest[0].items ensures n in at && at[n].parent == null {
      assert n in Members(rest[0].items);
    }
  }

  lemma OptimizedBucket(at: Places, items: seq<ReadItem>, maxPayloadSize: int, kept: seq<ReadItem>,
      result: seq<ReadItem>, after: Places)
    requires WellFormed(at) && AllIn(items, at) && SameArea(items)
        && Optimized(at, items, maxPayloadSize, kept, result, after)
    ensures AllIn(result, after) && NoDuplicates(result)
    ensures forall r | r in result && r !in at ::
      after[r].readBytes + 4 <= maxPayloadSize && r.usingInternalBuffer && Bounded(r, Members(items), after)
    ensures BlockProperties.TotalWireBytes(result, after) <= BlockProperties.TotalWireBytes(items, at)
    ensures forall i, j | 0 <= i < j < |result| ::
      RootsApart(result[i], result[j], Members(items), maxPayloadSize, after)
    ensures forall r | r in result && r !in at :: Gapless(r, Members(items), after)
  {
    ResultApart(at, items, maxPayloadSize, kept, result, after);
    ResultGapless(at, items, maxPayloadSize, kept, result, after);
    BlockProperties.OptimizingSaves(at, items, maxPayloadSize, kept, result, after);
    BlockProperties.NewRootsFit(at, items, maxPayloadSize, kept, result, after);
    NewRootsBounded(at, items, maxPayloadSize, kept, result, after);
  }

  /** The roots of an area are apart, as its blocks are. */
  lemma ResultApart(at: Places, items: seq<ReadItem>, maxPayloadSize: int, kept: seq<ReadItem>,
      result: seq<ReadItem>, after: Places)
    requires Optimized(at, items, maxPayloadSize, kept, result, after)
    ensures forall i, j | 0 <= i < j < |result| ::
      RootsApart(result[i], result[j], Members(items), maxPayloadSize, after)
  {
    var blocks := Blocks(kept, maxPayloadSize, at);
    BlocksWithin(kept, maxPayloadSize, at);
    forall i, j | 0 <= i < j < |result|
      ensures RootsApart(result[i], result[j], Members(items), maxPayloadSize, after)
    {
      BlockProperties.BlocksInOrder(kept, maxPayloadSize, at, i, j);
      assert blocks[j] in blocks && blocks[j][0] in blocks[j];
      assert Represents(result[i], blocks[i], at, after) && Represents(result[j], blocks[j], at, after);
      PairApart(result[i], blocks[i], result[j], blocks[j], Members(items), maxPayloadSize, at, after);
    }
  }

  lemma PairApart(a: ReadItem, blockA: seq<ReadItem>, b: ReadItem, blockB: seq<ReadItem>, members: set<ReadItem>,
                  maxPayloadSize: int, at: Places, after: Places)
    requires SameRanges(at, after) && NodesOk(after)
    requires Represents(a, blockA, at, after) && Represents(b, blockB, at, after) && blockB[0] in members
    requires BlockProperties.BlockBefore(blockA, blockB, maxPayloadSize, at)
    ensures RootsApart(a, b, members, maxPayloadSize, after)
  {
    assert NodeOk(b, after);
    assert NotJoined(a, b, blockB[0], maxPayloadSize, after);
  }

  lemma ResultGapless(at: Places, items: seq<ReadItem>, maxPayloadSize: int, kept: seq<ReadItem>,
      result: seq<ReadItem>, after: Places)
    requires Optimized(at, items, maxPayloadSize, kept, result, after)
    ensures forall r | r in result && r !in at :: Gapless(r, Members(items), after)
  {
    var blocks := Blocks(kept, maxPayloadSize, at);
    BlocksWithin(kept, maxPayloadSize, at);
    BlockProperties.BlocksChainedAndMaximal(kept, maxPayloadSize, at);
    forall j | 0 <= j < |result| && result[j] !in at ensures Gapless(result[j], Members(items), after) {
      BlockProperties.BlockInOrder(kept, maxPayloadSize, at, j);
      assert blocks[j] in blocks && Represents(result[j], blocks[j], at, after);
      assert BlockProperties.GoodBlock(blocks[j], maxPayloadSize, at);
      BlockGapless(result[j], blocks[j], Members(items), maxPayloadSize, at, after);
    }
  }

  lemma BlockGapless(root: ReadItem, block: seq<ReadItem>, members: set<ReadItem>, maxPayloadSize: int, at: Places,
                     after: Places)
    requires SameRanges(at, after) && NodesOk(after) && Represents(root, block, at, after) && root !in at
    requires AllIn(block, at) && Antichain(block, at) && BlockProperties.Chained(block, maxPayloadSize, at)
    requires forall n | n in block :: n in members
    ensures Gapless(root, members, after)
  {
    assert NodeOk(root, after);
    forall w | w in members && w in after && after[w].parent == root && after[w].startByte > after[root].startByte
      ensures exists v :: v in members && Bridges(v, w, root, after)
    {
      assert NodeOk(w, after);
      var k :| 0 <= k < |block| && block[k] == w;
      assert Joins(block, k, maxPayloadSize, at) && Precedes(block[k - 1], block[k], at) && block[k - 1] in block;
      assert Bridges(block[k - 1], w, root, after);
    }
  }

  lemma NewRootsBounded(at: Places, items: seq<ReadItem>, maxPayloadSize: int, kept: seq<ReadItem>,
      result: seq<ReadItem>, after: Places)
    requires AllIn(items, at) && SameArea(items) && SameRanges(at, after) && NodesOk(after)
    requires AllIn(kept, at) && forall k | k in kept :: k in items
    requires |result| == |Blocks(kept, maxPayloadSize, at)|
    requires forall j | 0 <= j < |result| :: Represents(result[j], Blocks(kept, maxPayloadSize, at)[j], at, after)
    ensures forall r | r in result && r !in at :: Bounded(r, Members(items), after)
  {
    var blocks := Blocks(kept, maxPayloadSize, at);
    BlocksWithin(kept, maxPayloadSize, at);
    forall j | 0 <= j < |result| && result[j] !in at ensures Bounded(result[j], Members(items), after) {
      assert blocks[j] in blocks;
      RootBounded(items, blocks[j], at, result[j], after);
    }
  }

  lemma RootBounded(items: seq<ReadItem>, block: seq<ReadItem>, at: Places, root: ReadItem, after: Places)
    requires SameRanges(at, after) && AllIn(items, at) && (forall n | n in block :: n in items) && SameArea(items)
    requires Represents(root, block, at, after) && root !in at && NodesOk(after)
    ensures Bounded(root, Members(items), after)
  {
    var a, b := block[0], block[|block| - 1];
    assert a in block && b in block;
    assert NodeOk(root, after);
    assert a in Members(items) && b in Members(items) && SameArea([root, a, b]);
  }

  /** When all buckets have been dealt with, the plan is complete. */
  lemma PlanComplete(chain: seq<AsynReadItem>, wrappers: seq<ReadItem>, sh: Places, maxPayloadSize: int,
      done: seq<ReadItem>, finalList: seq<ReadItem>, after: Places)
    requires Wrapped(chain, |chain|, wrappers, sh) && Planning(sh, maxPayloadSize, [], done, finalList, after)
    ensures Whole(Planned(chain, wrappers, maxPayloadSize, finalList, after))
  {
    assert ItemsOf([]) == {};
    AllArranged(sh, wrappers, finalList, maxPayloadSize, after);
    forall n | n in sh ensures n in wrappers && n in done {
      assert n in Members(wrappers) && n in Members(done);
    }
    forall w | w in wrappers ensures w in sh && w in done {
      assert w in Members(wrappers);
    }
  }

  lemma AllArranged(sh: Places, wrappers: seq<ReadItem>, finalList: seq<ReadItem>, maxPayloadSize: int, after: Places)
    requires Whole(Arranged(sh, [], finalList, maxPayloadSize, after)) && sh.Keys == Members(wrappers)
    ensures Whole(RootsInOrder(finalList, Members(wrappers), maxPayloadSize, after))
    ensures forall r | r in finalList && r !in sh :: Whole(Gapless(r, Members(wrappers), after))
  {
  }

  lemma PlanSaves(wrappers: seq<ReadItem>, sh: Places, maxPayloadSize: int, done: seq<ReadItem>,
      finalList: seq<ReadItem>, after: Places)
    requires Planning(sh, maxPayloadSize, [], done, finalList, after) && NoDuplicates(wrappers)
        && sh.Keys == Members(wrappers) && NodesOk(sh)
    ensures AllIn(wrappers, sh) && SameRanges(sh, after) && AllIn(finalList, after)
    ensures BlockProperties.TotalWireBytes(finalList, after) <= BlockProperties.TotalWireBytes(wrappers, sh)
  {
    forall n | n in wrappers ensures n in sh && 0 <= sh[n].readBytes {
      assert n in Members(wrappers) && NodeOk(n, sh);
    }
    assert ItemsOf([]) == {};
    BlockProperties.KeepingSaves(done, wrappers, sh);
  }

  /**
   * Optimizes the items of one area. Timers and counters are not addressed in bytes;
   * their requests stay as they are.
   */
  method OptimizeBucket(bucket: Bucket, maxPayloadSize: int, ghost at: Places) returns (areaList: seq<ReadItem>,
      ghost after: Places)
    requires Current(at) && Whole(BucketReady(bucket, at))
    modifies at.Keys
    ensures Current(after) && Whole(BucketDone(at, bucket, maxPayloadSize, areaList, after))
    ensures forall n | n in after && n !in at :: fresh(n) && fresh(n.result) && fresh(after[n].buffer) && Unread(n)
  {
    areaList, after := bucket.items, at;
    if bucket.area.Inputs? || bucket.area.Outputs? || bucket.area.Db? || bucket.area.Flags? {
      ghost var kept;
      areaList, kept, after := OptimizeWithinArea(bucket.items, maxPayloadSize, at);
      BucketIsOptimized(at, bucket, maxPayloadSize, kept, areaList, after);
    } else {
      BucketStays(at, bucket, maxPayloadSize);
    }
  }

  lemma BucketIsOptimized(at: Places, bucket: Bucket, maxPayloadSize: int, kept: seq<ReadItem>,
                          areaList: seq<ReadItem>, after: Places)
    requires Whole(BucketReady(bucket, at)) && ByteAddressed(bucket.area)
    requires Optimized(at, bucket.items, maxPayloadSize, kept, areaList, after)
    ensures Whole(BucketDone(at, bucket, maxPayloadSize, areaList, after))
  {
    OptimizedBucket(at, bucket.items, maxPayloadSize, kept, areaList, after);
    assert AreaArranged(at, bucket, areaList, maxPayloadSize, after);
  }

  lemma BucketStays(at: Places, bucket: Bucket, maxPayloadSize: int)
    requires Whole(BucketReady(bucket, at)) && !ByteAddressed(bucket.area)
    ensures Whole(BucketDone(at, bucket, maxPayloadSize, bucket.items, at))
  {
    assert AreaArranged(at, bucket, bucket.items, maxPayloadSize, at);
  }

  /** At the beginning, all buckets are still to be dealt with. */
  lemma PlanningStarts(chain: seq<AsynReadItem>, wrappers: seq<ReadItem>, buckets: seq<Bucket>, maxPayloadSize: int,
      sh: Places)
    requires Wrapped(chain, |chain|, wrappers, sh) && BucketsOk(buckets, sh) && ItemsOf(buckets) == sh.Keys
    ensures Whole(Planning(sh, maxPayloadSize, buckets, [], [], sh))
  {
  }

  /** Optimizes the buckets one after the other. */
  method OptimizeBuckets(buckets: seq<Bucket>, maxPayloadSize: int, ghost sh: Places)
      returns (finalList: seq<ReadItem>, ghost done: seq<ReadItem>, ghost after: Places)
    requires Current(sh) && Whole(Planning(sh, maxPayloadSize, buckets, [], [], sh))
    modifies sh.Keys
    ensures Current(after) && Whole(Planning(sh, maxPayloadSize, [], done, finalList, after))
    ensures forall n | n in after && n !in sh :: fresh(n) && fresh(n.result) && fresh(after[n].buffer) && Unread(n)
  {
    var rest := buckets;
    finalList, done, after := [], [], sh;
    while rest != []
      invariant Current(after) && Whole(Planning(sh, maxPayloadSize, rest, done, finalList, after))
      invariant forall n | n in after && n !in sh :: fresh(n) && fresh(n.result) && fresh(after[n].buffer) && Unread(n)
      decreases |rest|
    {
      ghost var at := after;
      BucketTask(sh, maxPayloadSize, rest, done, finalList, at);
      var areaList;
      areaList, after := OptimizeBucket(rest[0], maxPayloadSize, at);
      NextBucket(sh, maxPayloadSize, rest, done, finalList, at, areaList, after);
      finalList, done, rest := finalList + areaList, done + rest[0].items, rest[1..];
    }
  }

  /** Wraps the requests and optimizes them area by area, in the order of the areas. */
  method CreateOptimizedList(firstItem: AsynReadItem?, maxPayloadSize: int, ghost chain: seq<AsynReadItem>)
      returns (finalList: seq<ReadItem>, ghost wrappers: seq<ReadItem>, ghost after: Places)
    requires Chain(firstItem, chain) && OwnBuffers(chain)
    ensures Current(after) && Whole(Planned(chain, wrappers, maxPayloadSize, finalList, after)) && fresh(after.Keys)
    ensures forall n | n in after && n !in wrappers :: fresh(n.result) && fresh(after[n].buffer) && Unread(n)
    ensures BlockProperties.TotalWireBytes(finalList, after) <= BlockProperties.TotalWireBytes(wrappers, after)
  {
    var buckets;
    ghost var sh, done;
    buckets, wrappers, sh := WrapRequests(firstItem, chain);
    PlanningStarts(chain, wrappers, buckets, maxPayloadSize, sh);
    finalList, done, after := OptimizeBuckets(buckets, maxPayloadSize, sh);
    PlanComplete(chain, wrappers, sh, maxPayloadSize, done, finalList, after);
    PlanSaves(wrappers, sh, maxPayloadSize, done, finalList, after);
    BlockProperties.TotalStays(wrappers, sh, after);
    forall n | n in after && n !in wrappers ensures n !in sh {
      assert n !in Members(wrappers);
    }
  }
}

/** Handing results from the roots of the forest down to the requests. */
module ResultDispatch {
  import opened PlcTypes
  import opened ReadItems

  /** D consists of what lies below the first k roots. */
  ghost predicate BelowRoots(roots: seq<ReadItem>, k: int, D: set<ReadItem>, sh: Places) {
    && 0 <= k <= |roots| && (forall i | 0 <= i < |roots| :: roots[i] in sh) && D <= sh.Keys
    && (forall d {:trigger sh[d].parent} | d in D ::
          sh[d].parent != null && sh[d].parent in sh && (sh[d].parent in D || sh[d].parent in roots[..k]))
    && (forall d, c | d in D && c in sh[d].kids :: c in D)
    && (forall j, c | 0 <= j < k && c in sh[roots[j]].kids :: c in D)
  }

  /** What lies below different roots is disjoint. */
  lemma {:induction false} NothingShared(roots: seq<ReadItem>, k: int, D: set<ReadItem>, below: set<ReadItem>,
      sh: Places, d: ReadItem)
    requires WellFormed(sh) && Roots(roots, sh) && BelowRoots(roots, k, D, sh) && k < |roots|
        && Descent(roots[k], below, sh)
    requires d in D
    ensures d !in below
    decreases sh[roots[k]].rank - sh[d].rank
  {
    if d in below {
      assert NodeOk(d, sh);
      var up := sh[d].parent;
      if up in D && up in below {
        assert NodeOk(up, sh);
        NothingShared(roots, k, D, below, sh, up);
      }
    }
  }

  lemma NextRoot(roots: seq<ReadItem>, k: int, D: set<ReadItem>, below: set<ReadItem>, sh: Places)
    requires WellFormed(sh) && Roots(roots, sh) && BelowRoots(roots, k, D, sh) && k < |roots|
        && Descent(roots[k], below, sh)
    ensures D !! below && BelowRoots(roots, k + 1, D + below, sh)
  {
    forall d | d in D ensures d !in below {
      NothingShared(roots, k, D, below, sh, d);
    }
    assert roots[..k + 1] == roots[..k] + [roots[k]];
    forall d | d in below ensures sh[d].parent != null && sh[d].parent in sh {
      assert NodeOk(d, sh);
    }
    forall j, c | 0 <= j < k + 1 && c in sh[roots[j]].kids ensures c in D + below {
    }
  }

  /** Everything below the roots is every item that is no root. */
  lemma {:induction false} AllBelow(roots: seq<ReadItem>, D: set<ReadItem>, sh: Places, n: ReadItem)
    requires WellFormed(sh) && BelowRoots(roots, |roots|, D, sh) && n in sh && sh[n].parent != null
    requires forall m | m in sh && sh[m].parent == null :: m in roots
    ensures n in D
    decreases HigherRanked(n, sh)
  {
    var up := sh[n].parent;
    assert NodeOk(n, sh);
    assert NodeOk(up, sh);
    if sh[up].parent == null {
      var j :| 0 <= j < |roots| && roots[j] == up;
    } else {
      Higher(n, up, sh);
      AllBelow(roots, D, sh, up);
    }
  }

  lemma AllReached(roots: seq<ReadItem>, D: set<ReadItem>, sh: Places)
    requires WellFormed(sh) && BelowRoots(roots, |roots|, D, sh)
    requires forall n | n in sh && sh[n].parent == null :: n in roots
    ensures forall n | n in sh :: sh[n].parent != null <==> n in D
  {
    forall n | n in sh && sh[n].parent != null ensures n in D {
      AllBelow(roots, D, sh, n);
    }
  }

  ghost function HigherRanked(n: ReadItem, sh: Places): set<ReadItem>
    requires n in sh
  {
    set m | m in sh && sh[m].rank > sh[n].rank
  }

  lemma Higher(n: ReadItem, up: ReadItem, sh: Places)
    requires n in sh && up in sh && sh[up].rank > sh[n].rank
    ensures HigherRanked(up, sh) < HigherRanked(n, sh)
  {
    assert up in HigherRanked(n, sh) && up !in HigherRanked(up, sh);
  }

  /** Hands the results of all roots to the items below them; afterwards every other item is settled. */
  method DispatchResults(itemList: seq<ReadItem>, ghost sh: Places)
    requires Current(sh) && WellFormed(sh) && Roots(itemList, sh)
    requires forall n | n in sh && sh[n].parent == null :: n in itemList
    requires forall n | n in itemList && n in sh :: DeliversFrom(n, sh)
    modifies Results(sh.Keys), Buffers(sh)
    ensures forall n | n in sh :: if sh[n].parent == null then ResultOf(n, sh) == old(ResultOf(n, sh))
        else Settled(n, sh)
  {
    ghost var D: set<ReadItem> := {};
    for k := 0 to |itemList|
      invariant BelowRoots(itemList, k, D, sh)
      invariant forall d | d in D :: Settled(d, sh)
      invariant forall d | d in sh && d !in D :: ResultOf(d, sh) == old(ResultOf(d, sh))
    {
      assert itemList[k] !in D;
      D := DispatchRoot(itemList, k, D, sh);
    }
    AllReached(itemList, D, sh);
  }

  method DispatchRoot(itemList: seq<ReadItem>, k: nat, ghost D: set<ReadItem>, ghost sh: Places)
      returns (ghost settled: set<ReadItem>)
    requires Current(sh) && WellFormed(sh) && Roots(itemList, sh) && k < |itemList| && BelowRoots(itemList, k, D, sh)
    requires itemList[k] !in D && DeliversFrom(itemList[k], sh) && forall d | d in D :: Settled(d, sh)
    modifies Results(sh.Keys), Buffers(sh)
    ensures D <= settled && BelowRoots(itemList, k + 1, settled, sh)
    ensures forall d | d in settled :: Settled(d, sh)
    ensures forall d | d in sh && d !in settled - D :: ResultOf(d, sh) == old(ResultOf(d, sh))
  {
    var item := itemList[k];
    ghost var below := item.DispatchReadResultToChildren(sh);
    NextRoot(itemList, k, D, below, sh);
    settled := D + below;
  }

  // ---------- what the items below a root get ----------

  /** The root above an item. */
  ghost function RootOf(n: ReadItem, sh: Places): (root: ReadItem)
    requires NodesOk(sh) && n in sh
    ensures root in sh && sh[root].parent == null
    decreases HigherRanked(n, sh)
  {
    assert NodeOk(n, sh);
    if sh[n].parent == null then n else
      var up := sh[n].parent;
      assert NodeOk(up, sh);
      Higher(n, up, sh);
      RootOf(up, sh)
  }

  lemma {:induction false} RootCovers(n: ReadItem, sh: Places)
    requires NodesOk(sh) && n in sh
    ensures Covers(RootOf(n, sh), n, sh)
    decreases HigherRanked(n, sh)
  {
    assert NodeOk(n, sh);
    if sh[n].parent != null {
      var up := sh[n].parent;
      assert NodeOk(up, sh);
      Higher(n, up, sh);
      RootCovers(up, sh);
    }
  }

  /** Passing a result on twice is passing it on once. */
  lemma PassesOn(a: Outcome, b: Outcome, c: Outcome, toB: int, lengthB: int, toC: int, lengthC: int)
    requires Passes(a, toB, lengthB, b) && Passes(b, toC, lengthC, c)
    requires 0 <= toC && 0 <= lengthC && toC + lengthC <= lengthB && 0 <= toB
    ensures Passes(a, toB + toC, lengthC, c)
  {
    if c.bytesRead != 0 {
      assert c.bytes[..c.bytesRead] == b.bytes[..b.bytesRead][toC..toC + c.bytesRead];
      assert a.bytes[toB..toB + b.bytesRead][toC..toC + c.bytesRead]
          == a.bytes[toB + toC..toB + toC + c.bytesRead];
    }
  }

  /**
   * In trees of any depth: an item gets the error of its root, or those bytes of its own that have
   * been read for the root.
   */
  lemma {:induction false} RootReachesItem(n: ReadItem, sh: Places)
    requires NodesOk(sh) && n in sh && sh[n].parent != null
    requires forall m | m in sh && sh[m].parent != null :: Settled(m, sh)
    ensures var root := RootOf(n, sh);
            Passes(ResultOf(root, sh), sh[n].startByte - sh[root].startByte, sh[n].readBytes, ResultOf(n, sh))
    decreases HigherRanked(n, sh)
  {
    var up, root := sh[n].parent, RootOf(n, sh);
    assert Settled(n, sh) && NodeOk(n, sh);
    assert NodeOk(up, sh);
    if sh[up].parent != null {
      Higher(n, up, sh);
      RootReachesItem(up, sh);
      RootCovers(up, sh);
      assert NodeOk(root, sh);
      PassesOn(ResultOf(root, sh), ResultOf(up, sh), ResultOf(n, sh), sh[up].startByte - sh[root].startByte,
          sh[up].readBytes, sh[n].startByte - sh[up].startByte, sh[n].readBytes);
    }
  }
}

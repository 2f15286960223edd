/** The encoder for writing several items with one telegram, and the walk over what it produces. */
module MultiWrite {
  import opened PlcTypes
  import opened S7Wire
  import opened MicroClient

  /** An item to be written: its reference, and its data, whose length is the size of the item. */
  datatype WriteItem = WriteItem(area: byte, wordLen: int, dbNumber: int, start: int, amount: int, data: seq<byte>)
  {
    function Cleared(): WriteItem {
      this.(wordLen := if area == S7_AREA_CT then S7_WL_COUNTER else if area == S7_AREA_TM then S7_WL_TIMER
          else wordLen)
    }

    function ToRef(): Ref {
      ItemRef(area, wordLen, dbNumber, start, amount)
    }

    /** The data part of the item in the telegram; its return code is not used. */
    function ToAnswer(): Answer {
      Answer(0, WriteTransport(wordLen), data)
    }
  }

  /** Where the data parts stand, counted from the first one; the last place is the end, with a fill byte. */
  ghost predicate ArePlaces(parts: seq<Answer>, places: seq<nat>) {
    && |places| == |parts| + 1 && places[0] == 0
    && forall k, n | 0 <= k && n == k + 1 <= |parts| :: places[n] == places[k] + 4 + Padded(|parts[k].data|)
  }

  /** There are places for any parts. */
  lemma {:induction false} PlacesExist(parts: seq<Answer>) returns (places: seq<nat>)
    ensures ArePlaces(parts, places)
    decreases |parts|
  {
    if parts == [] {
      places := [0];
    } else {
      var last := |parts| - 1;
      var front := PlacesExist(parts[..last]);
      places := front + [front[last] + 4 + Padded(|parts[last].data|)];
      forall k, n | 0 <= k && n == k + 1 <= |parts| ensures places[n] == places[k] + 4 + Padded(|parts[k].data|) {
        assert k < last ==> parts[..last][k] == parts[k];
      }
    }
  }

  ghost function PartsOf(items: seq<WriteItem>): (parts: seq<Answer>)
    ensures |parts| == |items| && forall k | 0 <= k < |items| :: parts[k] == items[k].Cleared().ToAnswer()
  {
    seq(|items|, k requires 0 <= k < |items| => items[k].Cleared().ToAnswer())
  }

  lemma {:induction false} PlacesIncrease(parts: seq<Answer>, places: seq<nat>, j: nat, k: nat)
    requires ArePlaces(parts, places) && j < k <= |parts|
    ensures places[j] + 4 + Padded(|parts[j].data|) <= places[k]
    decreases k
  {
    var before := k - 1;
    assert places[k] == places[before] + 4 + Padded(|parts[before].data|);
    if j < before {
      PlacesIncrease(parts, places, j, before);
    }
  }

  /** The first n data parts stand at their places. */
  ghost predicate PartsStand(bytes: seq<byte>, at: nat, parts: seq<Answer>, places: seq<nat>, n: nat)
    requires n <= |parts| < |places|
  {
    forall k | 0 <= k < n :: Stands(bytes, at + places[k], parts[k])
  }

  /** The number of data bytes of the part at `p`, whatever its return code. */
  function DataSliceAt(bytes: seq<byte>, p: nat): nat {
    if p + 4 > |bytes| then 0
    else if CountsBytes(bytes[p + 1]) then WordAt(bytes, p + 2)
    else WordAt(bytes, p + 2) / 8
  }

  /** Where a walk that ignores return codes expects the k-th part. */
  function WalkOffset(bytes: seq<byte>, at: nat, k: nat): nat {
    if k == 0 then at else
      var p := WalkOffset(bytes, at, k - 1);
      p + 4 + Padded(DataSliceAt(bytes, p))
  }

  /** A part with this data stands at `p`, whatever its return code. */
  ghost predicate DataStands(bytes: seq<byte>, p: nat, data: seq<byte>) {
    p + 4 + |data| <= |bytes| && DataSliceAt(bytes, p) == |data| && bytes[p + 4..p + 4 + |data|] == data
  }

  lemma PartDataStands(bytes: seq<byte>, p: nat, part: Answer)
    requires Stands(bytes, p, part) && LengthField(part) < 0x1_0000
    ensures DataStands(bytes, p, part.data)
  {
    WordStands(bytes, p + 2, LengthField(part));
  }

  /** The data of the first n parts stand at their places, whatever the return codes. */
  ghost predicate AllDataStand(bytes: seq<byte>, at: nat, parts: seq<Answer>, places: seq<nat>, n: nat)
    requires n <= |parts| < |places|
  {
    forall j {:trigger DataStands(bytes, at + places[j], parts[j].data)} | 0 <= j < n ::
        DataStands(bytes, at + places[j], parts[j].data)
  }

  lemma {:induction false} WalkReachesPart(bytes: seq<byte>, at: nat, parts: seq<Answer>, places: seq<nat>, k: nat,
      p: nat)
    requires ArePlaces(parts, places) && k <= |parts| && AllDataStand(bytes, at, parts, places, k)
        && p == WalkOffset(bytes, at, k)
    ensures p == at + places[k]
    decreases k
  {
    if k > 0 {
      var before := k - 1;
      WalkReachesPart(bytes, at, parts, places, before, WalkOffset(bytes, at, before));
      assert DataStands(bytes, at + places[before], parts[before].data);
      assert places[k] == places[before] + 4 + Padded(|parts[before].data|);
    }
  }

  /** The walk of the reader, ignoring return codes, finds the data of every item where the encoder has put it. */
  lemma WalkFindsParts(bytes: seq<byte>, at: nat, parts: seq<Answer>, places: seq<nat>, k: nat, p: nat)
    requires ArePlaces(parts, places) && PartsStand(bytes, at, parts, places, |parts|) && k < |parts|
    requires (forall j | 0 <= j < |parts| :: LengthField(parts[j]) < 0x1_0000) && p == WalkOffset(bytes, at, k)
    ensures p == at + places[k] && DataStands(bytes, p, parts[k].data)
  {
    forall j | 0 <= j < |parts| ensures DataStands(bytes, at + places[j], parts[j].data) {
      PartDataStands(bytes, at + places[j], parts[j]);
    }
    WalkReachesPart(bytes, at, parts, places, k, p);
  }

  /** Puts the data part of one item at `p`. */
  method PutPart(payload: array<byte>, p: nat, wordLen: int, data: seq<byte>)
    requires p + 4 + |data| <= payload.Length && |data| * 8 < 0x1_0000
    modifies payload
    ensures Stands(payload[..], p, Answer(0, WriteTransport(wordLen), data))
    ensures forall i | 0 <= i < payload.Length && !(p <= i < p + 4 + |data|) :: payload[i] == old(payload[i])
  {
    payload[p], payload[p + 1] := 0, WriteTransport(wordLen);
    var length := if CountsBytes(payload[p + 1]) then |data| else |data| * 8;
    payload[p + 2], payload[p + 3] := Hi(length), Lo(length);
    forall i | 0 <= i < |data| {
      payload[p + 4 + i] := data[i];
    }
    assert payload[..][p + 4..p + 4 + |data|] == data;
  }

  lemma StandsStill(before: seq<byte>, after: seq<byte>, p: nat, part: Answer)
    requires Stands(before, p, part) && |after| == |before| && forall i | p <= i < p + 4 + |part.data| ::
        after[i] == before[i]
    ensures Stands(after, p, part)
  {
    assert after[p + 4..p + 4 + |part.data|] == before[p + 4..p + 4 + |part.data|];
  }

  lemma MorePartsStand(before: seq<byte>, after: seq<byte>, at: nat, parts: seq<Answer>, places: seq<nat>, n: nat)
    requires ArePlaces(parts, places) && n < |parts| && |after| == |before|
    requires Whole(PartsStand(before, at, parts, places, n)) && Stands(after, at + places[n], parts[n])
    requires forall i | 0 <= i < |after| && i < at + places[n] :: after[i] == before[i]
    ensures Whole(PartsStand(after, at, parts, places, n + 1))
  {
    forall k | 0 <= k < n ensures Stands(after, at + places[k], parts[k]) {
      PlacesIncrease(parts, places, k, n);
      StandsStill(before, after, at + places[k], parts[k]);
    }
  }

  /**
   * Builds the data parts of all items. After odd data the next part starts one byte
   * later, except after the last item, which has no fill byte.
   */
  method PutParts(payload: array<byte>, at: nat, items: seq<WriteItem>, ghost places: seq<nat>) returns (offset: nat)
    requires ArePlaces(PartsOf(items), places) && at + places[|items|] <= payload.Length
    requires forall k | 0 <= k < |items| :: |items[k].data| * 8 < 0x1_0000
    modifies payload
    ensures PartsStand(payload[..], at, PartsOf(items), places, |items|)
    ensures offset == places[|items|] - if items == [] then 0 else |items[|items| - 1].data| % 2
    ensures forall i | 0 <= i < at :: payload[i] == old(payload[i])
  {
    ghost var parts := PartsOf(items);
    offset := 0;
    for c := 0 to |items|
      invariant offset == places[c] - if c < |items| || c == 0 then 0 else |items[c - 1].data| % 2
      invariant Whole(PartsStand(payload[..], at, parts, places, c))
      invariant forall i | 0 <= i < at :: payload[i] == old(payload[i])
    {
      ghost var before, next := payload[..], c + 1;
      assert places[next] == places[c] + 4 + Padded(|parts[c].data|);
      PlacesIncrease(parts, places, c, |items|);
      PutPart(payload, at + offset, items[c].Cleared().wordLen, items[c].data);
      MorePartsStand(before, payload[..], at, parts, places, c);
      var size := |items[c].data|;
      if size % 2 != 0 && |items| - c != 1 {
        size := size + 1;
      }
      offset := offset + 4 + size;
    }
  }
}

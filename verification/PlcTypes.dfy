/** Types shared by the driver and the client: bytes, PLC areas, PLC memory and asyn status codes. */
module PlcTypes {

  type byte = x: int | 0 <= x < 256

  datatype Option<T> = None | Some(value: T)

  /** The claim as a whole: a step of a proof that hands it on does not have to look into it. */
  ghost predicate Whole(claim: bool) {
    claim == true
  }

  /** The memory areas of the driver interface, in the order of their enumeration. */
  datatype Area = Db | Flags | Inputs | Outputs | Timer | Counter

  /** Areas addressed in bytes; timers and counters are addressed by element. */
  predicate ByteAddressed(area: Area) {
    !area.Timer? && !area.Counter?
  }

  datatype AsynStatus = Success | Timeout | Overflow | Error | Disconnected | Disabled

  /** PLC memory: one run of bytes for each area and number; the number only matters for data blocks. */
  type Memory = map<(Area, int), seq<byte>>

  function MemoryKey(area: Area, number: int): (Area, int) {
    (area, if area.Db? then number else 0)
  }

  predicate InMemory(memory: Memory, area: Area, number: int, start: int, length: int) {
    length == 0
    || (MemoryKey(area, number) in memory && 0 <= start && 0 < length
        && start + length <= |memory[MemoryKey(area, number)]|)
  }

  /** The range lies within the run of bytes that the PLC has, even if it is empty. */
  predicate WithinRun(memory: Memory, area: Area, number: int, start: int, length: int) {
    var key := MemoryKey(area, number);
    ByteAddressed(area) && key in memory && 0 <= start && 0 <= length && start + length <= |memory[key]|
  }

  function Slice(memory: Memory, area: Area, number: int, start: int, length: int): (bytes: seq<byte>)
    requires InMemory(memory, area, number, start, length)
    ensures |bytes| == length
  {
    if length == 0 then [] else memory[MemoryKey(area, number)][start..start + length]
  }

  /** The bytes are exactly what the PLC stores from `start` on. */
  predicate Holds(memory: Memory, area: Area, number: int, start: int, bytes: seq<byte>) {
    InMemory(memory, area, number, start, |bytes|)
    && bytes == Slice(memory, area, number, start, |bytes|)
  }

  lemma SlicePart<T>(all: seq<T>, start: int, total: int, from: int, length: int)
    requires 0 <= start && 0 <= from && 0 <= length && from + length <= total && start + total <= |all|
    ensures all[start..start + total][from..from + length] == all[start + from..start + from + length]
  {
    var part := all[start..start + total][from..from + length];
    var same := all[start + from..start + from + length];
    forall i | 0 <= i < length ensures part[i] == same[i] {
    }
  }

  /** A part of a run that is held in memory is held in memory as well. */
  lemma HoldsPart(memory: Memory, area: Area, number: int, start: int, bytes: seq<byte>, from: int, length: int)
    requires Holds(memory, area, number, start, bytes)
    requires 0 <= from && 0 <= length && from + length <= |bytes|
    ensures Holds(memory, area, number, start + from, bytes[from..from + length])
  {
    if length != 0 {
      var all := memory[MemoryKey(area, number)];
      assert bytes == all[start..start + |bytes|];
      SlicePart(all, start, |bytes|, from, length);
    }
  }

  /** Two adjacent runs that are held in memory are held as one run. */
  lemma HoldsJoin(memory: Memory, area: Area, number: int, start: int, first: seq<byte>, second: seq<byte>)
    requires Holds(memory, area, number, start, first) && Holds(memory, area, number, start + |first|, second)
    ensures Holds(memory, area, number, start, first + second)
  {
    if first == [] {
      assert first + second == second;
    } else if second == [] {
      assert first + second == first;
    } else {
      var all := memory[MemoryKey(area, number)];
      assert first + second == all[start..start + |first|] + all[start + |first|..start + |first| + |second|];
    }
  }

  /** The bytes of a response that n bytes of data occupy: four header bytes, and a fill byte after odd data. */
  function WireBytes(n: int): int {
    4 + if n % 2 == 0 then n else n + 1
  }
}

/** The notation of PLC addresses such as "DB1.DBW4" or "I0.2", as the manual describes it. */
module PlcNotation {
  import opened PlcTypes

  datatype DataSize = Bit | Byte | Word | Dword

  datatype Address = Address(area: Area, areaNumber: int, dataSize: DataSize, startByte: int, startBit: int)

  // ---------- characters and numbers ----------

  predicate IsDigit(c: char) { '0' <= c <= '9' }

  predicate AllDigits(s: string) {
    forall i | 0 <= i < |s| :: IsDigit(s[i])
  }

  function Upper(c: char): char {
    if 'a' <= c <= 'z' then c - 'a' + 'A' else c
  }

  function UpperAll(s: string): (r: string)
    ensures |r| == |s| && forall i | 0 <= i < |s| :: r[i] == Upper(s[i])
  {
    seq(|s|, i requires 0 <= i < |s| => Upper(s[i]))
  }

  /** The number that a string of digits means; 0 for the empty string. */
  function Value(s: string): nat
    requires AllDigits(s)
  {
    if s == "" then 0 else 10 * Value(s[..|s| - 1]) + (s[|s| - 1] as int - '0' as int)
  }

  // ---------- words ----------

  /** The areas have English and German names. */
  function AreaNames(area: Area): set<string> {
    match area
    case Db => {"DB"}
    case Flags => {"F", "M"}
    case Inputs => {"I", "E"}
    case Outputs => {"Q", "A"}
    case Timer => {"T"}
    case Counter => {"C", "Z"}
  }

  /** A bit has a letter of its own in data blocks only. */
  function SizeName(dataSize: DataSize, isDb: bool): string {
    match dataSize
    case Bit => if isDb then "X" else ""
    case Byte => "B"
    case Word => "W"
    case Dword => "D"
  }

  /** Letters may be in upper or lower case. */
  ghost predicate NamesArea(s: string, area: Area) {
    UpperAll(s) in AreaNames(area)
  }

  ghost predicate NamesSize(s: string, dataSize: DataSize, isDb: bool) {
    UpperAll(s) == SizeName(dataSize, isDb)
  }

  ghost predicate Writes(s: string, n: int) {
    AllDigits(s) && Value(s) == n
  }

  // ---------- the notation ----------

  /** The parts of a written address; parts that an address does not have are empty. */
  datatype Reading = Reading(area: string, block: string, separator: string, again: string, size: string,
                             place: string, dot: string, bit: string)
  {
    function Text(): string {
      area + (block + (separator + (again + (size + PlaceText()))))
    }

    function PlaceText(): string {
      place + (dot + bit)
    }
  }

  /** Timers and counters are counted; they are always words. */
  predicate Counted(area: Area) {
    area.Timer? || area.Counter?
  }

  /** The start byte, and for a single bit the bit within it behind a dot. */
  ghost predicate PlaceFits(r: Reading, a: Address) {
    && Writes(r.place, a.startByte)
    && if a.dataSize.Bit? then r.dot == "." && |r.bit| == 1 && Writes(r.bit, a.startBit) && a.startBit <= 7
       else r.dot == r.bit == "" && a.startBit == 0 && r.place != ""
  }

  /** The width of the memory; counted areas have none. */
  ghost predicate SizeFits(r: Reading, a: Address) {
    if Counted(a.area) then r.size == "" && a.dataSize.Word? else NamesSize(r.size, a.dataSize, a.area.Db?)
  }

  /** The area, and for a data block its number, some character that is no digit, and the area once more. */
  ghost predicate AreaFits(r: Reading, a: Address) {
    && NamesArea(r.area, a.area)
    && if a.area.Db? then
         r.block != "" && Writes(r.block, a.areaNumber) && |r.separator| == 1 && !IsDigit(r.separator[0])
         && NamesArea(r.again, Db)
       else r.block == r.separator == r.again == "" && a.areaNumber == 0 && r.place != ""
  }

  /** The parts make up the address, with any separator, and maybe without the start byte of a bit in a data block. */
  ghost predicate Reads(r: Reading, a: Address) {
    AreaFits(r, a) && SizeFits(r, a) && PlaceFits(r, a)
  }

  /** The manual has a dot behind the number of a data block, and always a start byte. */
  predicate AsInManual(r: Reading) {
    r.place != "" && (r.block != "" ==> r.separator == ".")
  }

  /** The string means the address. */
  ghost predicate Means(s: string, a: Address) {
    exists r: Reading :: r.Text() == s && Reads(r, a)
  }

  /** The string means the address, and is written as in the manual. */
  ghost predicate MeansByManual(s: string, a: Address) {
    exists r: Reading :: r.Text() == s && Reads(r, a) && AsInManual(r)
  }
}

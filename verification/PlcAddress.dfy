/** PLC addresses: printing them and parsing them again. */
module PlcAddress {
  import opened PlcTypes
  import opened PlcNotation

  /** Creates an address from its parts, if they form a valid one. */
  function Create(area: Area, areaNumber: int, dataSize: DataSize, startByte: int, startBit: int): Option<Address> {
    if !area.Db? && areaNumber != 0 then None
    else if !dataSize.Bit? && startBit != 0 then None
    else if startBit < 0 || startBit > 7 then None
    else if startByte < 0 then None
    else Some(Address(area, areaNumber, dataSize, startByte, startBit))
  }

  predicate IsValid(a: Address) {
    Create(a.area, a.areaNumber, a.dataSize, a.startByte, a.startBit) == Some(a)
  }

  /** The address is valid, and its printed form keeps everything. */
  predicate IsPrintable(a: Address) {
    IsValid(a) && (a.area.Db? ==> a.areaNumber >= 0) && (a.area.Timer? || a.area.Counter? ==> a.dataSize.Word?)
  }

  // ---------- characters and numbers ----------

  function DigitChar(d: nat): (c: char)
    requires d < 10
    ensures IsDigit(c) && c as int - '0' as int == d
  {
    '0' + d as char
  }

  /** The decimal digits of a number. */
  function Digits(n: nat): (s: string)
    ensures s != "" && AllDigits(s)
  {
    if n < 10 then [DigitChar(n)] else Digits(n / 10) + [DigitChar(n % 10)]
  }

  /** A number as it is printed. */
  function Decimal(n: int): string {
    if n < 0 then "-" + Digits(-n) else Digits(n)
  }

  lemma {:induction false} ValueOfDigits(n: nat)
    ensures Value(Digits(n)) == n
  {
    if n >= 10 {
      ValueOfDigits(n / 10);
      assert Digits(n)[..|Digits(n)| - 1] == Digits(n / 10);
    } else {
      assert Digits(n)[..0] == "";
    }
  }

  /** The position of the first character that is no digit; the length if there is none. */
  function FirstNonDigit(s: string): (pos: nat)
    ensures pos <= |s| && AllDigits(s[..pos]) && (pos < |s| ==> !IsDigit(s[pos])) && forall i | 0 <= i < pos ::
        IsDigit(s[i])
  {
    if s == "" || !IsDigit(s[0]) then 0 else
      var rest := FirstNonDigit(s[1..]);
      assert s[..rest + 1] == [s[0]] + s[1..][..rest];
      1 + rest
  }

  lemma NonDigitBehind(d: string, rest: string)
    requires AllDigits(d) && (rest == "" || !IsDigit(rest[0]))
    ensures FirstNonDigit(d + rest) == |d| && (d + rest)[..|d|] == d
  {
    assert forall i | 0 <= i < |d| :: (d + rest)[i] == d[i];
    assert rest != "" ==> (d + rest)[|d|] == rest[0];
  }

  // ---------- areas and sizes ----------

  function AreaToString(area: Area): string {
    match area
    case Db => "DB"
    case Flags => "F"
    case Inputs => "I"
    case Outputs => "Q"
    case Timer => "T"
    case Counter => "C"
  }

  /** Areas may be named in English or in German, in upper or lower case. */
  function StringToArea(s: string): Option<Area> {
    var t := UpperAll(s);
    if |t| == 1 then
      if t[0] == 'F' || t[0] == 'M' then Some(Flags)
      else if t[0] == 'I' || t[0] == 'E' then Some(Inputs)
      else if t[0] == 'Q' || t[0] == 'A' then Some(Outputs)
      else if t[0] == 'T' then Some(Timer)
      else if t[0] == 'C' || t[0] == 'Z' then Some(Counter)
      else None
    else if |t| == 2 && t[0] == 'D' && t[1] == 'B' then Some(Db)
    else None
  }

  function StringToDataSize(s: string, isDb: bool): Option<DataSize> {
    var t := UpperAll(s);
    if t == "" && !isDb then Some(Bit)
    else if |t| == 1 then
      if t[0] == 'B' then Some(Byte)
      else if t[0] == 'W' then Some(Word)
      else if t[0] == 'D' then Some(Dword)
      else if t[0] == 'X' && isDb then Some(Bit)
      else None
    else None
  }

  // ---------- printing ----------

  /** What stands behind the area: for data blocks the number of the block comes first. */
  function Printed(a: Address): string {
    AreaToString(a.area) + (if a.area.Db? then Decimal(a.areaNumber) + "." + "DB" else "")
    + (if a.area.Timer? || a.area.Counter? then "" else SizeName(a.dataSize, a.area.Db?)) + PrintedPlace(a)
  }

  function PrintedPlace(a: Address): string {
    Decimal(a.startByte) + if a.dataSize.Bit? then "." + Decimal(a.startBit) else ""
  }

  /** Prints an address: if it can be printed, the string means it, and is written as in the manual. */
  method ToString(a: Address) returns (output: string)
    ensures output == Printed(a) && (IsPrintable(a) ==> MeansByManual(output, a))
  {
    if IsPrintable(a) {
      PrintedByManual(a);
    }
    output := AreaToString(a.area);
    if a.area.Db? {
      output := output + Decimal(a.areaNumber);
      output := output + ".";
      output := output + AreaToString(Db);
    }
    if !a.area.Timer? && !a.area.Counter? {
      output := output + SizeName(a.dataSize, a.area.Db?);
    }
    output := output + Decimal(a.startByte);
    if a.dataSize.Bit? {
      output := output + ".";
      output := output + Decimal(a.startBit);
    }
  }

  // ---------- parsing ----------

  /** The address that a string means. */
  function Parsed(s: string): (r: Option<Address>)
    ensures r.Some? ==> IsPrintable(r.value)
  {
    if |s| < 2 then None
    else if StringToArea(s[..2]).Some? then ParsedArea(StringToArea(s[..2]).value, s[2..])
    else if StringToArea(s[..1]).Some? then ParsedArea(StringToArea(s[..1]).value, s[1..])
    else None
  }

  /** The part behind the area. */
  function ParsedArea(area: Area, s: string): (r: Option<Address>)
    ensures r.Some? ==> IsPrintable(r.value)
  {
    if s == "" then None
    else if area.Db? then
      var pos := FirstNonDigit(s);
      if pos == |s| || pos == 0 then None
      else ParsedBlock(Value(s[..pos]), s[pos + 1..])
    else if area.Timer? || area.Counter? then
      if !AllDigits(s) then None else Some(Address(area, 0, Word, Value(s), 0))
    else ParsedSize(area, 0, s)
  }

  /** The part behind the number of a data block and the character that ends it. */
  function ParsedBlock(number: nat, s: string): (r: Option<Address>)
    ensures r.Some? ==> IsPrintable(r.value)
  {
    if |s| < 2 || StringToArea(s[..2]) != Some(Db) then None else ParsedSize(Db, number, s[2..])
  }

  /** The part that starts with the data size. */
  function ParsedSize(area: Area, number: nat, s: string): (r: Option<Address>)
    ensures r.Some? && !area.Timer? && !area.Counter? && (area.Db? || number == 0) ==> IsPrintable(r.value)
  {
    if |s| < 2 then None else
      match StringToDataSize(s[..1], area.Db?)
      case Some(dataSize) => ParsedPlace(area, number, dataSize, s[1..])
      case None => if !area.Db? && IsDigit(s[0]) then ParsedPlace(area, number, Bit, s) else None
  }

  /** The part behind the data size. */
  function ParsedPlace(area: Area, number: nat, dataSize: DataSize, s: string): (r: Option<Address>)
    ensures r.Some? && !area.Timer? && !area.Counter? && (area.Db? || number == 0) ==> IsPrintable(r.value)
  {
    if dataSize.Bit? then
      var pos := FirstNonDigit(s);
      if pos == |s| || s[pos] != '.' then None else
        var bit := s[pos + 1..];
        if |bit| != 1 || !AllDigits(bit) || Value(bit) > 7 then None
        else Some(Address(area, number, Bit, Value(s[..pos]), Value(bit)))
    else if !AllDigits(s) then None
    else Some(Address(area, number, dataSize, Value(s), 0))
  }

  /** Parses an address: the result is what the string means; there is none if and only if it means nothing. */
  method CreateFromString(s: string) returns (result: Option<Address>)
    ensures result == Parsed(s) && forall a :: result == Some(a) <==> Means(s, a)
  {
    forall a ensures Parsed(s) == Some(a) <==> Means(s, a) {
      ParsedIff(s, a);
    }
    var addressString := s;
    if |addressString| < 2 {
      return None;
    }
    var area := StringToArea(addressString[..2]);
    if area.Some? {
      addressString := addressString[2..];
    } else {
      area := StringToArea(addressString[..1]);
      if area.None? {
        return None;
      }
      addressString := addressString[1..];
    }
    if |addressString| < 1 {
      return None;
    }
    var areaNumber := 0;
    if area.value.Db? {
      var pos := FirstNonDigit(addressString);
      if pos == |addressString| {
        return None;
      }
      var areaNumberString := addressString[..pos];
      if |areaNumberString| == 0 {
        return None;
      }
      areaNumber := Value(areaNumberString);
      addressString := addressString[pos + 1..];
      if |addressString| < 2 {
        return None;
      }
      var tempArea := StringToArea(addressString[..2]);
      if tempArea != Some(Db) {
        return None;
      }
      addressString := addressString[2..];
    } else if area.value.Timer? || area.value.Counter? {
      if FirstNonDigit(addressString) != |addressString| {
        return None;
      }
      assert addressString[..|addressString|] == addressString;
      return Some(Address(area.value, 0, Word, Value(addressString), 0));
    }
    if |addressString| < 2 {
      return None;
    }
    var dataSize := StringToDataSize(addressString[..1], area.value.Db?);
    if dataSize.None? {
      if !area.value.Db? && IsDigit(addressString[0]) {
        dataSize := Some(Bit);
      } else {
        return None;
      }
    } else {
      addressString := addressString[1..];
    }
    result := CreateFromPlace(area.value, areaNumber, dataSize.value, addressString);
  }

  /** The end of the parser: the byte, and the bit of a bit address. */
  method CreateFromPlace(area: Area, areaNumber: nat, dataSize: DataSize, s: string) returns (result: Option<Address>)
    ensures result == ParsedPlace(area, areaNumber, dataSize, s)
  {
    var addressString, startByte, startBit := s, 0, 0;
    if dataSize.Bit? {
      var pos := FirstNonDigit(addressString);
      if pos == |addressString| || addressString[pos] != '.' {
        return None;
      }
      startByte := Value(addressString[..pos]);
      addressString := addressString[pos + 1..];
      if |addressString| != 1 || FirstNonDigit(addressString) != |addressString| {
        return None;
      }
      assert addressString[..1] == addressString;
      startBit := Value(addressString);
      if startBit < 0 || startBit > 7 {
        return None;
      }
    } else {
      if FirstNonDigit(addressString) != |addressString| {
        return None;
      }
      assert addressString[..|addressString|] == addressString;
      startByte := Value(addressString);
    }
    result := Some(Address(area, areaNumber, dataSize, startByte, startBit));
  }

  // ---------- the parser and the notation ----------

  lemma AreaIsNamed(s: string, area: Area)
    ensures StringToArea(s) == Some(area) <==> NamesArea(s, area)
  {
    var t := UpperAll(s);
    if |t| == 1 {
      assert t == [t[0]];
    } else if |t| == 2 {
      assert t == [t[0], t[1]];
    }
  }

  lemma SizeIsNamed(s: string, dataSize: DataSize, isDb: bool)
    ensures StringToDataSize(s, isDb) == Some(dataSize) <==> NamesSize(s, dataSize, isDb)
  {
    var t := UpperAll(s);
    if |t| == 1 {
      assert t == [t[0]];
    }
  }

  lemma Split<T>(a: seq<T>, b: seq<T>)
    ensures (a + b)[..|a|] == a && (a + b)[|a|..] == b
  {
  }

  // ---------- what is in the notation is parsed ----------

  lemma PlaceIsParsed(r: Reading, a: Address, number: nat)
    requires PlaceFits(r, a)
    ensures ParsedPlace(a.area, number, a.dataSize, r.PlaceText())
            == Some(Address(a.area, number, a.dataSize, a.startByte, a.startBit))
  {
    if a.dataSize.Bit? {
      NonDigitBehind(r.place, "." + r.bit);
      Split(r.place, "." + r.bit);
      assert r.PlaceText()[|r.place|] == '.' && r.PlaceText()[|r.place| + 1..] == r.bit;
    } else {
      assert r.PlaceText() == r.place;
    }
  }

  lemma SizeIsParsed(r: Reading, a: Address, number: nat)
    requires SizeFits(r, a) && PlaceFits(r, a) && !Counted(a.area) && (a.area.Db? || r.place != "")
    ensures ParsedSize(a.area, number, r.size + r.PlaceText())
            == Some(Address(a.area, number, a.dataSize, a.startByte, a.startBit))
  {
    PlaceIsParsed(r, a, number);
    SizeIsNamed(r.size, a.dataSize, a.area.Db?);
    var s := r.size + r.PlaceText();
    if r.size == "" {
      assert s == r.PlaceText() && s[0] == r.place[0];
      DigitIsNoSize(s[..1]);
    } else {
      Split(r.size, r.PlaceText());
      assert |r.size| == |UpperAll(r.size)| == 1;
    }
  }

  lemma BlockIsParsed(r: Reading, a: Address)
    requires Reads(r, a) && a.area.Db?
    ensures ParsedArea(Db, r.block + (r.separator + (r.again + (r.size + r.PlaceText())))) == Some(a)
  {
    var behind := r.again + (r.size + r.PlaceText());
    SizeIsParsed(r, a, a.areaNumber);
    AreaIsNamed(r.again, Db);
    assert |r.again| == |UpperAll(r.again)| == 2;
    Split(r.again, r.size + r.PlaceText());
    NonDigitBehind(r.block, r.separator + behind);
    assert (r.separator + behind)[1..] == behind;
    Split(r.block, r.separator + behind);
    var s := r.block + (r.separator + behind);
    assert s[|r.block| + 1..] == s[|r.block|..][1..];
  }

  lemma BehindArea(r: Reading, a: Address)
    requires Reads(r, a)
    ensures var rest := r.block + (r.separator + (r.again + (r.size + r.PlaceText())));
            ParsedArea(a.area, rest) == Some(a) && rest != ""
  {
    if a.area.Db? {
      BlockIsParsed(r, a);
    } else {
      assert r.block + (r.separator + (r.again + (r.size + r.PlaceText()))) == r.size + r.PlaceText();
      if Counted(a.area) {
        assert r.size + r.PlaceText() == r.place;
      } else {
        SizeIsParsed(r, a, 0);
      }
    }
  }

  /** Every string in the notation is parsed to the address that it means. */
  lemma ReadingIsParsed(r: Reading, a: Address)
    requires Reads(r, a)
    ensures Parsed(r.Text()) == Some(a)
  {
    var rest := r.block + (r.separator + (r.again + (r.size + r.PlaceText())));
    BehindArea(r, a);
    AreaIsNamed(r.area, a.area);
    assert |r.area| == |UpperAll(r.area)|;
    Split(r.area, rest);
    if !a.area.Db? {
      var two := r.Text()[..2];
      assert two[0] == r.area[0] && UpperAll(two)[0] == UpperAll(r.area)[0] != 'D';
    }
  }

  // ---------- what is parsed is in the notation ----------

  lemma PlaceHasReading(dataSize: DataSize, s: string, a: Address) returns (r: Reading)
    requires ParsedPlace(a.area, if a.areaNumber >= 0 then a.areaNumber else 0, dataSize, s) == Some(a) && s != ""
    ensures r.PlaceText() == s && PlaceFits(r, a) && (dataSize.Bit? && IsDigit(s[0]) ==> r.place != "")
  {
    if dataSize.Bit? {
      var pos := FirstNonDigit(s);
      r := Reading("", "", "", "", "", s[..pos], ".", s[pos + 1..]);
      assert s == s[..pos] + ("." + s[pos + 1..]);
    } else {
      r := Reading("", "", "", "", "", s, "", "");
    }
  }

  /** The place does not depend on the other parts. */
  lemma SamePlace(r: Reading, q: Reading, a: Address)
    requires r.place == q.place && r.dot == q.dot && r.bit == q.bit
    ensures r.PlaceText() == q.PlaceText() && (PlaceFits(r, a) <==> PlaceFits(q, a))
  {
  }

  lemma SizeHasReading(s: string, a: Address) returns (r: Reading)
    requires !Counted(a.area) && a.areaNumber >= 0 && ParsedSize(a.area, a.areaNumber, s) == Some(a)
    ensures r.size + r.PlaceText() == s && SizeFits(r, a) && PlaceFits(r, a) && (!a.area.Db? ==> r.place != "")
  {
    var size := StringToDataSize(s[..1], a.area.Db?);
    if size.Some? {
      var q := PlaceHasReading(size.value, s[1..], a);
      r := q.(size := s[..1]);
      SamePlace(q, r, a);
      SizeIsNamed(s[..1], a.dataSize, a.area.Db?);
      assert s == s[..1] + s[1..];
    } else {
      var q := PlaceHasReading(Bit, s, a);
      r := q.(size := "");
      SamePlace(q, r, a);
      assert s == "" + s;
    }
  }

  /** The parts of what stands behind the area of a data block. */
  lemma BlockParts(s: string, a: Address) returns (block: string, separator: char, again: string, rest: string)
    requires ParsedArea(Db, s) == Some(a)
    ensures block != "" && Writes(block, a.areaNumber) && a.areaNumber >= 0 && !IsDigit(separator) && a.area.Db?
    ensures NamesArea(again, Db) && ParsedSize(Db, a.areaNumber, rest) == Some(a)
    ensures s == block + ([separator] + (again + rest)) && |block| == FirstNonDigit(s) < |s| && separator == s[|block|]
  {
    var pos := FirstNonDigit(s);
    var behind := s[pos + 1..];
    block, separator, again, rest := s[..pos], s[pos], behind[..2], behind[2..];
    AreaIsNamed(again, Db);
    assert behind == again + rest;
    SizeKept(Value(block), rest);
  }

  lemma SizeKept(number: int, s: string)
    requires number >= 0 && ParsedSize(Db, number, s).Some?
    ensures ParsedSize(Db, number, s).value.area == Db && ParsedSize(Db, number, s).value.areaNumber == number
  {
  }

  lemma BlockHasReading(name: string, s: string, a: Address) returns (r: Reading)
    requires NamesArea(name, Db) && ParsedArea(Db, s) == Some(a)
    ensures r.area == name && r.block + (r.separator + (r.again + (r.size + r.PlaceText()))) == s && Reads(r, a)
    ensures r.block != "" && |r.block| == FirstNonDigit(s) < |s| && r.separator == [s[|r.block|]]
  {
    var block, separator, again, rest := BlockParts(s, a);
    var q := SizeHasReading(rest, a);
    r := Reading(name, block, [separator], again, q.size, q.place, q.dot, q.bit);
    SamePlace(q, r, a);
  }

  lemma AreaHasReading(name: string, s: string, a: Address) returns (r: Reading)
    requires NamesArea(name, a.area) && ParsedArea(a.area, s) == Some(a)
    ensures r.area == name && r.block + (r.separator + (r.again + (r.size + r.PlaceText()))) == s && Reads(r, a)
  {
    if a.area.Db? {
      r := BlockHasReading(name, s, a);
    } else if Counted(a.area) {
      r := Reading(name, "", "", "", "", s, "", "");
      assert "" + ("" + ("" + ("" + (s + ("" + ""))))) == s;
    } else {
      var q := SizeHasReading(s, a);
      r := Reading(name, "", "", "", q.size, q.place, q.dot, q.bit);
      SamePlace(q, r, a);
      assert "" + ("" + ("" + s)) == s;
    }
  }

  /** Every string that is parsed is in the notation. */
  lemma ParsedHasReading(s: string) returns (r: Reading)
    requires Parsed(s).Some?
    ensures r.Text() == s && Reads(r, Parsed(s).value)
  {
    var n, a := if StringToArea(s[..2]).Some? then 2 else 1, Parsed(s).value;
    assert ParsedArea(StringToArea(s[..n]).value, s[n..]) == Some(a);
    AreaKept(StringToArea(s[..n]).value, s[n..]);
    AreaIsNamed(s[..n], a.area);
    r := AreaHasReading(s[..n], s[n..], a);
    assert s == s[..n] + s[n..];
  }

  lemma AreaKept(area: Area, s: string)
    requires ParsedArea(area, s).Some?
    ensures ParsedArea(area, s).value.area == area
  {
  }

  /**
   * The parser accepts exactly the notation, with any character that is no digit behind the
   * number of a data block, and with no start byte for a bit of a data block.
   */
  lemma ParsedIff(s: string, a: Address)
    ensures Parsed(s) == Some(a) <==> Means(s, a)
  {
    if Parsed(s) == Some(a) {
      var r := ParsedHasReading(s);
    }
    if Means(s, a) {
      var r: Reading :| r.Text() == s && Reads(r, a);
      ReadingIsParsed(r, a);
    }
  }

  /** No string means two addresses. */
  lemma NotAmbiguous(s: string, a: Address, b: Address)
    requires Means(s, a) && Means(s, b)
    ensures a == b
  {
    ParsedIff(s, a);
    ParsedIff(s, b);
  }

  /** In the address of a data block, a dot follows the number, and a digit follows the width. */
  predicate Punctuated(s: string) {
    |s| >= 2 && StringToArea(s[..2]) == Some(Db) ==>
      var pos := 2 + FirstNonDigit(s[2..]);
      pos + 4 < |s| && s[pos] == '.' && IsDigit(s[pos + 4])
  }

  lemma BlockPositions(r: Reading, a: Address)
    requires Reads(r, a) && a.area.Db?
    ensures var s, pos := r.Text(), 2 + |r.block|;
            && |r.area| == 2 && |s| > pos + 4 && StringToArea(s[..2]) == Some(Db) && FirstNonDigit(s[2..]) == |r.block|
            && s[pos] == r.separator[0] && s[pos + 4] == r.PlaceText()[0]
  {
    BlockLengths(r, a);
    PartsBehind(r.area, r.block, r.separator, r.again, r.size, r.PlaceText());
  }

  lemma BlockLengths(r: Reading, a: Address)
    requires Reads(r, a) && a.area.Db?
    ensures |r.area| == 2 && StringToArea(r.area) == Some(Db) && |r.again| == 2 && |r.size| == 1 && |r.separator| == 1
    ensures r.PlaceText() != "" && AllDigits(r.block) && !IsDigit(r.separator[0])
  {
    AreaIsNamed(r.area, Db);
    assert |r.area| == |UpperAll(r.area)| == 2 && |r.again| == |UpperAll(r.again)| == 2;
    assert |r.size| == |UpperAll(r.size)| == 1;
  }

  lemma PartsBehind(area: string, block: string, separator: string, again: string, size: string, place: string)
    requires |area| == 2 && |separator| == 1 && |again| == 2 && |size| == 1 && place != ""
    requires AllDigits(block) && !IsDigit(separator[0])
    ensures var s, pos := area + (block + (separator + (again + (size + place)))), 2 + |block|;
            && |s| > pos + 4 && s[..2] == area && FirstNonDigit(s[2..]) == |block|
            && s[pos] == separator[0] && s[pos + 4] == place[0]
  {
    var behind := separator + (again + (size + place));
    FifthIsPlace(separator, again, size, place);
    Split(area, block + behind);
    NonDigitBehind(block, behind);
    Behind(area, block, behind, 0);
    Behind(area, block, behind, 4);
  }

  lemma FifthIsPlace(separator: string, again: string, size: string, place: string)
    requires |separator| == 1 && |again| == 2 && |size| == 1 && place != ""
    ensures var behind := separator + (again + (size + place));
            |behind| > 4 && behind[0] == separator[0] && behind[4] == place[0]
  {
    assert (size + place)[1] == place[0];
    assert (again + (size + place))[3] == (size + place)[1];
  }

  lemma Behind(area: string, block: string, behind: string, k: nat)
    requires k < |behind|
    ensures (area + (block + behind))[|area| + |block| + k] == behind[k]
  {
    assert (block + behind)[|block| + k] == behind[k];
  }

  lemma ManualIffPunctuated(r: Reading, a: Address)
    requires Reads(r, a)
    ensures AsInManual(r) <==> Punctuated(r.Text())
  {
    if a.area.Db? {
      BlockPositions(r, a);
      PlaceOrDot(r, a);
      assert r.separator == [r.separator[0]];
    } else {
      NoBlockNamed(r, a);
    }
  }

  /** The text of the place begins with a digit unless the start byte is missing. */
  lemma PlaceOrDot(r: Reading, a: Address)
    requires Reads(r, a) && a.area.Db?
    ensures r.PlaceText() != "" && (IsDigit(r.PlaceText()[0]) <==> r.place != "")
  {
  }

  lemma NoBlockNamed(r: Reading, a: Address)
    requires Reads(r, a) && !a.area.Db?
    ensures AsInManual(r) && Punctuated(r.Text())
  {
    AreaIsNamed(r.area, a.area);
    NoSecondLetter(r.area, r.block + (r.separator + (r.again + (r.size + r.PlaceText()))));
  }

  lemma NoSecondLetter(area: string, rest: string)
    requires StringToArea(area).Some? && StringToArea(area) != Some(Db)
    ensures |area + rest| >= 2 ==> StringToArea((area + rest)[..2]) != Some(Db)
  {
    if |area + rest| >= 2 {
      assert UpperAll((area + rest)[..2])[0] == UpperAll(area)[0];
    }
  }

  /** What the parser accepts is written as in the manual if and only if it has the dot and the start byte. */
  lemma ByManualIff(s: string, a: Address)
    ensures MeansByManual(s, a) <==> Parsed(s) == Some(a) && Punctuated(s)
  {
    if MeansByManual(s, a) {
      var r: Reading :| r.Text() == s && Reads(r, a) && AsInManual(r);
      ReadingIsParsed(r, a);
      ManualIffPunctuated(r, a);
    }
    if Parsed(s) == Some(a) && Punctuated(s) {
      var r := ParsedHasReading(s);
      ManualIffPunctuated(r, a);
    }
  }

  lemma OtherSeparator(front: string, x: char, c: char, tail: string)
    ensures (front + ([x] + tail))[|front| := c] == front + ([c] + tail)
  {
  }

  lemma TextFromSeparator(r: Reading)
    ensures r.Text() == (r.area + r.block) + (r.separator + (r.again + (r.size + r.PlaceText())))
  {
    var tail := r.separator + (r.again + (r.size + r.PlaceText()));
    assert r.area + (r.block + tail) == (r.area + r.block) + tail;
  }

  /** Whatever stands in the place of the dot behind the number of a data block, the address is the same. */
  lemma AnySeparator(s: string, c: char)
    requires Parsed(s).Some? && Parsed(s).value.area.Db? && !IsDigit(c)
    ensures var pos := 2 + FirstNonDigit(s[2..]); pos < |s| && Parsed(s[pos := c]) == Parsed(s)
  {
    var r := ParsedHasReading(s);
    var a := Parsed(s).value;
    BlockPositions(r, a);
    var q := r.(separator := [c]);
    SamePlace(r, q, a);
    ReadingIsParsed(q, a);
    TextFromSeparator(r);
    TextFromSeparator(q);
    assert r.separator == [r.separator[0]] && |r.area + r.block| == 2 + |r.block|;
    OtherSeparator(r.area + r.block, r.separator[0], c, r.again + (r.size + r.PlaceText()));
  }

  lemma UpperAlready(s: string)
    requires forall i | 0 <= i < |s| :: !('a' <= s[i] <= 'z')
    ensures UpperAll(s) == s
  {
  }

  lemma OneDigit(d: char)
    requires IsDigit(d)
    ensures Writes([d], d as int - '0' as int)
  {
    assert [d][..0] == "";
  }

  /** Without the dot, the address is accepted. */
  lemma AcceptedWithoutDot(a: Address)
    ensures Parsed("DB1xDBB0") == Some(Address(Db, 1, Byte, 0, 0)) && !MeansByManual("DB1xDBB0", a)
  {
    var r, b := Reading("DB", "1", "x", "DB", "B", "0", "", ""), Address(Db, 1, Byte, 0, 0);
    UpperAlready("DB");
    UpperAlready("B");
    OneDigit('0');
    OneDigit('1');
    assert r.Text() == "DB1xDBB0" && Reads(r, b);
    ReadingIsParsed(r, b);
    ManualIffPunctuated(r, b);
    ByManualIff("DB1xDBB0", a);
  }

  /** Without the start byte of a bit in a data block, the address is accepted; the byte is 0 then. */
  lemma AcceptedWithoutByte(a: Address)
    ensures Parsed("DB1.DBX.5") == Some(Address(Db, 1, Bit, 0, 5)) && !MeansByManual("DB1.DBX.5", a)
  {
    var r, b := Reading("DB", "1", ".", "DB", "X", "", ".", "5"), Address(Db, 1, Bit, 0, 5);
    UpperAlready("DB");
    UpperAlready("X");
    OneDigit('1');
    OneDigit('5');
    assert r.Text() == "DB1.DBX.5" && Reads(r, b);
    ReadingIsParsed(r, b);
    ManualIffPunctuated(r, b);
    ByManualIff("DB1.DBX.5", a);
  }

  /** The printed form is written as in the manual. */
  lemma PrintedByManual(a: Address)
    requires IsPrintable(a)
    ensures MeansByManual(Printed(a), a)
  {
    var r := PrintedReading(a);
  }

  lemma PrintedReading(a: Address) returns (r: Reading)
    requires IsPrintable(a)
    ensures r.Text() == Printed(a) && Reads(r, a) && AsInManual(r)
  {
    var q := PlaceReading(a);
    var area, size := AreaToString(a.area), if Counted(a.area) then "" else SizeName(a.dataSize, a.area.Db?);
    r := if a.area.Db? then Reading(area, Digits(a.areaNumber), ".", "DB", size, q.place, q.dot, q.bit)
         else Reading(area, "", "", "", size, q.place, q.dot, q.bit);
    SamePlace(q, r, a);
    if a.area.Db? {
      BlockText(r);
    } else {
      OtherText(r);
    }
    PrintedWords(r, a);
  }

  lemma PrintedWords(r: Reading, a: Address)
    requires IsPrintable(a) && r.area == AreaToString(a.area) && r.place != ""
    requires r.size == if Counted(a.area) then "" else SizeName(a.dataSize, a.area.Db?)
    requires if a.area.Db? then r.block == Digits(a.areaNumber) && r.separator == "." && r.again == "DB"
             else r.block == r.separator == r.again == ""
    ensures AreaFits(r, a) && SizeFits(r, a) && AsInManual(r)
  {
    UpperAlready(r.area);
    UpperAlready(r.size);
    if a.area.Db? {
      ValueOfDigits(a.areaNumber);
    }
  }

  lemma BlockText(r: Reading)
    requires r.separator == "." && r.again == "DB"
    ensures r.Text() == r.area + (r.block + "." + "DB") + r.size + r.PlaceText()
  {
    var tail := r.size + r.PlaceText();
    assert r.block + ("." + ("DB" + tail)) == (r.block + "." + "DB") + tail;
  }

  lemma OtherText(r: Reading)
    requires r.block == r.separator == r.again == ""
    ensures r.Text() == r.area + "" + r.size + r.PlaceText()
  {
    var tail := r.size + r.PlaceText();
    assert "" + ("" + ("" + tail)) == tail;
  }

  lemma PlaceReading(a: Address) returns (r: Reading)
    requires IsValid(a)
    ensures r.PlaceText() == PrintedPlace(a) && PlaceFits(r, a) && r.place != ""
  {
    ValueOfDigits(a.startByte);
    ValueOfDigits(a.startBit);
    if a.dataSize.Bit? {
      r := Reading("", "", "", "", "", Digits(a.startByte), ".", Digits(a.startBit));
    } else {
      r := Reading("", "", "", "", "", Digits(a.startByte), "", "");
    }
  }

  // ---------- the round trip ----------

  lemma DigitIsNoSize(s: string)
    requires |s| == 1 && IsDigit(s[0])
    ensures StringToDataSize(s, false) == None
  {
    assert UpperAll(s)[0] == s[0];
  }

  lemma TwoLetters(s: string, rest: string)
    requires |s| == 2
    ensures (s + rest)[..2] == s && (s + rest)[2..] == rest
  {
  }

  lemma OneLetter(area: Area, rest: string)
    requires !area.Db? && rest != ""
    ensures Parsed(AreaToString(area) + rest) == ParsedArea(area, rest)
  {
    var letter := AreaToString(area);
    var s := letter + rest;
    assert s[..1] == letter && s[1..] == rest && s[..2][0] == letter[0];
    assert UpperAll(letter)[0] == letter[0] && UpperAll(s[..2])[0] == letter[0];
  }

  lemma NegativeBlock(a: Address)
    requires a.area.Db? && a.areaNumber < 0
    ensures Parsed(Printed(a)) == None
  {
    var rest := Decimal(a.areaNumber) + "." + "DB" + SizeName(a.dataSize, true) + PrintedPlace(a);
    TwoLetters("DB", rest);
    assert Printed(a) == "DB" + rest && rest[0] == '-';
  }

  lemma CountedRoundTrip(a: Address)
    requires IsValid(a) && (a.area.Timer? || a.area.Counter?)
    ensures Parsed(Printed(a)) == if a.dataSize.Bit? then None else Some(a.(dataSize := Word))
  {
    var place := PrintedPlace(a);
    OneLetter(a.area, place);
    assert Printed(a) == AreaToString(a.area) + place;
    ValueOfDigits(a.startByte);
    if a.dataSize.Bit? {
      var d := Digits(a.startByte);
      assert place[|d|] == '.';
    } else {
      assert place == Digits(a.startByte);
    }
  }

  /**
   * Printing a valid address and parsing it again gives the same address if and only if
   * the number of a data block is not negative and a timer or counter has word size.
   */
  lemma RoundTripIff(a: Address)
    requires IsValid(a)
    ensures Parsed(Printed(a)) == Some(a) <==> IsPrintable(a)
  {
    if IsPrintable(a) {
      var r := PrintedReading(a);
      ReadingIsParsed(r, a);
    } else if a.area.Db? {
      NegativeBlock(a);
    } else {
      CountedRoundTrip(a);
    }
  }

  /**
   * What becomes of any valid address that is printed and parsed again: a negative block
   * number and a single bit of a timer or counter are rejected, other sizes of a timer or
   * counter become a word, and everything else stays the same.
   */
  lemma PrintedIsParsed(a: Address)
    requires IsValid(a)
    ensures Parsed(Printed(a)) == if IsPrintable(a) then Some(a)
                                  else if a.area.Db? || a.dataSize.Bit? then None
                                  else Some(a.(dataSize := Word))
  {
    RoundTripIff(a);
    if a.area.Db? {
      if !IsPrintable(a) {
        NegativeBlock(a);
      }
    } else if Counted(a.area) {
      CountedRoundTrip(a);
    }
  }

  /** Printing gives a normal form: it is parsed to the same address as the string it comes from. */
  lemma NormalForm(s: string)
    requires Parsed(s).Some?
    ensures Parsed(Printed(Parsed(s).value)) == Parsed(s)
  {
    RoundTripIff(Parsed(s).value);
  }

  // ---------- upper and lower case ----------

  lemma UpperTwice(s: string)
    ensures UpperAll(UpperAll(s)) == UpperAll(s) && (AllDigits(UpperAll(s)) <==> AllDigits(s))
        && (AllDigits(s) ==> UpperAll(s) == s)
  {
    assert forall i | 0 <= i < |s| :: IsDigit(UpperAll(s)[i]) <==> IsDigit(s[i]);
  }

  lemma UpperPrefix(s: string, to: nat)
    requires to <= |s|
    ensures UpperAll(s)[..to] == UpperAll(s[..to])
  {
  }

  lemma UpperSuffix(s: string, from: nat)
    requires from <= |s|
    ensures UpperAll(s)[from..] == UpperAll(s[from..])
  {
  }

  lemma WordsCase(s: string, isDb: bool)
    ensures StringToArea(UpperAll(s)) == StringToArea(s)
        && StringToDataSize(UpperAll(s), isDb) == StringToDataSize(s, isDb)
  {
    UpperTwice(s);
  }

  lemma {:induction false} UpperFirstNonDigit(s: string)
    ensures FirstNonDigit(UpperAll(s)) == FirstNonDigit(s)
  {
    if s != "" {
      UpperFirstNonDigit(s[1..]);
      UpperSuffix(s, 1);
    }
  }

  /** Letters may be written in upper or lower case. */
  lemma CaseDoesNotMatter(s: string)
    ensures Parsed(UpperAll(s)) == Parsed(s)
  {
    if |s| >= 2 {
      UpperPrefix(s, 2);
      UpperPrefix(s, 1);
      UpperSuffix(s, 2);
      UpperSuffix(s, 1);
      WordsCase(s[..2], false);
      WordsCase(s[..1], false);
      if StringToArea(s[..2]).Some? {
        AreaCase(StringToArea(s[..2]).value, s[2..]);
      } else if StringToArea(s[..1]).Some? {
        AreaCase(StringToArea(s[..1]).value, s[1..]);
      }
    }
  }

  lemma AreaCase(area: Area, s: string)
    ensures ParsedArea(area, UpperAll(s)) == ParsedArea(area, s)
  {
    UpperTwice(s);
    if area.Db? {
      UpperFirstNonDigit(s);
      var pos := FirstNonDigit(s);
      UpperPrefix(s, pos);
      UpperTwice(s[..pos]);
      if pos < |s| {
        UpperSuffix(s, pos + 1);
        BlockCase(Value(s[..pos]), s[pos + 1..]);
      }
    } else if !area.Timer? && !area.Counter? {
      SizeCase(area, 0, s);
    }
  }

  lemma BlockCase(number: nat, s: string)
    ensures ParsedBlock(number, UpperAll(s)) == ParsedBlock(number, s)
  {
    if |s| >= 2 {
      UpperPrefix(s, 2);
      WordsCase(s[..2], true);
      UpperSuffix(s, 2);
      SizeCase(Db, number, s[2..]);
    }
  }

  lemma SizeCase(area: Area, number: nat, s: string)
    ensures ParsedSize(area, number, UpperAll(s)) == ParsedSize(area, number, s)
  {
    if |s| >= 2 {
      UpperPrefix(s, 1);
      WordsCase(s[..1], area.Db?);
      UpperSuffix(s, 1);
      var size := StringToDataSize(s[..1], area.Db?);
      if size.Some? {
        PlaceCase(area, number, size.value, s[1..]);
      } else {
        PlaceCase(area, number, Bit, s);
        assert IsDigit(UpperAll(s)[0]) <==> IsDigit(s[0]);
      }
    }
  }

  lemma PlaceCase(area: Area, number: nat, dataSize: DataSize, s: string)
    ensures ParsedPlace(area, number, dataSize, UpperAll(s)) == ParsedPlace(area, number, dataSize, s)
  {
    UpperTwice(s);
    if dataSize.Bit? {
      UpperFirstNonDigit(s);
      var pos := FirstNonDigit(s);
      UpperPrefix(s, pos);
      UpperTwice(s[..pos]);
      if pos < |s| {
        UpperSuffix(s, pos + 1);
        UpperTwice(s[pos + 1..]);
      }
    }
  }
}

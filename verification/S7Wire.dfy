/** The bytes of S7 read and write telegrams: item references, answers, their layout and the walk over it. */
module S7Wire {
  import opened PlcTypes

  // ---------- constants ----------

  const S7_AREA_PE: byte := 0x81
  const S7_AREA_PA: byte := 0x82
  const S7_AREA_MK: byte := 0x83
  const S7_AREA_DB: byte := 0x84
  const S7_AREA_CT: byte := 0x1C
  const S7_AREA_TM: byte := 0x1D

  const MAX_VARS := 20

  const S7_WL_BIT := 0x01
  const S7_WL_BYTE := 0x02
  const S7_WL_CHAR := 0x03
  const S7_WL_WORD := 0x04
  const S7_WL_INT := 0x05
  const S7_WL_DWORD := 0x06
  const S7_WL_DINT := 0x07
  const S7_WL_REAL := 0x08
  const S7_WL_COUNTER := 0x1C
  const S7_WL_TIMER := 0x1D

  const TS_RES_BIT: byte := 0x03
  const TS_RES_BYTE: byte := 0x04
  const TS_RES_INT: byte := 0x05
  const TS_RES_REAL: byte := 0x07
  const TS_RES_OCTET: byte := 0x09

  const PDU_FUNC_READ: byte := 0x04
  const PDU_FUNC_WRITE: byte := 0x05

  const ISO_PAYLOAD_SIZE := 4096

  const ERR_ISO_PDU_OVERFLOW := 0x0008_0000
  const ERR_CLI_INVALID_PARAMS := 0x0020_0000
  const ERR_CLI_TOO_MANY_ITEMS := 0x0040_0000
  const ERR_CLI_INVALID_WORD_LEN := 0x0050_0000
  const ERR_CLI_PARTIAL_DATA_WRITTEN := 0x0060_0000
  const ERR_CLI_SIZE_OVER_PDU := 0x0070_0000
  const ERR_CLI_INVALID_PLC_ANSWER := 0x0080_0000
  const ERR_CLI_ADDRESS_OUT_OF_RANGE := 0x0090_0000
  const ERR_CLI_INVALID_TRANSPORT_SIZE := 0x00A0_0000
  const ERR_CLI_WRITE_DATA_SIZE_MISMATCH := 0x00B0_0000
  const ERR_CLI_ITEM_NOT_AVAILABLE := 0x00C0_0000
  const ERR_CLI_INVALID_VALUE := 0x00D0_0000
  const ERR_CLI_FUN_NOT_AVAILABLE := 0x0140_0000
  const ERR_CLI_NEED_PASSWORD := 0x01D0_0000
  const ERR_CLI_INVALID_PASSWORD := 0x01E0_0000
  const ERR_CLI_NO_PASSWORD := 0x01F0_0000
  const ERR_CLI_FUNCTION_REFUSED := 0x0230_0000

  /** The error of the client library for an error code of the PLC. */
  function CpuError(error: int): (e: int)
    ensures (e == 0 <==> error == 0) && (e != 0 ==> e >= 0x10_0000) && e != ERR_CLI_PARTIAL_DATA_WRITTEN
  {
    match error
    case 0 => 0
    case 0x0005 => ERR_CLI_ADDRESS_OUT_OF_RANGE
    case 0x0006 => ERR_CLI_INVALID_TRANSPORT_SIZE
    case 0x0007 => ERR_CLI_WRITE_DATA_SIZE_MISMATCH
    case 0x000A => ERR_CLI_ITEM_NOT_AVAILABLE
    case 0xD209 => ERR_CLI_ITEM_NOT_AVAILABLE
    case 0x8500 => ERR_CLI_SIZE_OVER_PDU
    case 0xDC01 => ERR_CLI_INVALID_VALUE
    case 0x8104 => ERR_CLI_FUN_NOT_AVAILABLE
    case 0xD241 => ERR_CLI_NEED_PASSWORD
    case 0xD602 => ERR_CLI_INVALID_PASSWORD
    case 0xD604 => ERR_CLI_NO_PASSWORD
    case 0xD605 => ERR_CLI_NO_PASSWORD
    case _ => ERR_CLI_FUNCTION_REFUSED
  }

  /** The size of an element in bytes; 0 for an unknown word length. */
  function DataSizeByte(wordLength: int): int {
    match wordLength
    case S7_WL_BIT => 1
    case S7_WL_BYTE => 1
    case S7_WL_CHAR => 1
    case S7_WL_WORD => 2
    case S7_WL_DWORD => 4
    case S7_WL_INT => 2
    case S7_WL_DINT => 4
    case S7_WL_REAL => 4
    case S7_WL_COUNTER => 2
    case S7_WL_TIMER => 2
    case _ => 0
  }

  /** Word lengths whose addresses count bits of single elements instead of bytes. */
  predicate ElementAddressed(wordLength: int) {
    wordLength == S7_WL_BIT || wordLength == S7_WL_COUNTER || wordLength == S7_WL_TIMER
  }

  function AreaCode(area: Area): byte {
    match area
    case Db => S7_AREA_DB
    case Flags => S7_AREA_MK
    case Inputs => S7_AREA_PE
    case Outputs => S7_AREA_PA
    case Timer => S7_AREA_TM
    case Counter => S7_AREA_CT
  }

  // ---------- numbers ----------

  function Hi(w: int): byte { w / 256 % 256 }

  function Lo(w: int): byte { w % 256 }

  /** The word at `at`, high byte first. */
  function WordAt(bytes: seq<byte>, at: nat): int
    requires at + 2 <= |bytes|
  {
    256 * bytes[at] as int + bytes[at + 1] as int
  }

  /** Two bytes keep a word modulo 2^16. */
  lemma WordStands(bytes: seq<byte>, at: nat, w: int)
    requires at + 2 <= |bytes| && bytes[at] == Hi(w) && bytes[at + 1] == Lo(w)
    ensures WordAt(bytes, at) == w % 0x1_0000
  {
  }

  /** The address in three bytes at `at`, most significant byte first. */
  function AddressAt(bytes: seq<byte>, at: nat): int
    requires at + 3 <= |bytes|
  {
    256 * WordAt(bytes, at) + bytes[at + 2] as int
  }

  /** The three bytes at `at` are those that the client writes for the address. */
  ghost predicate AddressBytes(bytes: seq<byte>, at: nat, address: int)
    requires at + 3 <= |bytes|
  {
    bytes[at] == address / 256 / 256 % 256 && bytes[at + 1] == address / 256 % 256 && bytes[at + 2] == address % 256
  }

  /** Three bytes keep an address modulo 2^24, so exactly the addresses below 2^24 arrive as they were. */
  lemma AddressArrives(bytes: seq<byte>, at: nat, address: int)
    requires 0 <= address && at + 3 <= |bytes| && AddressBytes(bytes, at, address)
    ensures AddressAt(bytes, at) == address % 0x100_0000 && (AddressAt(bytes, at) == address <==> address < 0x100_0000)
  {
    var middle := address / 256;
    var high := middle / 256;
    assert address == 256 * middle + address % 256 && middle == 256 * high + middle % 256;
    assert high == 256 * (high / 256) + high % 256;
  }

  // ---------- item references ----------

  /** The header of a request: what it is, and the lengths of its parameters and data. */
  predicate Headed(req: seq<byte>, parLen: int, dataLen: int) {
    && |req| >= 10 && req[0] == 0x32 && req[1] == 0x01 && req[2] == 0 && req[3] == 0
    && WordAt(req, 6) == parLen && WordAt(req, 8) == dataLen
  }

  /** The three bytes that introduce an item reference. */
  predicate ItemHead(bytes: seq<byte>, at: int) {
    0 <= at && at + 3 <= |bytes| && bytes[at] == 0x12 && bytes[at + 1] == 0x0A && bytes[at + 2] == 0x10
  }

  /** What a request says about one item. */
  datatype Ref = Ref(transport: int, length: int, number: int, areaCode: int, address: int)

  /** The item reference of twelve bytes at `at`. */
  function RefAt(bytes: seq<byte>, at: int): Ref
    requires 0 <= at && at + 12 <= |bytes|
  {
    Ref(bytes[at + 3], WordAt(bytes, at + 4), WordAt(bytes, at + 6), bytes[at + 8],
        AddressAt(bytes, at + 9))
  }

  function RefsFrom(bytes: seq<byte>, at: int, n: nat): (refs: seq<Ref>)
    requires 0 <= at && at + 12 * n <= |bytes|
    ensures |refs| == n && forall k | 0 <= k < n :: refs[k] == RefAt(bytes, at + 12 * k)
  {
    if n == 0 then [] else RefsFrom(bytes, at, n - 1) + [RefAt(bytes, at + 12 * (n - 1))]
  }

  // ---------- answers ----------

  /** The answer to one item: 0xFF and data, or an error code and no data. */
  datatype Answer = Answer(code: byte, transport: byte, data: seq<byte>)

  /** For these transport sizes the length counts bytes, for all others bits. */
  predicate CountsBytes(transport: int) {
    transport == TS_RES_OCTET as int || transport == TS_RES_REAL as int || transport == TS_RES_BIT as int
  }

  function LengthField(a: Answer): int {
    if CountsBytes(a.transport) then |a.data| else |a.data| * 8
  }

  /** The length can be told in the header; only an answer without error has data. */
  predicate Encodable(a: Answer) {
    LengthField(a) < 0x1_0000 && (a.code != 0xFF ==> a.data == [])
  }

  function Encoded(a: Answer): seq<byte> {
    [a.code, a.transport, Hi(LengthField(a)), Lo(LengthField(a))] + a.data
  }

  /** The answers one after the other, with a fill byte after odd data except at the end. */
  function Layout(answers: seq<Answer>): seq<byte> {
    if answers == [] then []
    else Encoded(answers[0]) + FillByte(answers) + Layout(answers[1..])
  }

  function FillByte(answers: seq<Answer>): seq<byte>
    requires answers != []
  {
    if |answers[0].data| % 2 == 1 && |answers| > 1 then [0] else []
  }

  /** What the walk finds: the result code of the item and its data. */
  datatype Found = Found(result: int, data: seq<byte>)

  /** The number of data bytes of the answer at `p`. */
  function SliceAt(bytes: seq<byte>, p: nat): nat {
    if p + 4 > |bytes| || bytes[p] != 0xFF then 0
    else if CountsBytes(bytes[p + 1]) then WordAt(bytes, p + 2)
    else WordAt(bytes, p + 2) / 8
  }

  predicate AnswerFits(bytes: seq<byte>, p: nat) {
    p + 4 + SliceAt(bytes, p) <= |bytes|
  }

  function FoundAt(bytes: seq<byte>, p: nat): Found
    requires AnswerFits(bytes, p)
  {
    Found(if bytes[p] == 0xFF then 0 else CpuError(bytes[p]), bytes[p + 4..p + 4 + SliceAt(bytes, p)])
  }

  function Padded(n: nat): nat { n + n % 2 }

  /** Where the walk of the client expects the k-th answer: it skips the fill byte after odd data. */
  function AnswerOffset(bytes: seq<byte>, at: nat, k: nat): nat {
    if k == 0 then at else NextAnswer(bytes, AnswerOffset(bytes, at, k - 1))
  }

  function NextAnswer(bytes: seq<byte>, p: nat): nat {
    p + 4 + Padded(SliceAt(bytes, p))
  }

  function FoundOf(a: Answer): Found {
    Found(if a.code == 0xFF then 0 else CpuError(a.code), a.data)
  }

  predicate Stands(bytes: seq<byte>, at: nat, a: Answer) {
    && at + 4 + |a.data| <= |bytes|
    && bytes[at] == a.code && bytes[at + 1] == a.transport
    && bytes[at + 2] == Hi(LengthField(a)) && bytes[at + 3] == Lo(LengthField(a))
    && bytes[at + 4..at + 4 + |a.data|] == a.data
  }

  /** The answers stand one after the other from `at` on; what the fill bytes are does not matter. */
  predicate AnswersAt(bytes: seq<byte>, at: nat, answers: seq<Answer>)
    decreases |answers|
  {
    answers == []
    || (Stands(bytes, at, answers[0])
        && (|answers| > 1 ==> AnswersAt(bytes, at + 4 + Padded(|answers[0].data|), answers[1..])))
  }

  ghost predicate Contains(bytes: seq<byte>, at: nat, part: seq<byte>) {
    at + |part| <= |bytes| && forall i | at <= i < at + |part| :: bytes[i] == part[i - at]
  }

  lemma ContainsBoth(bytes: seq<byte>, at: nat, first: seq<byte>, second: seq<byte>)
    requires Contains(bytes, at, first + second)
    ensures Contains(bytes, at, first) && Contains(bytes, at + |first|, second)
  {
    forall i | at <= i < at + |first| ensures bytes[i] == first[i - at] {
      assert (first + second)[i - at] == first[i - at];
    }
  }

  lemma EncodedStands(bytes: seq<byte>, at: nat, a: Answer)
    requires Contains(bytes, at, Encoded(a))
    ensures Stands(bytes, at, a)
  {
    var head := [a.code, a.transport, Hi(LengthField(a)), Lo(LengthField(a))];
    ContainsBoth(bytes, at, head, a.data);
    assert bytes[at] == head[0] && bytes[at + 1] == head[1] && bytes[at + 2] == head[2] && bytes[at + 3] == head[3];
  }

  lemma FirstStands(bytes: seq<byte>, at: nat, first: Answer, fill: seq<byte>, later: seq<byte>)
    requires Contains(bytes, at, Encoded(first) + fill + later)
    ensures Whole(Stands(bytes, at, first)) && Contains(bytes, at + 4 + |first.data| + |fill|, later)
  {
    ContainsBoth(bytes, at, Encoded(first) + fill, later);
    ContainsBoth(bytes, at, Encoded(first), fill);
    EncodedStands(bytes, at, first);
  }

  lemma {:induction false} LayoutStands(bytes: seq<byte>, at: nat, answers: seq<Answer>)
    requires Contains(bytes, at, Layout(answers))
    ensures AnswersAt(bytes, at, answers)
    decreases |answers|
  {
    if answers != [] {
      var first, fill, next := answers[0], FillByte(answers), at + 4 + Padded(|answers[0].data|);
      FirstStands(bytes, at, first, fill, Layout(answers[1..]));
      if |answers| > 1 {
        assert next == at + 4 + |first.data| + |fill|;
        LayoutStands(bytes, next, answers[1..]);
      }
    }
  }

  /** The walk finds an answer where it stands. */
  lemma AnswerFound(bytes: seq<byte>, at: nat, a: Answer)
    requires Stands(bytes, at, a) && Encodable(a)
    ensures SliceAt(bytes, at) == |a.data| && AnswerFits(bytes, at) && FoundAt(bytes, at) == FoundOf(a)
  {
    WordStands(bytes, at + 2, LengthField(a));
  }

  /** The later answers stand where the walk goes on. */
  lemma LaterAnswers(bytes: seq<byte>, at: nat, answers: seq<Answer>)
    requires AnswersAt(bytes, at, answers) && |answers| > 1 && Encodable(answers[0])
    ensures Whole(AnswersAt(bytes, NextAnswer(bytes, at), answers[1..]))
  {
    AnswerFound(bytes, at, answers[0]);
  }

  /** The walk over a layout finds exactly the answers. */
  lemma {:induction false} WalkOfLayout(bytes: seq<byte>, at: nat, answers: seq<Answer>, k: nat, p: nat)
    requires AnswersAt(bytes, at, answers) && k < |answers| && forall j | 0 <= j < |answers| :: Encodable(answers[j])
    requires p == AnswerOffset(bytes, at, k)
    ensures AnswerFits(bytes, p) && FoundAt(bytes, p) == FoundOf(answers[k])
    decreases k
  {
    if k == 0 {
      AnswerFound(bytes, at, answers[0]);
    } else {
      OffsetFromNext(bytes, at, k);
      LaterAnswers(bytes, at, answers);
      WalkOfLayout(bytes, NextAnswer(bytes, at), answers[1..], k - 1, p);
    }
  }

  lemma {:induction false} OffsetFromNext(bytes: seq<byte>, at: nat, k: nat)
    requires k > 0
    ensures AnswerOffset(bytes, at, k) == AnswerOffset(bytes, NextAnswer(bytes, at), k - 1)
  {
    if k > 1 {
      OffsetFromNext(bytes, at, k - 1);
    }
  }

  /** The bytes that items of the given sizes occupy in a response: four header bytes each, and fill bytes. */
  function Room(sizes: seq<nat>): nat {
    if sizes == [] then 0 else Room(sizes[..|sizes| - 1]) + 4 + Padded(sizes[|sizes| - 1])
  }

  lemma {:induction false} RoomFirst(sizes: seq<nat>)
    requires sizes != []
    ensures Room(sizes) == 4 + Padded(sizes[0]) + Room(sizes[1..])
    decreases |sizes|
  {
    var front := sizes[..|sizes| - 1];
    if front != [] {
      RoomFirst(front);
      assert sizes[1..][..|sizes[1..]| - 1] == front[1..];
    }
  }

  /** A layout has the room of its data, except for the fill byte after the last answer. */
  lemma {:induction false} LayoutLength(answers: seq<Answer>, sizes: seq<nat>)
    requires |sizes| == |answers| && forall k | 0 <= k < |answers| :: sizes[k] == |answers[k].data|
    ensures |Layout(answers)| == Room(sizes) - if answers == [] then 0 else sizes[|sizes| - 1] % 2
    decreases |answers|
  {
    if answers != [] {
      LayoutLength(answers[1..], sizes[1..]);
      RoomFirst(sizes);
    }
  }

  /** Answers with no more data than this fit into the room for it. */
  lemma {:induction false} LayoutFits(answers: seq<Answer>, sizes: seq<nat>)
    requires |sizes| == |answers| && forall k | 0 <= k < |answers| :: |answers[k].data| <= sizes[k]
    ensures |Layout(answers)| <= Room(sizes)
    decreases |answers|
  {
    if answers != [] {
      LayoutFits(answers[1..], sizes[1..]);
      RoomFirst(sizes);
      FirstLength(answers, Layout(answers[1..]));
      PaddedGrows(|answers[0].data|, sizes[0]);
    }
  }

  lemma FirstLength(answers: seq<Answer>, later: seq<byte>)
    requires answers != []
    ensures |Encoded(answers[0]) + FillByte(answers) + later| <= 4 + Padded(|answers[0].data|) + |later|
  {
  }

  lemma PaddedGrows(m: nat, n: nat)
    requires m <= n
    ensures Padded(m) <= Padded(n)
  {
  }

  /** Data that is short enough for a telegram has a length that its header can tell. */
  lemma {:induction false} AnswersEncodable(answers: seq<Answer>, length: nat)
    requires |Layout(answers)| <= length < 0x2000
      && forall k | 0 <= k < |answers| :: answers[k].code != 0xFF ==> answers[k].data == []
    ensures forall k | 0 <= k < |answers| :: Encodable(answers[k])
    decreases |answers|
  {
    if answers != [] {
      AnswersEncodable(answers[1..], length);
    }
  }

  /** The walk that starts at `at` finds `found` as the k-th answer. */
  predicate AnswerFor(bytes: seq<byte>, at: nat, k: nat, found: Found) {
    var p := AnswerOffset(bytes, at, k);
    AnswerFits(bytes, p) && FoundAt(bytes, p) == found
  }

  /** The walk that starts at `at` finds all of `found`, one answer after the other. */
  ghost predicate AllFound(bytes: seq<byte>, at: nat, found: seq<Found>) {
    forall k {:trigger AnswerFor(bytes, at, k, found[k])} | 0 <= k < |found| :: AnswerFor(bytes, at, k, found[k])
  }

  lemma AnswerHere(bytes: seq<byte>, at: nat, found: seq<Found>, k: nat, p: nat)
    requires AllFound(bytes, at, found) && k < |found| && p == AnswerOffset(bytes, at, k)
    ensures AnswerFits(bytes, p) && FoundAt(bytes, p) == found[k]
  {
    assert AnswerFor(bytes, at, k, found[k]);
  }

  lemma AnswersFound(bytes: seq<byte>, at: nat, answers: seq<Answer>)
    requires AnswersAt(bytes, at, answers) && forall k | 0 <= k < |answers| :: Encodable(answers[k])
    ensures forall k | 0 <= k < |answers| :: AnswerFor(bytes, at, k, FoundOf(answers[k]))
  {
    forall k | 0 <= k < |answers| ensures AnswerFor(bytes, at, k, FoundOf(answers[k])) {
      WalkOfLayout(bytes, at, answers, k, AnswerOffset(bytes, at, k));
    }
  }

  /** Layout and walk are inverse: the walk over bytes that contain a layout finds exactly the answers. */
  lemma LayoutWalked(bytes: seq<byte>, at: nat, answers: seq<Answer>)
    requires Contains(bytes, at, Layout(answers)) && |Layout(answers)| < 0x2000
    requires forall k | 0 <= k < |answers| :: answers[k].code != 0xFF ==> answers[k].data == []
    ensures forall k | 0 <= k < |answers| :: AnswerFor(bytes, at, k, FoundOf(answers[k]))
  {
    assert AnswersAt(bytes, at, answers) by {
      LayoutStands(bytes, at, answers);
    }
    assert forall k | 0 <= k < |answers| :: Encodable(answers[k]) by {
      AnswersEncodable(answers, |Layout(answers)|);
    }
    AnswersFound(bytes, at, answers);
  }
}

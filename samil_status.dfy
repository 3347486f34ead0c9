/**
 * The older solar.samil module: reading a whole response message, and decoding status fields.
 *
 * Its _checksum and _samil_request are the same functions as calculate_checksum and
 * construct_message, so this model uses InverterCodec.Checksum and InverterCodec.Construct for them.
 *
 * A status response pairs a status format (a list of field ids) with a payload: the field at
 * position i of the format occupies payload octets [2i, 2i+2).
 */
module SamilStatus {
  import opened Wrappers
  import opened Bytes
  import InverterCodec

  /** _samil_response: identifier (octets 2..4) and payload (the declared number of octets after
      the length field) of a complete message, taken by position with Python's slicing. */
  function Response(message: seq<byte>): (r: (seq<byte>, seq<byte>))
    ensures |r.0| <= 3 && |r.1| < 0x1_0000
    ensures |message| >= 7 ==> r.0 == message[2..5]
    ensures |message| >= 7 && 7 + BigEndian(message[5..7]) <= |message| ==>
              r.1 == message[7..7 + BigEndian(message[5..7])]
  {
    var lengthField := Slice(message, 5, 7);
    var length := BigEndian(lengthField);
    assert Pow256(|lengthField|) <= 0x1_0000 by {
      assert Pow256(2) == 0x1_0000;
    }
    (Slice(message, 2, 5), Slice(message, 7, 7 + length))
  }

  /** _samil_response undoes _samil_request. */
  lemma ResponseOfRequest(identifier: InverterCodec.Identifier, payload: InverterCodec.Payload)
    ensures Response(InverterCodec.Construct(identifier, payload)) == (identifier, payload)
  {
    var m := InverterCodec.Construct(identifier, payload);
    assert m[5..7] == [m[5], m[6]];
    BigEndianOfTwo(m[5], m[6]);
  }

  /** _samil_response on the frame 55 aa 01 89 00 00 04 55 0c 00 00 01 ee. */
  lemma ResponseVector()
    ensures Response([0x55, 0xAA, 0x01, 0x89, 0x00, 0x00, 0x04, 0x55, 0x0C, 0x00, 0x00, 0x01, 0xEE])
         == ([0x01, 0x89, 0x00], [0x55, 0x0C, 0x00, 0x00])
  {
    var m: seq<byte> := [0x55, 0xAA, 0x01, 0x89, 0x00, 0x00, 0x04, 0x55, 0x0C, 0x00, 0x00, 0x01, 0xEE];
    assert m[5..7] == [0x00, 0x04];
    BigEndianOfTwo(0x00, 0x04);
    assert m[2..5] == [0x01, 0x89, 0x00];
    assert m[7..11] == [0x55, 0x0C, 0x00, 0x00];
  }

  /** Position of the first occurrence of `id` in the status format (Python's `index`). */
  function IndexOf(format: seq<byte>, id: byte): (r: Option<nat>)
    ensures r.None? <==> id !in format
    ensures r.Some? ==> r.value < |format| && format[r.value] == id && id !in format[..r.value]
  {
    if format == [] then None
    else if format[0] == id then Some(0)
    else match IndexOf(format[1..], id)
      case None => None
      case Some(k) =>
        assert format[..k + 1] == [format[0]] + format[1..][..k];
        Some(k + 1)
  }

  /** The two payload octets of the field at `position` (cut short if the payload is). */
  function Slot(payload: seq<byte>, position: nat): seq<byte>
  {
    Slice(payload, 2 * position, 2 * position + 2)
  }

  /** BytesStatusType(*ids).get_value: the slots of all ids, concatenated in argument order, or
      None as soon as one id is missing from the format. */
  function SlotBytes(ids: seq<byte>, format: seq<byte>, payload: seq<byte>): (r: Option<seq<byte>>)
    ensures r.None? <==> exists k :: 0 <= k < |ids| && ids[k] !in format
  {
    if ids == [] then Some([])
    else match IndexOf(format, ids[0])
      case None => None
      case Some(i) =>
        match SlotBytes(ids[1..], format, payload)
        case None =>
          assert exists k :: 0 <= k < |ids[1..]| && ids[1..][k] !in format;
          None
        case Some(rest) =>
          assert forall k :: 0 <= k < |ids[1..]| ==> ids[1..][k] in format;
          Some(Slot(payload, i) + rest)
  }

  /** When the payload covers the format, the k-th pair of the result is the slot of ids[k]. */
  lemma {:induction false} SlotBytesLayout(ids: seq<byte>, format: seq<byte>, payload: seq<byte>)
    requires SlotBytes(ids, format, payload).Some? && 2 * |format| <= |payload|
    ensures var r := SlotBytes(ids, format, payload).value;
            && |r| == 2 * |ids|
            && forall k :: 0 <= k < |ids| ==> r[2 * k..2 * k + 2] == Slot(payload, IndexOf(format, ids[k]).value)
  {
    if ids != [] {
      var i := IndexOf(format, ids[0]).value;
      SlotBytesLayout(ids[1..], format, payload);
      var rest := SlotBytes(ids[1..], format, payload).value;
      var r := SlotBytes(ids, format, payload).value;
      var head := Slot(payload, i);
      assert r == head + rest;
      assert |head| == 2;
      forall k | 0 <= k < |ids|
        ensures r[2 * k..2 * k + 2] == Slot(payload, IndexOf(format, ids[k]).value)
      {
        if k > 0 {
          assert r[2 * k..2 * k + 2] == rest[2 * (k - 1)..2 * (k - 1) + 2];
          assert ids[k] == ids[1..][k - 1];
        }
      }
    }
  }

  /** A decimal number: coefficient times ten to the exponent (Python's Decimal, without floats). */
  datatype Decimal = Decimal(coefficient: int, exponent: int)

  function Pow10(e: nat): (r: nat)
    ensures r >= 1
  {
    if e == 0 then 1 else 10 * Pow10(e - 1)
  }

  function DecimalToReal(d: Decimal): real
  {
    if d.exponent >= 0 then (d.coefficient * Pow10(d.exponent)) as real
    else d.coefficient as real / Pow10(-d.exponent) as real
  }

  /** A decoded status field. */
  datatype Value = Raw(bytes: seq<byte>) | Number(decimal: Decimal)

  /** The status field types of solar.samil. */
  datatype StatusType =
    | BytesStatus(ids: seq<byte>)                                 // BytesStatusType(*ids)
    | DecimalStatus(ids: seq<byte>, scale: int)                   // DecimalStatusType(*ids, scale=…)
    | OneOfStatus(options: seq<StatusType>)                       // OneOfStatusType(*types)
    | IfPresentStatus(id: byte, present: bool, inner: StatusType) // IfPresentStatusType(id, present, inner)

  /** The first present value, or None if there is none. */
  function FirstSome<T>(values: seq<Option<T>>): (r: Option<T>)
    ensures r.None? <==> forall i :: 0 <= i < |values| ==> values[i].None?
    ensures forall k :: 0 <= k < |values| && values[k].Some? && (forall j :: 0 <= j < k ==> values[j].None?)
              ==> r == values[k]
  {
    if values == [] then None
    else if values[0].Some? then values[0]
    else
      var r := FirstSome(values[1..]);
      assert forall k :: 1 <= k < |values| ==> values[k] == values[1..][k - 1];
      r
  }

  /** get_value(status_format, status_payload) of each status type. */
  function GetValue(t: StatusType, format: seq<byte>, payload: seq<byte>): Option<Value>
    decreases t
  {
    match t
    case BytesStatus(ids) =>
      (match SlotBytes(ids, format, payload)
       case None => None
       case Some(b) => Some(Raw(b)))
    case DecimalStatus(ids, scale) =>
      (match SlotBytes(ids, format, payload)
       case None => None
       case Some(b) => Some(Number(Decimal(BigEndian(b), scale))))
    case OneOfStatus(options) =>
      FirstSome(seq(|options|, i requires 0 <= i < |options| => GetValue(options[i], format, payload)))
    case IfPresentStatus(id, present, inner) =>
      if (id in format) == present then GetValue(inner, format, payload) else None
  }

  /** A decimal field is present exactly when all its ids are, and reads its slots, concatenated in
      argument order (SlotBytesLayout), as one unsigned big-endian number scaled by a power of ten. */
  lemma DecimalReadsSlots(ids: seq<byte>, scale: int, format: seq<byte>, payload: seq<byte>)
    requires 2 * |format| <= |payload|
    ensures GetValue(DecimalStatus(ids, scale), format, payload).None? <==> exists k :: 0 <= k < |ids| && ids[k] !in format
    ensures GetValue(DecimalStatus(ids, scale), format, payload).Some? ==>
              var d := GetValue(DecimalStatus(ids, scale), format, payload).value.decimal;
              && d.exponent == scale
              && d.coefficient == BigEndian(SlotBytes(ids, format, payload).value)
              && 0 <= d.coefficient < Pow256(2 * |ids|)
  {
    if SlotBytes(ids, format, payload).Some? {
      SlotBytesLayout(ids, format, payload);
    }
  }

  /** OneOfStatusType gives the value of its first option that has one, and None if none has. */
  lemma OneOfIsFirstPresent(options: seq<StatusType>, format: seq<byte>, payload: seq<byte>)
    ensures GetValue(OneOfStatus(options), format, payload).None? <==>
              forall i :: 0 <= i < |options| ==> GetValue(options[i], format, payload).None?
    ensures forall k :: 0 <= k < |options| && GetValue(options[k], format, payload).Some? &&
                        (forall j :: 0 <= j < k ==> GetValue(options[j], format, payload).None?)
              ==> GetValue(OneOfStatus(options), format, payload) == GetValue(options[k], format, payload)
  {
    var values := seq(|options|, i requires 0 <= i < |options| => GetValue(options[i], format, payload));
    assert forall i :: 0 <= i < |options| ==> values[i] == GetValue(options[i], format, payload);
  }

  /** IfPresentStatusType gives its inner value exactly when the id's presence is as required. */
  lemma IfPresentGate(id: byte, present: bool, inner: StatusType, format: seq<byte>, payload: seq<byte>)
    ensures (id in format) != present ==> GetValue(IfPresentStatus(id, present, inner), format, payload).None?
    ensures (id in format) == present ==>
              GetValue(IfPresentStatus(id, present, inner), format, payload) == GetValue(inner, format, payload)
  {
  }

  /** Padding that _samil_string removes from both ends of a decoded text field. */
  predicate IsPadding(c: char)
  {
    c == ' ' || c == '\0'
  }

  /** One character per octet. */
  function Decode(b: seq<byte>): (s: string)
    ensures |s| == |b| && forall i :: 0 <= i < |b| ==> s[i] as int == b[i]
  {
    seq(|b|, i requires 0 <= i < |b| => (b[i] as int) as char)
  }

  /** Removes leading padding. */
  function StripStart(s: string): (r: string)
    ensures |r| <= |s|
  {
    if s != [] && IsPadding(s[0]) then StripStart(s[1..]) else s
  }

  /** What StripStart keeps is a suffix; all it drops is padding, and it stops at the first
      character that is not. */
  lemma {:induction false} StripStartSuffix(s: string)
    ensures var r := StripStart(s);
            && |r| <= |s| && r == s[|s| - |r|..]
            && (forall i :: 0 <= i < |s| - |r| ==> IsPadding(s[i]))
            && (r != [] ==> !IsPadding(r[0]))
  {
    if s != [] && IsPadding(s[0]) {
      StripStartSuffix(s[1..]);
      var r := StripStart(s[1..]);
      assert s[1..][|s| - 1 - |r|..] == s[|s| - |r|..];
      forall i | 0 <= i < |s| - |r| ensures IsPadding(s[i]) {
        if i > 0 {
          assert s[i] == s[1..][i - 1];
        }
      }
    }
  }

  /** Removes trailing padding. */
  function StripEnd(s: string): (r: string)
    ensures |r| <= |s|
  {
    if s != [] && IsPadding(s[|s| - 1]) then StripEnd(s[..|s| - 1]) else s
  }

  /** What StripEnd keeps is a prefix; all it drops is padding, and it stops at the last
      character that is not. */
  lemma {:induction false} StripEndPrefix(s: string)
    ensures var r := StripEnd(s);
            && |r| <= |s| && r == s[..|r|]
            && (forall i :: |r| <= i < |s| ==> IsPadding(s[i]))
            && (r != [] ==> !IsPadding(r[|r| - 1]))
  {
    if s != [] && IsPadding(s[|s| - 1]) {
      StripEndPrefix(s[..|s| - 1]);
      var r := StripEnd(s[..|s| - 1]);
      assert s[..|s| - 1][..|r|] == s[..|r|];
      forall i | |r| <= i < |s| ensures IsPadding(s[i]) {
        if i < |s| - 1 {
          assert s[i] == s[..|s| - 1][i];
        }
      }
    }
  }

  /** _samil_string: the decoded field without leading and trailing spaces and NULs. */
  function SamilString(b: seq<byte>): (r: string)
    ensures |r| <= |b|
  {
    StripEnd(StripStart(Decode(b)))
  }

  /** _samil_string keeps a contiguous part of the text, drops only padding around it, and
      neither end of what it keeps is padding. */
  lemma SamilStringIsTrimmed(b: seq<byte>)
    ensures var s := Decode(b); var r := SamilString(b); var i := |s| - |StripStart(s)|;
            && i + |r| <= |s| && r == s[i..i + |r|]
            && (forall k :: 0 <= k < i ==> IsPadding(s[k]))
            && (forall k :: i + |r| <= k < |s| ==> IsPadding(s[k]))
            && (r != [] ==> !IsPadding(r[0]) && !IsPadding(r[|r| - 1]))
  {
    TrimmedText(Decode(b));
  }

  /** The same, for any text. */
  lemma TrimmedText(s: string)
    ensures var t := StripStart(s); var r := StripEnd(t); var i := |s| - |t|;
            && i + |r| <= |s| && r == s[i..i + |r|]
            && (forall k :: 0 <= k < i ==> IsPadding(s[k]))
            && (forall k :: i + |r| <= k < |s| ==> IsPadding(s[k]))
            && (r != [] ==> !IsPadding(r[0]) && !IsPadding(r[|r| - 1]))
  {
    var t := StripStart(s);
    var r := StripEnd(t);
    var i := |s| - |t|;
    StripStartSuffix(s);
    StripEndPrefix(t);
    assert t == s[i..];
    assert r == s[i..i + |r|];
    forall k | i + |r| <= k < |s| ensures IsPadding(s[k]) {
      assert s[k] == t[k - i];
    }
    if r != [] {
      assert r[0] == t[0];
    }
  }

  /** _samil_string(b' V1 \x00 ') == 'V1'. */
  lemma SamilStringVector()
    ensures SamilString([0x20, 0x56, 0x31, 0x20, 0x00, 0x20]) == "V1"
  {
    DecodeVector();
    StripVector();
  }

  lemma DecodeVector()
    ensures Decode([0x20, 0x56, 0x31, 0x20, 0x00, 0x20]) == " V1 \0 "
  {
  }

  lemma StripVector()
    ensures StripEnd(StripStart(" V1 \0 ")) == "V1"
  {
    StripStartVector();
    StripEndVector();
  }

  lemma StripStartVector()
    ensures StripStart(" V1 \0 ") == "V1 \0 "
  {
    assert " V1 \0 "[1..] == "V1 \0 ";
  }

  lemma StripEndVector()
    ensures StripEnd("V1 \0 ") == "V1"
  {
    assert "V1 \0 "[..4] == "V1 \0";
    assert "V1 \0"[..3] == "V1 ";
    assert "V1 "[..2] == "V1";
  }

  /** The status format and payload of the OneOfStatusType tests (25 fields). */
  const ShortFormat: seq<byte> :=
    [0x00, 0x01, 0x02, 0x04, 0x05, 0x09, 0x0A, 0x0C, 0x11, 0x17, 0x18, 0x1B, 0x1C] +
    [0x1D, 0x1E, 0x1F, 0x20, 0x21, 0x22, 0x27, 0x28, 0x31, 0x32, 0x33, 0x34]
  const ShortPayload: seq<byte> :=
    [0x01, 0x77, 0x0B, 0xAC, 0x0B, 0xE1, 0x00, 0x15, 0x00, 0x14, 0x00, 0x00, 0x28] +
    [0x40, 0x00, 0x01, 0x01, 0xDA, 0x00, 0x00, 0x00, 0x00, 0x00, 0x00, 0x00, 0x00] +
    [0x00, 0x00, 0x00, 0x00, 0x00, 0x00, 0x00, 0x00, 0x00, 0x00, 0x00, 0x00, 0x02] +
    [0x8C, 0x02, 0x76, 0x00, 0x38, 0x09, 0x1B, 0x13, 0x86, 0x04, 0xFB]

  /** The status format and payload of the BytesStatusType and DecimalStatusType tests (27 fields). */
  const LongFormat: seq<byte> :=
    [0x00, 0x01, 0x02, 0x04, 0x05, 0x09, 0x0A, 0x0C, 0x11, 0x17, 0x18, 0x1B, 0x1C] +
    [0x1D, 0x1E, 0x1F, 0x20, 0x21, 0x22, 0x27, 0x28, 0x31, 0x32, 0x33, 0x34, 0x35] +
    [0x36]
  const LongPayload: seq<byte> :=
    [0x01, 0x77, 0x0B, 0xAC, 0x0B, 0xE1, 0x00, 0x15, 0x00, 0x14, 0x00, 0x00, 0x28] +
    [0x40, 0x00, 0x01, 0x01, 0xDA, 0x00, 0x00, 0x00, 0x00, 0x00, 0x00, 0x00, 0x00] +
    [0x00, 0x00, 0x00, 0x00, 0x00, 0x00, 0x00, 0x00, 0x00, 0x00, 0x00, 0x00, 0x02] +
    [0x8C, 0x02, 0x76, 0x00, 0x38, 0x09, 0x1B, 0x13, 0x86, 0x04, 0xFB, 0x00, 0x01] +
    [0xB1, 0xCC]

  /** The position of an id, from the first place it occurs. */
  lemma {:induction false} IndexAt(format: seq<byte>, id: byte, i: nat)
    requires i < |format| && format[i] == id && id !in format[..i]
    ensures IndexOf(format, id) == Some(i)
  {
    if i > 0 {
      assert format[..i][0] == format[0];
      assert format[1..][..i - 1] == format[..i][1..];
      IndexAt(format[1..], id, i - 1);
    }
  }

  lemma SlotAt(payload: seq<byte>, position: nat, hi: byte, lo: byte)
    requires 2 * position + 2 <= |payload| && payload[2 * position] == hi && payload[2 * position + 1] == lo
    ensures Slot(payload, position) == [hi, lo]
  {
  }

  /** BytesStatusType(0x03, 0x04) is None: id 03 is not in the format. */
  lemma BytesMissingVector()
    ensures GetValue(BytesStatus([0x03, 0x04]), LongFormat, LongPayload) == None
  {
    assert 0x03 !in LongFormat;
  }

  /** The bytes of a single id are its slot. */
  lemma SlotBytesOne(id: byte, format: seq<byte>, payload: seq<byte>, i: nat)
    requires IndexOf(format, id) == Some(i)
    ensures SlotBytes([id], format, payload) == Some(Slot(payload, i))
  {
    assert [id][1..] == [];
    assert SlotBytes([], format, payload) == Some([]);
    assert Slot(payload, i) + [] == Slot(payload, i);
  }

  /** The bytes of two ids are their slots, in argument order. */
  lemma SlotBytesTwo(a: byte, b: byte, format: seq<byte>, payload: seq<byte>, i: nat, j: nat)
    requires IndexOf(format, a) == Some(i) && IndexOf(format, b) == Some(j)
    ensures SlotBytes([a, b], format, payload) == Some(Slot(payload, i) + Slot(payload, j))
  {
    assert [a, b][1..] == [b];
    SlotBytesOne(b, format, payload, j);
  }

  /** A bytes status over slots that are all present. */
  lemma RawOf(ids: seq<byte>, format: seq<byte>, payload: seq<byte>, b: seq<byte>)
    requires SlotBytes(ids, format, payload) == Some(b)
    ensures GetValue(BytesStatus(ids), format, payload) == Some(Raw(b))
  {
  }

  /** A decimal status over slots that are all present. */
  lemma NumberOf(ids: seq<byte>, scale: int, format: seq<byte>, payload: seq<byte>, b: seq<byte>)
    requires SlotBytes(ids, format, payload) == Some(b)
    ensures GetValue(DecimalStatus(ids, scale), format, payload) == Some(Number(Decimal(BigEndian(b), scale)))
  {
  }

  /** Two ids found at positions i and j select the octets of slots i and j. */
  lemma TwoSlots(a: byte, b: byte, format: seq<byte>, payload: seq<byte>, i: nat, j: nat, bytes: seq<byte>)
    requires i < |format| && format[i] == a && a !in format[..i]
    requires j < |format| && format[j] == b && b !in format[..j]
    requires 2 * i + 2 <= |payload| && 2 * j + 2 <= |payload| && |bytes| == 4
    requires bytes == [payload[2 * i], payload[2 * i + 1], payload[2 * j], payload[2 * j + 1]]
    ensures SlotBytes([a, b], format, payload) == Some(bytes)
  {
    IndexAt(format, a, i);
    IndexAt(format, b, j);
    SlotAt(payload, i, payload[2 * i], payload[2 * i + 1]);
    SlotAt(payload, j, payload[2 * j], payload[2 * j + 1]);
    SlotBytesTwo(a, b, format, payload, i, j);
    assert bytes == [payload[2 * i], payload[2 * i + 1]] + [payload[2 * j], payload[2 * j + 1]];
  }

  /** An id found at position i selects the octets of slot i. */
  lemma OneSlot(a: byte, format: seq<byte>, payload: seq<byte>, i: nat, bytes: seq<byte>)
    requires i < |format| && format[i] == a && a !in format[..i]
    requires 2 * i + 2 <= |payload| && bytes == [payload[2 * i], payload[2 * i + 1]]
    ensures SlotBytes([a], format, payload) == Some(bytes)
  {
    IndexAt(format, a, i);
    SlotAt(payload, i, payload[2 * i], payload[2 * i + 1]);
    SlotBytesOne(a, format, payload, i);
  }

  /** BytesStatusType(0x01) is the slot at position 1. */
  lemma BytesOneVector()
    ensures GetValue(BytesStatus([0x01]), LongFormat, LongPayload) == Some(Raw([0x0B, 0xAC]))
  {
    assert LongFormat[..1] == [0x00];
    OneSlot(0x01, LongFormat, LongPayload, 1, [0x0B, 0xAC]);
    RawOf([0x01], LongFormat, LongPayload, [0x0B, 0xAC]);
  }

  /** BytesStatusType(0x02, 0x01) concatenates the slots in argument order. */
  lemma BytesTwoReverseVector()
    ensures GetValue(BytesStatus([0x02, 0x01]), LongFormat, LongPayload) == Some(Raw([0x0B, 0xE1, 0x0B, 0xAC]))
  {
    assert LongFormat[..2] == [0x00, 0x01] && LongFormat[..1] == [0x00];
    TwoSlots(0x02, 0x01, LongFormat, LongPayload, 2, 1, [0x0B, 0xE1, 0x0B, 0xAC]);
    RawOf([0x02, 0x01], LongFormat, LongPayload, [0x0B, 0xE1, 0x0B, 0xAC]);
  }

  /** DecimalStatusType(0x35, 0x36, scale=-1) is the coefficient 0x0001b1cc at exponent -1. */
  lemma DecimalVector()
    ensures GetValue(DecimalStatus([0x35, 0x36], -1), LongFormat, LongPayload) == Some(Number(Decimal(0x0001B1CC, -1)))
  {
    var b: seq<byte> := [0x00, 0x01, 0xB1, 0xCC];
    TwoSlots(0x35, 0x36, LongFormat, LongPayload, 25, 26, b);
    CoefficientVector();
    NumberOf([0x35, 0x36], -1, LongFormat, LongPayload, b);
  }

  /** The big-endian value of 00 01 b1 cc. */
  lemma CoefficientVector()
    ensures BigEndian([0x00, 0x01, 0xB1, 0xCC]) == 0x0001B1CC
  {
    var b: seq<byte> := [0x00, 0x01, 0xB1, 0xCC];
    assert b[..3] == [0x00, 0x01, 0xB1];
    assert b[..3][..2] == [0x00, 0x01];
    assert [0x00, 0x01][..1] == [0x00];
    assert [0x00][..0] == [];
  }

  /** That decimal is 11105.2. */
  lemma DecimalRealVector()
    ensures DecimalToReal(Decimal(0x0001B1CC, -1)) == 11105.2
  {
    assert Pow10(1) == 10;
  }

  /** DecimalStatusType(0x37) is None. */
  lemma DecimalMissingVector()
    ensures GetValue(DecimalStatus([0x37], 0), LongFormat, LongPayload) == None
  {
    assert 0x37 !in LongFormat;
  }

  /** A single-id decimal status with scale 0 is the big-endian value of its slot. */
  lemma DecimalOne(a: byte, format: seq<byte>, payload: seq<byte>, i: nat)
    requires i < |format| && format[i] == a && a !in format[..i] && 2 * i + 2 <= |payload|
    ensures GetValue(DecimalStatus([a], 0), format, payload)
         == Some(Number(Decimal(payload[2 * i] as int * 256 + payload[2 * i + 1], 0)))
  {
    var b := [payload[2 * i], payload[2 * i + 1]];
    OneSlot(a, format, payload, i, b);
    NumberOf([a], 0, format, payload, b);
    BigEndianOfTwo(payload[2 * i], payload[2 * i + 1]);
  }

  /** A choice between two status types is the first if present, else the second. */
  lemma OneOfTwo(x: StatusType, y: StatusType, format: seq<byte>, payload: seq<byte>)
    ensures GetValue(OneOfStatus([x, y]), format, payload)
         == if GetValue(x, format, payload).Some? then GetValue(x, format, payload) else GetValue(y, format, payload)
  {
    var options := [x, y];
    OneOfIsFirstPresent(options, format, payload);
    assert options[0] == x && options[1] == y;
    if GetValue(y, format, payload).None? {
      assert forall i :: 0 <= i < |options| ==>
        (GetValue(options[i], format, payload) == GetValue(x, format, payload) || GetValue(options[i], format, payload).None?);
    }
  }

  /** What the OneOfStatusType tests rely on: ids 03 and 06 are missing, id 04 is at position 3,
      whose slot is 00 15. */
  lemma ShortFacts()
    ensures 0x03 !in ShortFormat && 0x06 !in ShortFormat
    ensures |ShortFormat| == 25 && ShortFormat[3] == 0x04 && 0x04 !in ShortFormat[..3]
    ensures |ShortPayload| == 50 && ShortPayload[6] == 0x00 && ShortPayload[7] == 0x15
  {
    assert ShortFormat[..3] == [0x00, 0x01, 0x02];
  }

  /** OneOfStatusType(DecimalStatusType(0x03), DecimalStatusType(0x06)) is None: neither id is
      in the format. */
  lemma OneOfNoneVector(format: seq<byte>, payload: seq<byte>)
    requires format == ShortFormat && payload == ShortPayload
    ensures GetValue(OneOfStatus([DecimalStatus([0x03], 0), DecimalStatus([0x06], 0)]), format, payload) == None
  {
    ShortFacts();
    OneOfTwo(DecimalStatus([0x03], 0), DecimalStatus([0x06], 0), format, payload);
  }

  /** OneOfStatusType(DecimalStatusType(0x03), DecimalStatusType(0x04)) skips the missing id 03
      and gives 21, the slot of id 04. */
  lemma OneOfSecondVector(format: seq<byte>, payload: seq<byte>)
    requires format == ShortFormat && payload == ShortPayload
    ensures GetValue(OneOfStatus([DecimalStatus([0x03], 0), DecimalStatus([0x04], 0)]), format, payload)
         == Some(Number(Decimal(21, 0)))
  {
    ShortFacts();
    DecimalOne(0x04, format, payload, 3);
    OneOfTwo(DecimalStatus([0x03], 0), DecimalStatus([0x04], 0), format, payload);
  }

  /** OneOfStatusType(DecimalStatusType(0x04), DecimalStatusType(0x00)) takes the first option,
      although the second is present too. */
  lemma OneOfFirstVector(format: seq<byte>, payload: seq<byte>)
    requires format == ShortFormat && payload == ShortPayload
    ensures GetValue(OneOfStatus([DecimalStatus([0x04], 0), DecimalStatus([0x00], 0)]), format, payload)
         == Some(Number(Decimal(21, 0)))
  {
    ShortFacts();
    DecimalOne(0x04, format, payload, 3);
    OneOfTwo(DecimalStatus([0x04], 0), DecimalStatus([0x00], 0), format, payload);
  }

  /** The four IfPresentStatusType cases over format 00 and payload 12 34. */
  lemma IfPresentVector()
    ensures GetValue(IfPresentStatus(0x00, true, BytesStatus([0x00])), [0x00], [0x12, 0x34]) == Some(Raw([0x12, 0x34]))
    ensures GetValue(IfPresentStatus(0x01, true, BytesStatus([0x00])), [0x00], [0x12, 0x34]) == None
    ensures GetValue(IfPresentStatus(0x00, false, BytesStatus([0x00])), [0x00], [0x12, 0x34]) == None
    ensures GetValue(IfPresentStatus(0x01, false, BytesStatus([0x00])), [0x00], [0x12, 0x34]) == Some(Raw([0x12, 0x34]))
  {
    OneSlot(0x00, [0x00], [0x12, 0x34], 0, [0x12, 0x34]);
    RawOf([0x00], [0x00], [0x12, 0x34], [0x12, 0x34]);
    IfPresentGate(0x00, true, BytesStatus([0x00]), [0x00], [0x12, 0x34]);
    IfPresentGate(0x01, true, BytesStatus([0x00]), [0x00], [0x12, 0x34]);
    IfPresentGate(0x00, false, BytesStatus([0x00]), [0x00], [0x12, 0x34]);
    IfPresentGate(0x01, false, BytesStatus([0x00]), [0x00], [0x12, 0x34]);
  }
}

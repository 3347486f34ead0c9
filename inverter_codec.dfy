/**
 * The inverter frame codec (calculate_checksum, construct_message, read_message).
 *
 * A frame on the wire is
 *   0x55 0xAA | identifier (3) | payload length (2, big-endian) | payload | checksum (2, big-endian)
 * where the checksum is the sum of every preceding octet of the frame, truncated to 16 bits.
 */
module InverterCodec {
  import opened Bytes

  /** The two start octets of every frame. */
  const Magic: seq<byte> := [0x55, 0xAA]

  /** Three-octet message-type tag. */
  type Identifier = s: seq<byte> | |s| == 3 witness [0, 0, 0]

  /** A payload whose length fits the two-octet length field. */
  type Payload = s: seq<byte> | |s| < 0x1_0000 witness []

  /** calculate_checksum: the octet sum modulo 2^16, as two big-endian octets. */
  function Checksum(message: seq<byte>): (r: seq<byte>)
    ensures |r| == 2 && r[0] as int * 256 + r[1] == Sum(message) % 0x1_0000
  {
    Be16(Sum(message) % 0x1_0000)
  }

  /** Everything of a frame before its checksum. */
  function Head(identifier: Identifier, payload: Payload): seq<byte>
  {
    Magic + identifier + Be16(|payload|) + payload
  }

  /** construct_message: the frame carrying `identifier` and `payload`, field by field. */
  function Construct(identifier: Identifier, payload: Payload): (r: seq<byte>)
    ensures |r| == 9 + |payload|
    ensures r[..2] == Magic && r[2..5] == identifier
    ensures r[5] as int * 256 + r[6] == |payload|
    ensures r[7..7 + |payload|] == payload
    ensures r[7 + |payload|..] == Checksum(r[..7 + |payload|])
  {
    var head := Head(identifier, payload);
    assert head[..2] == Magic && head[2..5] == identifier && head[5..7] == Be16(|payload|);
    assert head[7..] == payload;
    var r := head + Checksum(head);
    assert r[..7 + |payload|] == head;
    r
  }

  /** What reading one frame from the front of a byte stream gives. */
  datatype ReadResult =
    | Parsed(identifier: Identifier, payload: Payload, rest: seq<byte>)
    | NeedMore                          // the stream holds only the start of a frame
    | BadStart                          // the first two octets are not the magic
    | BadChecksum(rest: seq<byte>)      // a whole frame whose checksum is wrong

  /** The payload length declared at offsets 5 and 6. */
  function DeclaredLength(s: seq<byte>): nat
    requires |s| >= 7
  {
    Uint16(s[5], s[6])
  }

  /**
   * read_message on the bytes a stream holds: magic (2), identifier (3), length (2), that many
   * payload octets, checksum (2), each read in full before the next.
   */
  function ReadMessage(s: seq<byte>): (r: ReadResult)
    ensures r.BadStart? <==> 2 <= |s| && s[..2] != Magic
    ensures r.Parsed? ==> 9 + |r.payload| <= |s| && s[..2] == Magic && r.rest == s[9 + |r.payload|..]
    ensures r.BadChecksum? ==> 9 <= |s| && s[..2] == Magic && |r.rest| <= |s| - 9
  {
    if |s| < 2 then NeedMore
    else if s[..2] != Magic then BadStart
    else if |s| < 7 then NeedMore
    else
      var n := DeclaredLength(s);
      if |s| < 9 + n then NeedMore
      else if s[7 + n..9 + n] != Checksum(s[..7 + n]) then BadChecksum(s[9 + n..])
      else Parsed(s[2..5], s[7..7 + n], s[9 + n..])
  }

  /** Reading a constructed frame, followed by anything, returns exactly what was put in. */
  lemma ReadConstructed(identifier: Identifier, payload: Payload, rest: seq<byte>)
    ensures ReadMessage(Construct(identifier, payload) + rest) == Parsed(identifier, payload, rest)
  {
    var f := Construct(identifier, payload);
    var s := f + rest;
    var n := |payload|;
    assert s[..|f|] == f;
    assert s[..2] == f[..2] && s[2..5] == f[2..5] && s[5] == f[5] && s[6] == f[6];
    assert DeclaredLength(s) == n;
    assert s[..7 + n] == f[..7 + n] && s[7..7 + n] == f[7..7 + n];
    assert s[7 + n..9 + n] == f[7 + n..];
    assert s[9 + n..] == rest;
  }

  /** A frame is read only when the stream really starts with that frame. */
  lemma ReadSound(s: seq<byte>)
    requires ReadMessage(s).Parsed?
    ensures s == Construct(ReadMessage(s).identifier, ReadMessage(s).payload) + ReadMessage(s).rest
  {
    var n := DeclaredLength(s);
    var identifier: Identifier := s[2..5];
    var payload: Payload := s[7..7 + n];
    Be16OfUint16(s[5], s[6]);
    assert s[5..7] == Be16(n);
    var head := s[..7 + n];
    assert head == s[..2] + s[2..5] + s[5..7] + s[7..7 + n];
    assert head == Head(identifier, payload);
    assert s == head + s[7 + n..9 + n] + s[9 + n..];
  }

  /** No strict prefix of a frame is read as a frame (or as an error). */
  lemma ReadPrefix(identifier: Identifier, payload: Payload, k: nat)
    requires k < |Construct(identifier, payload)|
    ensures ReadMessage(Construct(identifier, payload)[..k]) == NeedMore
  {
    var f := Construct(identifier, payload);
    var s := f[..k];
    if k >= 2 {
      assert s[..2] == f[..2];
    }
    if k >= 7 {
      assert s[5] == f[5] && s[6] == f[6];
      assert DeclaredLength(s) == |payload|;
    }
  }

  const SampleFrame: seq<byte> := [0x55, 0xAA, 0x01, 0x89, 0x00, 0x00, 0x04, 0x55, 0x0C, 0x00, 0x00]

  /** The checksum of the frame from tests/test_inverter.py (and tests/test_samil.py). */
  lemma ChecksumVector()
    ensures Checksum(SampleFrame) == [0x01, 0xEE]
  {
    FrameSum(SampleFrame);
    ChecksumOf(SampleFrame, 0x01EE);
  }

  lemma FrameSum(frame: seq<byte>)
    requires frame == [0x55, 0xAA, 0x01, 0x89, 0x00, 0x00, 0x04, 0x55, 0x0C, 0x00, 0x00]
    ensures Sum(frame) == 0x01EE
  {
    var x: seq<byte>, y: seq<byte> := [0x55, 0xAA, 0x01, 0x89, 0x00], [0x00, 0x04, 0x55, 0x0C, 0x00, 0x00];
    assert frame == x + y;
    SumAppend(x, y);
    assert Sum(x) == 0x0189;
    assert Sum(y) == 0x65;
  }

  /** construct_message(06 01 02, 10 10). */
  lemma ConstructVector()
    ensures Construct([0x06, 0x01, 0x02], [0x10, 0x10])
         == [0x55, 0xAA, 0x06, 0x01, 0x02, 0x00, 0x02, 0x10, 0x10, 0x01, 0x2A]
  {
    var head: seq<byte> := [0x55, 0xAA, 0x06, 0x01, 0x02, 0x00, 0x02, 0x10, 0x10];
    HeadVector([0x06, 0x01, 0x02], [0x10, 0x10], head);
    ChecksumOf(head, 0x012A);
  }

  /** The sample message of the link tests: identifier 00 01 02 with an empty payload. */
  lemma EmptyPayloadVector()
    ensures Construct([0x00, 0x01, 0x02], []) == [0x55, 0xAA, 0x00, 0x01, 0x02, 0x00, 0x00, 0x01, 0x02]
  {
    var head: seq<byte> := [0x55, 0xAA, 0x00, 0x01, 0x02, 0x00, 0x00];
    HeadVector([0x00, 0x01, 0x02], [], head);
    ChecksumOf(head, 0x0102);
  }

  lemma HeadVector(identifier: Identifier, payload: Payload, head: seq<byte>)
    requires head == Magic + identifier + Be16(|payload|) + payload
    ensures Construct(identifier, payload) == head + Checksum(head)
  {
  }

  lemma ChecksumOf(head: seq<byte>, sum: nat)
    requires Sum(head) == sum < 0x1_0000
    ensures Checksum(head) == [sum / 256, sum % 256]
  {
  }

  /** read_message on the constructed frame 55 aa 06 01 02 00 02 10 10 01 2a. */
  lemma ReadVector()
    ensures ReadMessage([0x55, 0xAA, 0x06, 0x01, 0x02, 0x00, 0x02, 0x10, 0x10, 0x01, 0x2A])
         == Parsed([0x06, 0x01, 0x02], [0x10, 0x10], [])
  {
    ConstructVector();
    ReadConstructed([0x06, 0x01, 0x02], [0x10, 0x10], []);
    assert Construct([0x06, 0x01, 0x02], [0x10, 0x10]) + [] == Construct([0x06, 0x01, 0x02], [0x10, 0x10]);
  }

  /** The checksum cannot tell two frames apart whose octets are only reordered. */
  lemma ChecksumIgnoresOrder(a: seq<byte>, b: seq<byte>)
    requires multiset(a) == multiset(b)
    ensures Checksum(a) == Checksum(b)
  {
    SumPermutation(a, b);
  }
}

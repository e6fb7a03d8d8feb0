/** Framing of messages on a byte stream: length, marker, payload, checksum. */
module Codec {
  import opened Adler32

  const MAX_LENGTH: nat := 64 * 1024 * 1024

  /** "RPC0", the marker of every message that is encoded. */
  const RPC0: seq<Byte> := [0x52, 0x50, 0x43, 0x30]

  /** OutOfRange is the panic of a slice whose bounds cross. */
  datatype Error =
    | EndOfFile
    | UnexpectedEndOfFile
    | InvalidLength(length: nat)
    | WrongMarker
    | WrongChecksum
    | OutOfRange

  datatype Decoded = Message(payload: seq<Byte>) | Failed(error: Error)

  datatype Bytes = Read(bytes: seq<Byte>) | Short(reason: Error)

  // ---- Big-endian words --------------------------------------------------------------

  /** The low 32 bits of `n`, most significant byte first. */
  function BigEndian(n: nat): (b: seq<Byte>)
    ensures |b| == 4
  {
    [n / 0x100_0000 % 256, n / 0x1_0000 % 256, n / 0x100 % 256, n % 256]
  }

  function FromBigEndian(b: seq<Byte>): (n: nat)
    requires |b| == 4
    ensures n < 0x1_0000_0000
  {
    var b0: int, b1: int, b2: int, b3: int := b[0], b[1], b[2], b[3];
    b0 * 0x100_0000 + b1 * 0x1_0000 + b2 * 0x100 + b3
  }

  lemma WordRoundTrip(n: nat)
    ensures FromBigEndian(BigEndian(n)) == n % 0x1_0000_0000
  {
    var a := n / 0x100;
    var b := n / 0x1_0000;
    var c := n / 0x100_0000;
    assert a == b * 0x100 + a % 0x100;
    assert b == c * 0x100 + b % 0x100;
    assert n == c * 0x100_0000 + b % 0x100 * 0x1_0000 + a % 0x100 * 0x100 + n % 0x100;
    assert c == c / 0x100 * 0x100 + c % 0x100;
  }

  lemma BytesRoundTrip(b: seq<Byte>)
    requires |b| == 4
    ensures BigEndian(FromBigEndian(b)) == b
  {
    var b0: int, b1: int, b2: int, b3: int := b[0], b[1], b[2], b[3];
    Digits(b0, b1, b2, b3);
    assert b == [b[0], b[1], b[2], b[3]];
  }

  lemma Digits(b0: int, b1: int, b2: int, b3: int)
    requires 0 <= b0 < 256 && 0 <= b1 < 256 && 0 <= b2 < 256 && 0 <= b3 < 256
    ensures var n := b0 * 0x100_0000 + b1 * 0x1_0000 + b2 * 0x100 + b3;
            n / 0x100_0000 % 256 == b0 && n / 0x1_0000 % 256 == b1 && n / 0x100 % 256 == b2 && n % 256 == b3
  {
    var n := b0 * 0x100_0000 + b1 * 0x1_0000 + b2 * 0x100 + b3;
    assert n / 0x100 == b0 * 0x1_0000 + b1 * 0x100 + b2;
    assert n / 0x1_0000 == b0 * 0x100 + b1;
    assert n / 0x100_0000 == b0;
  }

  /** At the first byte where they differ, `u` is the smaller. */
  predicate Before(u: seq<Byte>, v: seq<Byte>) {
    exists i :: 0 <= i < |u| && i < |v| && u[i] < v[i] && u[..i] == v[..i]
  }

  /** Comparing words is comparing their bytes from the first one on. */
  lemma MostSignificantFirst(b: seq<Byte>, c: seq<Byte>)
    requires |b| == 4 && |c| == 4
    ensures FromBigEndian(b) < FromBigEndian(c) <==> Before(b, c)
  {
    if b[0] < c[0] {
      assert b[..0] == c[..0];
    } else if b[0] == c[0] && b[1] < c[1] {
      assert b[..1] == c[..1];
    } else if b[0] == c[0] && b[1] == c[1] && b[2] < c[2] {
      assert b[..2] == c[..2];
    } else if b[0] == c[0] && b[1] == c[1] && b[2] == c[2] && b[3] < c[3] {
      assert b[..3] == c[..3];
    } else if Before(b, c) {
      var i :| 0 <= i < |b| && i < |c| && b[i] < c[i] && b[..i] == c[..i];
      forall k | 0 <= k < i ensures b[k] == c[k] {
        assert b[..i][k] == c[..i][k];
      }
      assert false;
    }
  }

  // ---- Encoding ----------------------------------------------------------------------

  /** What the checksum covers. */
  function Covered(tag: seq<Byte>, payload: seq<Byte>): seq<Byte> {
    tag + payload
  }

  function Body(tag: seq<Byte>, payload: seq<Byte>): seq<Byte> {
    Covered(tag, payload) + BigEndian(Checksum(Covered(tag, payload)))
  }

  /** The bytes on the wire. The length is a 32-bit word, whatever the payload's size. */
  function Frame(tag: seq<Byte>, payload: seq<Byte>): seq<Byte> {
    BigEndian(|tag| + 4 + |payload|) + Body(tag, payload)
  }

  predicate Fits(tag: seq<Byte>, payload: seq<Byte>) {
    |tag| + 4 + |payload| <= MAX_LENGTH
  }

  method Copy(wire: array<Byte>, at: nat, source: seq<Byte>)
    requires at + |source| <= wire.Length
    modifies wire
    ensures wire[..] == old(wire[..at]) + source + old(wire[at + |source|..])
  {
    for i := 0 to |source|
      invariant wire[..at] == old(wire[..at])
      invariant wire[at..at + i] == source[..i]
      invariant wire[at + i..] == old(wire[at + i..])
    {
      wire[at + i] := source[i];
      assert wire[at..at + i + 1] == wire[at..at + i] + [source[i]];
      assert wire[at + i + 1..] == old(wire[at + i + 1..]);
    }
    assert wire[..] == wire[..at] + wire[at..at + |source|] + wire[at + |source|..];
  }

  method Encode(payload: seq<Byte>) returns (wire: array<Byte>)
    ensures fresh(wire) && wire[..] == Frame(RPC0, payload)
  {
    var n, size := |payload|, BigEndian(8 + |payload|);
    wire := new Byte[12 + n](_ => 0);
    Copy(wire, 0, size);
    Copy(wire, 4, RPC0);
    assert wire[..8] == size + RPC0;
    Copy(wire, 8, payload);
    assert wire[..8 + n] == size + RPC0 + payload;
    assert wire[4..8 + n] == wire[..8 + n][4..] == Covered(RPC0, payload);
    var checksum := BigEndian(Checksum(wire[4..8 + n]));
    Copy(wire, 8 + n, checksum);
    assert wire[..] == size + RPC0 + payload + checksum;
  }

  /** The two sums of Adler-32, from the bytes they cover. */
  function LowSum(data: seq<Byte>): int {
    (1 + ByteSum(data, |data|)) % 65521
  }

  function HighSum(data: seq<Byte>): int {
    (|data| + WeightedSum(data, |data|, |data|)) % 65521
  }

  /** Byte for byte: the length, the tag, the payload, and the two sums, each high byte first. */
  lemma FrameBytes(tag: seq<Byte>, payload: seq<Byte>)
    requires |tag| + 4 + |payload| < 0x1_0000_0000
    ensures var n, data := |tag| + 4 + |payload|, tag + payload;
      Frame(tag, payload) == [n / 0x100_0000, n / 0x1_0000 % 256, n / 0x100 % 256, n % 256] + (data
        + [HighSum(data) / 256, HighSum(data) % 256, LowSum(data) / 256, LowSum(data) % 256])
  {
    var data := tag + payload;
    ChecksumIs(data);
    Halves(Checksum(data));
  }

  lemma Halves(c: nat)
    requires c < 0x1_0000_0000
    ensures BigEndian(c)
         == [c / 0x1_0000 / 256, c / 0x1_0000 % 256, c % 0x1_0000 / 256, c % 0x1_0000 % 256]
  {
    var h, l := c / 0x1_0000, c % 0x1_0000;
    assert c == h * 0x1_0000 + l;
    assert c / 0x100_0000 == h / 256;
    assert c / 0x100 == h * 256 + l / 256;
  }

  lemma TagSums(data: seq<Byte>)
    requires data == RPC0
    ensures LowSum(data) == 0x0116 && HighSum(data) == 0x02F2
  {
    assert ByteSum(data, 1) == 82 && ByteSum(data, 2) == 162 && ByteSum(data, 3) == 229 && ByteSum(data, 4) == 277;
    assert WeightedSum(data, 1, 4) == 328 && WeightedSum(data, 2, 4) == 568;
    assert WeightedSum(data, 3, 4) == 702 && WeightedSum(data, 4, 4) == 750;
  }

  /** The frame of the empty payload; its checksum is 0x02F20116. */
  lemma EmptyFrame(payload: seq<Byte>)
    requires payload == []
    ensures Frame(RPC0, payload) == [0, 0, 0, 8, 0x52, 0x50, 0x43, 0x30, 0x02, 0xF2, 0x01, 0x16]
  {
    assert RPC0 + payload == RPC0;
    TagSums(RPC0);
    FrameBytes(RPC0, payload);
  }

  // ---- Decoding ----------------------------------------------------------------------

  /** A read of exactly `n` bytes; a short one takes what there is. */
  function ReadFullSpec(input: seq<Byte>, n: nat): (Bytes, seq<Byte>) {
    if n <= |input| then (Read(input[..n]), input[n..])
    else (Short(if input == [] then EndOfFile else UnexpectedEndOfFile), [])
  }

  /** What a body carries: the bytes from the fifth to the checksum, however long the tag is. */
  function Opened(tag: seq<Byte>, body: seq<Byte>): Decoded
    requires |tag| + 4 <= |body|
  {
    var n := |body| - 4;
    if body[..|tag|] != tag then Failed(WrongMarker)
    else if Checksum(body[..n]) != FromBigEndian(body[n..]) then Failed(WrongChecksum)
    else if n < 4 then Failed(OutOfRange)
    else Message(body[4..n])
  }

  /** One decoding step: its result and the input it leaves. */
  function DecodeSpec(tag: seq<Byte>, input: seq<Byte>): (Decoded, seq<Byte>) {
    match ReadFullSpec(input, 4)
    case (Short(reason), rest) => (Failed(reason), rest)
    case (Read(header), rest) =>
      var length := FromBigEndian(header);
      if length > MAX_LENGTH || length < |tag| + 4 then (Failed(InvalidLength(length)), rest)
      else
        match ReadFullSpec(rest, length)
        case (Short(reason), rest') => (Failed(reason), rest')
        case (Read(body), rest') => (Opened(tag, body), rest')
  }

  class Reader {
    var input: seq<Byte>

    constructor (input: seq<Byte>)
      ensures this.input == input
    {
      this.input := input;
    }

    /** Exactly `n` bytes, or else all there are, with the end of file told apart from a short read. */
    method ReadFull(n: nat) returns (r: Bytes)
      modifies this
      ensures (r, input) == ReadFullSpec(old(input), n)
      ensures r.Read? <==> n <= |old(input)|
      ensures r.Read? ==> |r.bytes| == n && r.bytes + input == old(input)
      ensures r.Short? ==> input == [] && (r.reason == EndOfFile <==> old(input) == [])
    {
      if n <= |input| {
        r := Read(input[..n]);
        input := input[n..];
      } else {
        r := Short(if input == [] then EndOfFile else UnexpectedEndOfFile);
        input := [];
      }
    }

    method Decode() returns (r: Decoded)
      modifies this
      ensures (r, input) == DecodeSpec(RPC0, old(input))
    {
      r := DecodeGeneral(RPC0);
    }

    method DecodeGeneral(tag: seq<Byte>) returns (r: Decoded)
      modifies this
      ensures (r, input) == DecodeSpec(tag, old(input))
    {
      var header := ReadFull(4);
      if header.Short? {
        return Failed(header.reason);
      }
      var length := FromBigEndian(header.bytes);
      if length > MAX_LENGTH || length < |tag| + 4 {
        return Failed(InvalidLength(length));
      }
      var body := ReadFull(length);
      if body.Short? {
        return Failed(body.reason);
      }
      var payload := body.bytes;
      if payload[..|tag|] != tag {
        return Failed(WrongMarker);
      }
      var checksum := Checksum(payload[..length - 4]);
      if checksum != FromBigEndian(payload[length - 4..]) {
        return Failed(WrongChecksum);
      }
      if length - 4 < 4 {
        return Failed(OutOfRange);
      }
      r := Message(payload[4..length - 4]);
    }
  }

  // ---- The decoder inverts the encoder -----------------------------------------------

  /** What a frame with a tag of any length carries: from the fifth covered byte on. */
  function Carried(tag: seq<Byte>, payload: seq<Byte>): Decoded {
    var covered := Covered(tag, payload);
    if |covered| < 4 then Failed(OutOfRange) else Message(covered[4..])
  }

  lemma OpensBody(tag: seq<Byte>, payload: seq<Byte>)
    ensures Opened(tag, Body(tag, payload)) == Carried(tag, payload)
  {
    WordRoundTrip(Checksum(Covered(tag, payload)));
    OpenedParts(tag, Covered(tag, payload), BigEndian(Checksum(Covered(tag, payload))));
    assert Covered(tag, payload)[..|tag|] == tag;
  }

  lemma OpenedParts(tag: seq<Byte>, covered: seq<Byte>, check: seq<Byte>)
    requires |covered| >= |tag| && |check| == 4
    ensures Opened(tag, covered + check)
         == if covered[..|tag|] != tag then Failed(WrongMarker)
            else if Checksum(covered) != FromBigEndian(check) then Failed(WrongChecksum)
            else if |covered| < 4 then Failed(OutOfRange)
            else Message(covered[4..])
  {
    var body := covered + check;
    assert body[..|covered|] == covered;
    assert body[|covered|..] == check;
    assert body[..|tag|] == covered[..|tag|];
    if |covered| >= 4 {
      assert body[4..|covered|] == covered[4..];
    }
  }

  lemma HeaderLeads(tag: seq<Byte>, header: seq<Byte>, body: seq<Byte>, tail: seq<Byte>)
    requires |header| == 4 && FromBigEndian(header) == |body| && |tag| + 4 <= |body| <= MAX_LENGTH
    ensures DecodeSpec(tag, header + body + tail) == (Opened(tag, body), tail)
  {
    var input := header + body + tail;
    assert input[..4] == header;
    assert input[4..] == body + tail;
    assert (body + tail)[..|body|] == body;
    assert (body + tail)[|body|..] == tail;
  }

  lemma FrameOpens(tag: seq<Byte>, body: seq<Byte>, tail: seq<Byte>)
    requires |tag| + 4 <= |body| <= MAX_LENGTH
    ensures DecodeSpec(tag, BigEndian(|body|) + body + tail) == (Opened(tag, body), tail)
  {
    WordRoundTrip(|body|);
    HeaderLeads(tag, BigEndian(|body|), body, tail);
  }

  /**
   * A frame within the limit is consumed and gives the covered bytes from the fifth on, which
   * are the payload when the tag has four bytes; with fewer than four there is a panic.
   */
  lemma FrameDecodes(tag: seq<Byte>, payload: seq<Byte>, tail: seq<Byte>)
    requires Fits(tag, payload)
    ensures DecodeSpec(tag, Frame(tag, payload) + tail) == (Carried(tag, payload), tail)
    ensures |tag| == 4 ==> Carried(tag, payload) == Message(payload)
  {
    FrameOpens(tag, Body(tag, payload), tail);
    OpensBody(tag, payload);
  }

  lemma OpenedIsBody(tag: seq<Byte>, body: seq<Byte>, payload: seq<Byte>)
    requires |tag| == 4 && 8 <= |body| && Opened(tag, body) == Message(payload)
    ensures body == Body(tag, payload)
  {
    var n := |body| - 4;
    assert body[..n] == body[..4] + body[4..n];
    BytesRoundTrip(body[n..]);
    assert body == body[..n] + body[n..];
  }

  lemma DecodedIsFrame(tag: seq<Byte>, input: seq<Byte>, payload: seq<Byte>, tail: seq<Byte>)
    requires |tag| == 4 && DecodeSpec(tag, input) == (Message(payload), tail)
    ensures Fits(tag, payload) && input == Frame(tag, payload) + tail
  {
    var header, rest := input[..4], input[4..];
    var body := rest[..FromBigEndian(header)];
    OpenedIsBody(tag, body, payload);
    BytesRoundTrip(header);
    assert input == header + rest;
    assert rest == body + tail;
  }

  /** A message is decoded exactly when the input starts with its frame, and just that is consumed. */
  lemma DecodesExactlyFrames(tag: seq<Byte>, input: seq<Byte>, payload: seq<Byte>, tail: seq<Byte>)
    requires |tag| == 4
    ensures DecodeSpec(tag, input) == (Message(payload), tail) <==>
            Fits(tag, payload) && input == Frame(tag, payload) + tail
  {
    if DecodeSpec(tag, input) == (Message(payload), tail) {
      DecodedIsFrame(tag, input, payload, tail);
    } else if Fits(tag, payload) {
      FrameDecodes(tag, payload, tail);
    }
  }

  /**
   * With a tag of any length: a decoder that gives `bytes` and leaves `tail` has been given
   * the frame of some payload within the limit, which carries them, and then the tail.
   */
  lemma DecodesExactlyCarried(tag: seq<Byte>, input: seq<Byte>, bytes: seq<Byte>, tail: seq<Byte>)
    ensures DecodeSpec(tag, input) == (Message(bytes), tail) <==>
            exists payload ::
              Fits(tag, payload) && Carried(tag, payload) == Message(bytes) && input == Frame(tag, payload) + tail
  {
    if DecodeSpec(tag, input) == (Message(bytes), tail) {
      var payload := CarryingPayload(tag, input, bytes, tail);
      assert Fits(tag, payload);
    }
    if exists payload ::
      Fits(tag, payload) && Carried(tag, payload) == Message(bytes) && input == Frame(tag, payload) + tail
    {
      var payload :|
        Fits(tag, payload) && Carried(tag, payload) == Message(bytes) && input == Frame(tag, payload) + tail;
      FrameDecodes(tag, payload, tail);
    }
  }

  lemma CarryingPayload(tag: seq<Byte>, input: seq<Byte>, bytes: seq<Byte>, tail: seq<Byte>)
    returns (payload: seq<Byte>)
    requires DecodeSpec(tag, input) == (Message(bytes), tail)
    ensures Fits(tag, payload) && Carried(tag, payload) == Message(bytes) && input == Frame(tag, payload) + tail
  {
    var header, rest := input[..4], input[4..];
    var body := rest[..FromBigEndian(header)];
    payload := body[|tag|..|body| - 4];
    AcceptedIsBody(tag, body, payload);
    OpensBody(tag, payload);
    BytesRoundTrip(header);
    assert input == header + rest;
    assert rest == body + tail;
  }

  lemma AcceptedIsBody(tag: seq<Byte>, body: seq<Byte>, payload: seq<Byte>)
    requires |tag| + 4 <= |body| && Opened(tag, body).Message? && payload == body[|tag|..|body| - 4]
    ensures body == Body(tag, payload)
  {
    var n := |body| - 4;
    assert body[..n] == body[..|tag|] + body[|tag|..n];
    BytesRoundTrip(body[n..]);
    assert body == body[..n] + body[n..];
  }

  lemma DecodedSize(tag: seq<Byte>, input: seq<Byte>, bytes: seq<Byte>, tail: seq<Byte>)
    requires DecodeSpec(tag, input) == (Message(bytes), tail)
    ensures |input| == 12 + |bytes| + |tail| && 8 + |bytes| <= MAX_LENGTH
  {
  }

  /** A frame decodes to its payload if and only if it is within the limit and its tag has four bytes. */
  lemma RoundTrip(tag: seq<Byte>, payload: seq<Byte>, tail: seq<Byte>)
    ensures DecodeSpec(tag, Frame(tag, payload) + tail) == (Message(payload), tail)
      <==> 8 + |payload| <= 64 * 1024 * 1024 && |tag| == 4
  {
    if DecodeSpec(tag, Frame(tag, payload) + tail) == (Message(payload), tail) {
      DecodedSize(tag, Frame(tag, payload) + tail, payload, tail);
    }
    if Fits(tag, payload) && |tag| == 4 {
      FrameDecodes(tag, payload, tail);
    }
  }

  // ---- Streams -----------------------------------------------------------------------

  function Frames(tag: seq<Byte>, payloads: seq<seq<Byte>>): seq<Byte> {
    if payloads == [] then [] else Frame(tag, payloads[0]) + Frames(tag, payloads[1..])
  }

  predicate AllFit(tag: seq<Byte>, payloads: seq<seq<Byte>>) {
    forall p :: p in payloads ==> Fits(tag, p)
  }

  datatype Stream = Stream(payloads: seq<seq<Byte>>, error: Error, rest: seq<Byte>)

  /** The messages decoded until the first failure, that failure, and the input left then. */
  function DecodeAll(tag: seq<Byte>, input: seq<Byte>): Stream
    requires |tag| == 4
    decreases |input|
  {
    match DecodeSpec(tag, input)
    case (Failed(error), rest) => Stream([], error, rest)
    case (Message(payload), rest) =>
      DecodedIsFrame(tag, input, payload, rest);
      var s := DecodeAll(tag, rest);
      Stream([payload] + s.payloads, s.error, s.rest)
  }

  /** What the decoder reads of a stream is whole frames, up to a point where decoding fails. */
  lemma {:induction false} StreamIsFrames(tag: seq<Byte>, input: seq<Byte>)
    requires |tag| == 4
    ensures var s := DecodeAll(tag, input);
            AllFit(tag, s.payloads) &&
            exists tail ::
              input == Frames(tag, s.payloads) + tail && DecodeSpec(tag, tail) == (Failed(s.error), s.rest)
    decreases |input|
  {
    match DecodeSpec(tag, input)
    case (Failed(error), rest) =>
      assert input == Frames(tag, []) + input;
    case (Message(payload), rest) =>
      DecodedIsFrame(tag, input, payload, rest);
      StreamIsFrames(tag, rest);
      var s := DecodeAll(tag, rest);
      var tail :| rest == Frames(tag, s.payloads) + tail && DecodeSpec(tag, tail) == (Failed(s.error), s.rest);
      FramesPrepend(tag, payload, s.payloads, tail);
  }

  lemma FramesPrepend(tag: seq<Byte>, payload: seq<Byte>, payloads: seq<seq<Byte>>, tail: seq<Byte>)
    ensures Frames(tag, [payload] + payloads) + tail == Frame(tag, payload) + (Frames(tag, payloads) + tail)
  {
    assert ([payload] + payloads)[1..] == payloads;
    Regroup(Frame(tag, payload), Frames(tag, payloads), tail);
  }

  lemma Regroup<T>(u: seq<T>, v: seq<T>, w: seq<T>)
    ensures u + v + w == u + (v + w)
  {
  }

  lemma DecodesFirst(tag: seq<Byte>, payload: seq<Byte>, rest: seq<Byte>)
    requires |tag| == 4 && Fits(tag, payload)
    ensures var s := DecodeAll(tag, rest);
            DecodeAll(tag, Frame(tag, payload) + rest) == Stream([payload] + s.payloads, s.error, s.rest)
  {
    FrameDecodes(tag, payload, rest);
  }

  /** Frames decode to their payloads, and what follows decodes as it would alone. */
  lemma {:induction false} StreamRoundTrip(tag: seq<Byte>, payloads: seq<seq<Byte>>, tail: seq<Byte>)
    requires |tag| == 4 && AllFit(tag, payloads)
    ensures var s := DecodeAll(tag, tail);
            DecodeAll(tag, Frames(tag, payloads) + tail) == Stream(payloads + s.payloads, s.error, s.rest)
  {
    if payloads == [] {
      assert Frames(tag, payloads) + tail == tail;
    } else {
      var first, others := payloads[0], payloads[1..];
      StreamRoundTrip(tag, others, tail);
      DecodesFirst(tag, first, Frames(tag, others) + tail);
      assert payloads == [first] + others;
      FramesPrepend(tag, first, others, tail);
      Regroup([first], others, DecodeAll(tag, tail).payloads);
    }
  }

  /**
   * End of file is what a stream reports at its end, but also when it is cut just after a
   * length.
   */
  predicate Ended(tag: seq<Byte>, rest: seq<Byte>) {
    rest == [] || (|rest| == 4 && |tag| + 4 <= FromBigEndian(rest) <= MAX_LENGTH)
  }

  lemma EndOfFileExactly(tag: seq<Byte>, input: seq<Byte>)
    ensures DecodeSpec(tag, input) == (Failed(EndOfFile), []) <==> Ended(tag, input)
    ensures DecodeSpec(tag, input).0 == Failed(EndOfFile) ==> DecodeSpec(tag, input).1 == []
  {
    if |input| == 4 {
      assert input[..4] == input;
    }
  }

  /** A length out of range is reported, and the input after it is left alone. */
  lemma InvalidLengthExactly(tag: seq<Byte>, input: seq<Byte>, n: nat, rest: seq<Byte>)
    ensures DecodeSpec(tag, input) == (Failed(InvalidLength(n)), rest) <==>
            && |input| >= 4 && n == FromBigEndian(input[..4]) && rest == input[4..]
            && !(|tag| + 4 <= n <= 64 * 1024 * 1024)
  {
  }

  /** Input that stops short of a length or of the bytes that it announces is used up. */
  lemma CutShortExactly(tag: seq<Byte>, input: seq<Byte>)
    ensures DecodeSpec(tag, input) == (Failed(UnexpectedEndOfFile), []) <==>
            || 1 <= |input| < 4
            || (|input| > 4
                && |tag| + 4 <= FromBigEndian(input[..4]) <= 64 * 1024 * 1024
                && |input| < 4 + FromBigEndian(input[..4]))
  {
  }

  /** A stream decodes to `payloads` and then end of file exactly when it is their frames, ended. */
  lemma CleanStreams(tag: seq<Byte>, input: seq<Byte>, payloads: seq<seq<Byte>>)
    requires |tag| == 4
    ensures DecodeAll(tag, input) == Stream(payloads, EndOfFile, []) <==>
            AllFit(tag, payloads) && exists tail :: input == Frames(tag, payloads) + tail && Ended(tag, tail)
  {
    if DecodeAll(tag, input) == Stream(payloads, EndOfFile, []) {
      StreamIsFrames(tag, input);
      var tail :| input == Frames(tag, payloads) + tail && DecodeSpec(tag, tail) == (Failed(EndOfFile), []);
      EndOfFileExactly(tag, tail);
    }
    if AllFit(tag, payloads) && exists tail :: input == Frames(tag, payloads) + tail && Ended(tag, tail) {
      var tail :| input == Frames(tag, payloads) + tail && Ended(tag, tail);
      EndOfFileExactly(tag, tail);
      StreamRoundTrip(tag, payloads, tail);
      assert payloads + [] == payloads;
    }
  }

  // ---- Damage ------------------------------------------------------------------------

  lemma DamagedOpens(tag: seq<Byte>, damaged: seq<Byte>, body: seq<Byte>, tail: seq<Byte>)
    requires |tag| + 4 <= |body| <= MAX_LENGTH && damaged == BigEndian(|body|) + body
    ensures DecodeSpec(tag, damaged + tail) == (Opened(tag, body), tail)
  {
    FrameOpens(tag, body, tail);
  }

  /** One wrong byte in the marker, the payload or the checksum: always refused. */
  lemma WrongByteRefused(tag: seq<Byte>, payload: seq<Byte>, i: nat, x: Byte, tail: seq<Byte>)
    requires Fits(tag, payload) && 4 <= i < |Frame(tag, payload)| && Frame(tag, payload)[i] != x
    ensures DecodeSpec(tag, Frame(tag, payload)[i := x] + tail)
         == (Failed(if i < 4 + |tag| then WrongMarker else WrongChecksum), tail)
  {
    var body := Body(tag, payload)[i - 4 := x];
    assert Frame(tag, payload)[i := x] == BigEndian(|tag| + 4 + |payload|) + body;
    DamagedOpens(tag, Frame(tag, payload)[i := x], body, tail);
    WrongByteInBody(tag, payload, i - 4, x);
  }

  lemma WrongByteInBody(tag: seq<Byte>, payload: seq<Byte>, i: nat, x: Byte)
    requires i < |Body(tag, payload)| && Body(tag, payload)[i] != x
    ensures Opened(tag, Body(tag, payload)[i := x]) == Failed(if i < |tag| then WrongMarker else WrongChecksum)
  {
    var covered := Covered(tag, payload);
    var n := |covered|;
    if i < n {
      WrongByteCovered(tag, payload, i, x);
    } else {
      WrongByteInCheck(tag, covered, BigEndian(Checksum(covered)), i - n, x);
      assert Body(tag, payload)[i := x] == covered + BigEndian(Checksum(covered))[i - n := x];
      assert covered[..|tag|] == tag;
    }
  }

  lemma WrongByteInCheck(tag: seq<Byte>, covered: seq<Byte>, check: seq<Byte>, i: nat, x: Byte)
    requires |covered| >= |tag| && covered[..|tag|] == tag && check == BigEndian(Checksum(covered))
    requires i < 4 && check[i] != x
    ensures Opened(tag, covered + check[i := x]) == Failed(WrongChecksum)
  {
    var damaged := check[i := x];
    OpenedParts(tag, covered, damaged);
    BytesRoundTrip(damaged);
    assert damaged[i] == x;
  }

  lemma WrongByteCovered(tag: seq<Byte>, payload: seq<Byte>, i: nat, x: Byte)
    requires i < |Covered(tag, payload)| && Covered(tag, payload)[i] != x
    ensures Opened(tag, Body(tag, payload)[i := x]) == Failed(if i < |tag| then WrongMarker else WrongChecksum)
  {
    var covered := Covered(tag, payload);
    var check := BigEndian(Checksum(covered));
    assert Body(tag, payload)[i := x] == covered[i := x] + check;
    OpenedParts(tag, covered[i := x], check);
    WordRoundTrip(Checksum(covered));
    assert |covered[i := x]| == |covered|;
    if i < |tag| {
      assert covered[i := x][..|tag|][i] == x != tag[i];
    } else {
      assert covered[i := x][..|tag|] == tag;
      ByteChangeNoticed(covered, i, x);
    }
  }

  /** Two different covered bytes less than 65521 apart, swapped: always refused. */
  lemma SwappedBytesRefused(tag: seq<Byte>, payload: seq<Byte>, i: nat, j: nat, tail: seq<Byte>)
    requires Fits(tag, payload) && 4 <= i < j < 4 + |tag| + |payload| && j - i < BASE
    requires Frame(tag, payload)[i] != Frame(tag, payload)[j]
    ensures DecodeSpec(tag, Swap(Frame(tag, payload), i, j) + tail)
         == (Failed(if i < 4 + |tag| then WrongMarker else WrongChecksum), tail)
  {
    var covered := Covered(tag, payload);
    var body := Swap(covered, i - 4, j - 4) + BigEndian(Checksum(covered));
    FrameCovers(tag, payload, i - 4);
    FrameCovers(tag, payload, j - 4);
    SwapOfFrame(tag, payload, i - 4, j - 4);
    DamagedOpens(tag, Swap(Frame(tag, payload), i, j), body, tail);
    SwapInBody(tag, payload, i - 4, j - 4);
  }

  lemma FrameCovers(tag: seq<Byte>, payload: seq<Byte>, i: nat)
    requires i < |Covered(tag, payload)|
    ensures Frame(tag, payload)[4 + i] == Covered(tag, payload)[i]
  {
  }

  lemma SwapOfFrame(tag: seq<Byte>, payload: seq<Byte>, i: nat, j: nat)
    requires i < |Covered(tag, payload)| && j < |Covered(tag, payload)|
    ensures var covered := Covered(tag, payload);
      Swap(Frame(tag, payload), 4 + i, 4 + j)
        == BigEndian(4 + |covered|) + (Swap(covered, i, j) + BigEndian(Checksum(covered)))
  {
    var covered := Covered(tag, payload);
    SwapBetween(BigEndian(4 + |covered|), covered, BigEndian(Checksum(covered)), i, j);
  }

  lemma SwapInBody(tag: seq<Byte>, payload: seq<Byte>, i: nat, j: nat)
    requires i < j < |Covered(tag, payload)| && j - i < BASE && Covered(tag, payload)[i] != Covered(tag, payload)[j]
    ensures Opened(tag, Swap(Covered(tag, payload), i, j) + BigEndian(Checksum(Covered(tag, payload))))
         == Failed(if i < |tag| then WrongMarker else WrongChecksum)
  {
    var covered := Covered(tag, payload);
    WordRoundTrip(Checksum(covered));
    assert covered[..|tag|] == tag;
    SwapCovered(tag, covered, BigEndian(Checksum(covered)), i, j);
  }

  lemma SwapBetween(before: seq<Byte>, data: seq<Byte>, after: seq<Byte>, i: nat, j: nat)
    requires i < |data| && j < |data|
    ensures Swap(before + (data + after), |before| + i, |before| + j) == before + (Swap(data, i, j) + after)
  {
  }

  lemma SwapCovered(tag: seq<Byte>, covered: seq<Byte>, check: seq<Byte>, i: nat, j: nat)
    requires |covered| >= |tag| && covered[..|tag|] == tag && |check| == 4 && FromBigEndian(check) == Checksum(covered)
    requires i < j < |covered| && j - i < BASE && covered[i] != covered[j]
    ensures Opened(tag, Swap(covered, i, j) + check) == Failed(if i < |tag| then WrongMarker else WrongChecksum)
  {
    var swapped := Swap(covered, i, j);
    OpenedParts(tag, swapped, check);
    if i < |tag| {
      assert swapped[..|tag|][i] == covered[j];
      assert covered[..|tag|][i] == covered[i];
    } else {
      assert swapped[..|tag|] == covered[..|tag|];
      SwapNoticed(covered, i, j);
    }
  }
}

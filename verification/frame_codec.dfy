/** The 9-byte request frame of the price-tracking protocol: one tag byte,
    then two big-endian i32 fields. The socket is modelled as the sequence of
    bytes still to be read; each read returns what it decoded together with
    the bytes that remain. */
module FrameCodec {
  import opened Int32

  /** The only way a read fails on a byte sequence: it ran out of bytes. */
  datatype ReadError = UnexpectedEof

  datatype Result<T> = Success(value: T) | Failure(error: ReadError) {
    predicate IsFailure() {
      Failure?
    }

    function PropagateFailure<U>(): Result<U>
      requires Failure?
    {
      Failure(error)
    }

    function Extract(): T
      requires Success?
    {
      value
    }
  }

  /** The characters `char::from(u8)` can produce: U+0000 to U+00FF. */
  type Latin1 = c: char | c as int < 0x100 witness 'I'

  /** A decoded frame: the tag as a character and the two signed fields. */
  datatype Message = Message(kind: Latin1, field1: I32, field2: I32)

  const FRAME_SIZE: nat := 9

  /** `read_u8`: takes one byte, or fails on an empty stream. */
  function ReadU8(input: seq<Byte>): (r: Result<(Byte, seq<Byte>)>)
    ensures r.Success? <==> |input| >= 1
    ensures r.Success? ==> [r.value.0] + r.value.1 == input
  {
    if |input| < 1 then Failure(UnexpectedEof) else Success((input[0], input[1..]))
  }

  /** `read_i32`: takes four bytes as a big-endian i32, or fails when fewer
      than four remain. */
  function ReadI32(input: seq<Byte>): (r: Result<(I32, seq<Byte>)>)
    ensures r.Success? <==> |input| >= 4
    ensures r.Success? ==> ToBigEndian(r.value.0) + r.value.1 == input
  {
    if |input| < 4 then Failure(UnexpectedEof)
    else
      ToFromBigEndian(input[..4]);
      Success((FromBigEndian(input[..4]), input[4..]))
  }

  /** `read_message`: the tag byte, then field 1, then field 2. It fails
      exactly when fewer than nine bytes are left (zero included); on success
      it has consumed exactly nine. */
  function ReadMessage(input: seq<Byte>): (r: Result<(Message, seq<Byte>)>)
    ensures r.Success? <==> |input| >= FRAME_SIZE
    ensures r.Success? ==> r.value.1 == input[FRAME_SIZE..]
  {
    var tag :- ReadU8(input);
    var field1 :- ReadI32(tag.1);
    var field2 :- ReadI32(field1.1);
    Success((Message(tag.0 as char, field1.0, field2.0), field2.1))
  }

  /** What ReadMessage decodes is what the nine bytes it consumed encode: the
      decoder is the left inverse of the encoder on every successful read. */
  lemma ReadMessageConsumesEncoding(input: seq<Byte>)
    requires |input| >= FRAME_SIZE
    ensures EncodeFrame(ReadMessage(input).value.0) == input[..FRAME_SIZE]
  {
    var tag := ReadU8(input).value;
    var field1 := ReadI32(tag.1).value;
    var field2 := ReadI32(field1.1).value;
    var m := Message(tag.0 as char, field1.0, field2.0);
    assert ReadMessage(input).value.0 == m;
    assert input == [tag.0] + (ToBigEndian(field1.0) + (ToBigEndian(field2.0) + field2.1));
    assert EncodeFrame(m) + field2.1 == input;
  }

  /** The client side of the frame layout: the tag byte, then each field as
      `write_i32` would write it. */
  function EncodeFrame(m: Message): (b: seq<Byte>)
    ensures |b| == FRAME_SIZE
    ensures b[0] == m.kind as int
  {
    [m.kind as int] + ToBigEndian(m.field1) + ToBigEndian(m.field2)
  }

  /** Decoding an encoded frame returns that frame and leaves the following
      bytes untouched, for every tag byte and every pair of i32 fields. */
  lemma DecodeEncodeFrame(m: Message, rest: seq<Byte>)
    ensures ReadMessage(EncodeFrame(m) + rest) == Success((m, rest))
  {
    var input := EncodeFrame(m) + rest;
    ReadMessageConsumesEncoding(input);
    assert input[..FRAME_SIZE] == EncodeFrame(m);
    assert input[FRAME_SIZE..] == rest;
    EncodeFrameInjective(m, ReadMessage(input).value.0);
  }

  /** Distinct frames have distinct encodings. */
  lemma EncodeFrameInjective(m: Message, m': Message)
    requires EncodeFrame(m) == EncodeFrame(m')
    ensures m == m'
  {
    var b, b' := EncodeFrame(m), EncodeFrame(m');
    assert (m.kind as int) as char == m.kind;
    assert b[1..5] == ToBigEndian(m.field1) && b'[1..5] == ToBigEndian(m'.field1);
    assert b[5..9] == ToBigEndian(m.field2) && b'[5..9] == ToBigEndian(m'.field2);
    FromToBigEndian(m.field1);
    FromToBigEndian(m'.field1);
    FromToBigEndian(m.field2);
    FromToBigEndian(m'.field2);
  }

  /** The frame decoded by the parsing test: `Q`, 1, 2. */
  lemma ParseQueryFrame()
    ensures ReadMessage([0x51, 0x00, 0x00, 0x00, 0x01, 0x00, 0x00, 0x00, 0x02])
         == Success((Message('Q', 1, 2), []))
  {
    DecodeEncodeFrame(Message('Q', 1, 2), []);
    assert EncodeFrame(Message('Q', 1, 2)) == [0x51, 0x00, 0x00, 0x00, 0x01, 0x00, 0x00, 0x00, 0x02];
  }
}

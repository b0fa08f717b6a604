/**
 * The binary framing of Volcengine's "bigmodel" streaming speech-recognition
 * protocol, as the client speaks it: a four-byte nibble-packed header, a
 * big-endian 32-bit length and the payload; and the server-side frame the
 * client decodes, which carries a 32-bit sequence number before its length.
 */
module AsrFrame {
  import opened Common

  /** A four-bit header field. */
  type nibble = x: int | 0 <= x < 16

  const ProtocolVersion: nibble := 1
  const HeaderSizeCode: nibble := 1   // header length in 4-byte words

  const MsgFullClientRequest: nibble := 1
  const MsgAudioOnlyRequest: nibble := 2
  const MsgFullServerResponse: nibble := 9
  const MsgErrorResponse: nibble := 15

  const FlagNone: nibble := 0
  const FlagPosSequence: nibble := 1
  const FlagLastPacket: nibble := 2
  const FlagNegSequence: nibble := 3

  const SerializationNone: nibble := 0
  const SerializationJson: nibble := 1

  const CompressionNone: nibble := 0
  const CompressionGzip: nibble := 1

  /** One more than the largest value `struct.pack('>I', n)` accepts. */
  const U32Limit: int := 0x1_0000_0000

  /** `(b >> 4) & 0x0F`, the way the decoder reads a header byte. */
  function HighNibble(b: byte): nibble {
    b as int / 16
  }

  function LowNibble(b: byte): nibble {
    b as int % 16
  }

  /** `(hi << 4) | lo` for two nibbles. */
  function Pack(hi: nibble, lo: nibble): (b: byte)
    ensures HighNibble(b) == hi && LowNibble(b) == lo
  {
    (hi * 16 + lo) as byte
  }

  /** The four-byte protocol header; byte 3 is reserved and zero. */
  function BuildHeader(messageType: nibble, flags: nibble, serialization: nibble, compression: nibble): (h: seq<byte>)
    ensures |h| == 4
    ensures h[0] == 0x11
    ensures HighNibble(h[0]) == ProtocolVersion && LowNibble(h[0]) == HeaderSizeCode
    ensures HighNibble(h[1]) == messageType && LowNibble(h[1]) == flags
    ensures HighNibble(h[2]) == serialization && LowNibble(h[2]) == compression
    ensures h[3] == 0
  {
    [Pack(ProtocolVersion, HeaderSizeCode), Pack(messageType, flags), Pack(serialization, compression), 0]
  }

  /** `struct.unpack('>I', b)`: four bytes read as a big-endian unsigned integer. */
  function ReadU32BE(b: seq<byte>): (n: nat)
    requires |b| == 4
    ensures n < U32Limit
  {
    ((b[0] as int * 256 + b[1] as int) * 256 + b[2] as int) * 256 + b[3] as int
  }

  /** `struct.pack('>I', n)`. */
  function U32BE(n: nat): (b: seq<byte>)
    requires n < U32Limit
    ensures |b| == 4 && ReadU32BE(b) == n
  {
    var b0 := n / 0x100_0000;
    var r0 := n % 0x100_0000;
    var b1 := r0 / 0x1_0000;
    var r1 := r0 % 0x1_0000;
    var b2 := r1 / 0x100;
    var b3 := r1 % 0x100;
    assert r1 == b2 * 256 + b3;
    assert r0 == b1 * 0x1_0000 + r1;
    assert n == b0 * 0x100_0000 + r0;
    [b0 as byte, b1 as byte, b2 as byte, b3 as byte]
  }

  /*
   * Views of a client frame as the server reads it.
   */

  function FrameType(f: seq<byte>): nibble
    requires |f| >= 8
  {
    HighNibble(f[1])
  }

  function FrameFlags(f: seq<byte>): nibble
    requires |f| >= 8
  {
    LowNibble(f[1])
  }

  function FrameSerialization(f: seq<byte>): nibble
    requires |f| >= 8
  {
    HighNibble(f[2])
  }

  function FrameCompression(f: seq<byte>): nibble
    requires |f| >= 8
  {
    LowNibble(f[2])
  }

  function FrameLength(f: seq<byte>): nat
    requires |f| >= 8
  {
    ReadU32BE(f[4..8])
  }

  function FramePayload(f: seq<byte>): seq<byte>
    requires |f| >= 8
  {
    f[8..]
  }

  /**
   * `header + struct.pack('>I', len(payload)) + payload`. The packing raises
   * for a payload of 2^32 bytes or more, which the sender reports as a failed
   * send: that case is `None`.
   */
  function EncodeFrame(header: seq<byte>, payload: seq<byte>): (r: Option<seq<byte>>)
    requires |header| == 4
    ensures r.Some? <==> |payload| < U32Limit
    ensures r.Some? ==> |r.value| == 8 + |payload|
    ensures r.Some? ==> r.value[..4] == header
    ensures r.Some? ==> FrameLength(r.value) == |payload| && FramePayload(r.value) == payload
  {
    if |payload| < U32Limit then
      var f := header + U32BE(|payload|) + payload;
      assert f[4..8] == U32BE(|payload|);
      Some(f)
    else None
  }

  /** The first frame of a session: JSON parameters, no flags, no compression. */
  function FullRequestFrame(payload: seq<byte>): (r: Option<seq<byte>>)
    ensures r.Some? <==> |payload| < U32Limit
  {
    EncodeFrame(BuildHeader(MsgFullClientRequest, FlagNone, SerializationJson, CompressionNone), payload)
  }

  /** What the server reads from a full-request frame. */
  lemma FullRequestFrameLayout(payload: seq<byte>)
    requires |payload| < U32Limit
    ensures var f := FullRequestFrame(payload).value;
      && |f| == 8 + |payload| && f[0] == 0x11 && f[3] == 0
      && FrameType(f) == MsgFullClientRequest && FrameFlags(f) == FlagNone
      && FrameSerialization(f) == SerializationJson && FrameCompression(f) == CompressionNone
      && FrameLength(f) == |payload| && FramePayload(f) == payload
  {
    var h := BuildHeader(MsgFullClientRequest, FlagNone, SerializationJson, CompressionNone);
    assert FullRequestFrame(payload).value[..4] == h;
  }

  /** An audio-only frame; only the last packet of a stream carries the last-packet flag. */
  function AudioFrame(chunk: seq<byte>, isLast: bool): (r: Option<seq<byte>>)
    ensures r.Some? <==> |chunk| < U32Limit
  {
    EncodeFrame(BuildHeader(MsgAudioOnlyRequest, if isLast then FlagLastPacket else FlagNone,
                            SerializationNone, CompressionNone), chunk)
  }

  /** What the server reads from an audio frame: the chunk, and the last-packet flag exactly when `isLast`. */
  lemma AudioFrameLayout(chunk: seq<byte>, isLast: bool)
    requires |chunk| < U32Limit
    ensures var f := AudioFrame(chunk, isLast).value;
      && |f| == 8 + |chunk| && f[0] == 0x11 && f[3] == 0
      && FrameType(f) == MsgAudioOnlyRequest
      && (FrameFlags(f) == FlagLastPacket <==> isLast)
      && (FrameFlags(f) == FlagNone <==> !isLast)
      && FrameSerialization(f) == SerializationNone && FrameCompression(f) == CompressionNone
      && FrameLength(f) == |chunk| && FramePayload(f) == chunk
  {
    var h := BuildHeader(MsgAudioOnlyRequest, if isLast then FlagLastPacket else FlagNone, SerializationNone, CompressionNone);
    assert AudioFrame(chunk, isLast).value[..4] == h;
  }

  /*
   * Request parameters of the full client request. Their JSON text is produced
   * by a serializer outside this model.
   */

  datatype AudioParams = AudioParams(format: string, rate: nat, bits: nat, channel: nat, codec: Option<string>)

  datatype RequestParams = RequestParams(
    uid: string,
    audio: AudioParams,
    modelName: string,
    enableItn: bool,
    enablePunc: bool,
    showUtterances: bool)

  /**
   * Bytes per audio packet. The source's comment calls it 200 ms of 16 kHz,
   * 16-bit audio; against the declared stream parameters it is 100 ms.
   */
  const ChunkSize: nat := 3200

  function BuildRequestParams(audioFormat: string): (p: RequestParams)
    ensures p.audio.format == audioFormat
    ensures p.audio.rate == 16000 && p.audio.bits == 16 && p.audio.channel == 1
    ensures p.modelName == "bigmodel" && p.enableItn && p.enablePunc && !p.showUtterances
    ensures p.audio.codec.Some? <==> audioFormat == "ogg"
    ensures p.audio.codec.Some? ==> p.audio.codec.value == "opus"
    // one packet is exactly 100 ms of the declared stream
    ensures ChunkSize * 10 == p.audio.rate * (p.audio.bits / 8) * p.audio.channel
  {
    RequestParams(
      "telegram_bot_user",
      AudioParams(audioFormat, 16000, 16, 1, if audioFormat == "ogg" then Some("opus") else None),
      "bigmodel", true, true, false)
  }

  /*
   * Server frames: header, 4-byte sequence number, 4-byte size, payload. An
   * error frame (type 15) carries a code and a message instead.
   */

  /**
   * The framing part of `_receive_response`: the payload of a server frame, or
   * `None` for a short buffer, an error frame, a buffer whose size field cannot
   * be read, or a size field larger than the bytes that follow it.
   */
  function DecodeServerFrame(data: seq<byte>): (r: Option<seq<byte>>)
    ensures r.Some? ==> |data| >= 12 + |r.value|
  {
    if |data| < 8 then None
    else if HighNibble(data[1]) == MsgErrorResponse then None
    else if |data| < 12 then None   // the size field cannot be unpacked
    else
      var size := ReadU32BE(data[8..12]);
      if |data| >= 12 + size then Some(data[12..12 + size]) else None
  }

  /**
   * The decoder accepts exactly the buffers that hold a whole non-error frame
   * and returns the `size` bytes after the 12-byte prefix, ignoring the rest.
   */
  lemma DecodeServerFrameAccepts(data: seq<byte>)
    ensures DecodeServerFrame(data).Some? <==>
      |data| >= 12 && HighNibble(data[1]) != MsgErrorResponse && 12 + ReadU32BE(data[8..12]) <= |data|
    ensures DecodeServerFrame(data).Some? ==> DecodeServerFrame(data).value == data[12..12 + ReadU32BE(data[8..12])]
  {
  }

  /** A server frame as the service sends it; the reference the decoder is checked against. */
  function EncodeServerFrame(messageType: nibble, flags: nibble, sequence: nat, payload: seq<byte>): (f: seq<byte>)
    requires sequence < U32Limit && |payload| < U32Limit
    ensures |f| == 12 + |payload|
  {
    BuildHeader(messageType, flags, SerializationJson, CompressionNone) + U32BE(sequence) + U32BE(|payload|) + payload
  }

  /** Every non-error server frame decodes to its payload, whatever follows it. */
  lemma DecodeServerFrameRoundTrip(messageType: nibble, flags: nibble, sequence: nat, payload: seq<byte>, rest: seq<byte>)
    requires sequence < U32Limit && |payload| < U32Limit
    requires messageType != MsgErrorResponse
    ensures DecodeServerFrame(EncodeServerFrame(messageType, flags, sequence, payload) + rest) == Some(payload)
  {
    var f := EncodeServerFrame(messageType, flags, sequence, payload);
    var h := BuildHeader(messageType, flags, SerializationJson, CompressionNone);
    assert (f + rest)[1] == h[1];
    assert (f + rest)[8..12] == U32BE(|payload|);
    assert (f + rest)[12..12 + |payload|] == payload;
  }

  /** An error frame never yields a payload, however well-formed it is. */
  lemma DecodeServerFrameRejectsErrors(flags: nibble, sequence: nat, payload: seq<byte>)
    requires sequence < U32Limit && |payload| < U32Limit
    ensures DecodeServerFrame(EncodeServerFrame(MsgErrorResponse, flags, sequence, payload)) == None
  {
    var h := BuildHeader(MsgErrorResponse, flags, SerializationJson, CompressionNone);
    assert EncodeServerFrame(MsgErrorResponse, flags, sequence, payload)[1] == h[1];
  }

  /** A frame cut short anywhere inside its payload is refused rather than read past its end. */
  lemma DecodeServerFrameRejectsTruncation(messageType: nibble, flags: nibble, sequence: nat, payload: seq<byte>, keep: nat)
    requires sequence < U32Limit && |payload| < U32Limit
    requires keep < 12 + |payload|
    ensures DecodeServerFrame(EncodeServerFrame(messageType, flags, sequence, payload)[..keep]) == None
  {
    var f := EncodeServerFrame(messageType, flags, sequence, payload);
    if keep >= 12 {
      assert f[8..12] == U32BE(|payload|);
      assert f[..keep][8..12] == f[8..12];
    }
  }
}

/** Cutting a byte stream into packed request frames. */
module Framing {
  import opened Types

  newtype byte = x: int | 0 <= x < 256

  /** The packed size: sequence number 8, type 1, client 4, ticker 4, order id 8, side 1, price 8,
      quantity 4. */
  const FRAME_SIZE := 38

  datatype OMClientRequest = OMClientRequest(seqNum: nat, request: ClientRequest)

  /** Little-endian unsigned value. */
  function Unsigned(bytes: seq<byte>): nat {
    if bytes == [] then 0 else bytes[0] as nat + 256 * Unsigned(bytes[1..])
  }

  /** Little-endian 64-bit two's complement value. */
  function Signed64(bytes: seq<byte>): int {
    var u := Unsigned(bytes);
    if u < 0x8000_0000_0000_0000 then u else u - 0x1_0000_0000_0000_0000
  }

  function DecodeType(b: byte): RequestType {
    if b == 1 then New else if b == 2 then Cancel else InvalidRequest
  }

  function DecodeSide(b: byte): Side {
    if b == 1 then BUY else if b == 255 then SELL else Side.INVALID
  }

  function Decode(frame: seq<byte>): OMClientRequest
    requires |frame| == FRAME_SIZE
  {
    OMClientRequest(
      Unsigned(frame[0..8]),
      ClientRequest(DecodeType(frame[8]), Unsigned(frame[9..13]), Unsigned(frame[13..17]), Unsigned(frame[17..25]),
                    DecodeSide(frame[25]), Signed64(frame[26..34]), Unsigned(frame[34..38])))
  }

  /** The requests in the whole frames of a byte sequence, and the bytes behind the last one. */
  function Requests(bytes: seq<byte>): seq<OMClientRequest>
    decreases |bytes|
  {
    if |bytes| < FRAME_SIZE then [] else [Decode(bytes[..FRAME_SIZE])] + Requests(bytes[FRAME_SIZE..])
  }

  function Residue(bytes: seq<byte>): (r: seq<byte>)
    ensures |r| < FRAME_SIZE && |r| <= |bytes| && r == bytes[|bytes| - |r|..]
    decreases |bytes|
  {
    if |bytes| < FRAME_SIZE then bytes else Residue(bytes[FRAME_SIZE..])
  }

  /** The bytes of block i. */
  function Block(bytes: seq<byte>, i: nat): seq<byte>
    requires (i + 1) * FRAME_SIZE <= |bytes|
  {
    bytes[i * FRAME_SIZE..(i + 1) * FRAME_SIZE]
  }

  /** As many requests as whole blocks, and a residue shorter than one. */
  lemma {:induction false} RequestsCount(bytes: seq<byte>)
    ensures |bytes| == |Requests(bytes)| * FRAME_SIZE + |Residue(bytes)|
    decreases |bytes|
  {
    if |bytes| >= FRAME_SIZE {
      RequestsCount(bytes[FRAME_SIZE..]);
    }
  }

  lemma BlockOfRest(bytes: seq<byte>, i: nat)
    requires 0 < i && (i + 1) * FRAME_SIZE <= |bytes|
    ensures Block(bytes[FRAME_SIZE..], i - 1) == Block(bytes, i)
  {
  }

  /** Request i is block i of the stream. */
  lemma {:induction false} RequestsAreBlocks(bytes: seq<byte>, i: nat)
    requires i < |Requests(bytes)|
    ensures (i + 1) * FRAME_SIZE <= |bytes| && Requests(bytes)[i] == Decode(Block(bytes, i))
    decreases |bytes|
  {
    hide Decode;
    if i == 0 {
      assert bytes[0..FRAME_SIZE] == bytes[..FRAME_SIZE];
    } else {
      var rest := bytes[FRAME_SIZE..];
      assert Requests(bytes)[i] == Requests(rest)[i - 1];
      RequestsAreBlocks(rest, i - 1);
      BlockOfRest(bytes, i);
    }
  }

  /** A chunk that arrives behind a residue is parsed as if the stream had never been cut. */
  lemma {:induction false} ChunksJoin(seen: seq<byte>, chunk: seq<byte>)
    ensures Requests(seen + chunk) == Requests(seen) + Requests(Residue(seen) + chunk)
    ensures Residue(seen + chunk) == Residue(Residue(seen) + chunk)
    decreases |seen|
  {
    hide Decode;
    if |seen| >= FRAME_SIZE {
      assert (seen + chunk)[..FRAME_SIZE] == seen[..FRAME_SIZE];
      assert (seen + chunk)[FRAME_SIZE..] == seen[FRAME_SIZE..] + chunk;
      ChunksJoin(seen[FRAME_SIZE..], chunk);
    }
  }

  // ----- any way to cut a stream

  function Concat(chunks: seq<seq<byte>>): seq<byte> {
    if chunks == [] then [] else chunks[0] + Concat(chunks[1..])
  }

  /** What the reads deliver when the callback keeps the residue between them. */
  function RequestsOfReads(residue: seq<byte>, chunks: seq<seq<byte>>): seq<OMClientRequest>
    decreases |chunks|
  {
    if chunks == [] then []
    else Requests(residue + chunks[0]) + RequestsOfReads(Residue(residue + chunks[0]), chunks[1..])
  }

  lemma {:induction false} NoRequests(residue: seq<byte>)
    requires |residue| < FRAME_SIZE
    ensures Requests(residue) == []
  {
  }

  lemma {:induction false} ReadsFrom(residue: seq<byte>, chunks: seq<seq<byte>>)
    requires |residue| < FRAME_SIZE
    ensures RequestsOfReads(residue, chunks) == Requests(residue + Concat(chunks))
    decreases |chunks|
  {
    hide Requests, Residue;
    if chunks == [] {
      NoRequests(residue);
      assert residue + [] == residue;
    } else {
      var first, tail := residue + chunks[0], Concat(chunks[1..]);
      ReadsFrom(Residue(first), chunks[1..]);
      assert residue + Concat(chunks) == first + tail;
      ChunksJoin(first, tail);
    }
  }

  /** However a stream is cut into reads, the requests are the blocks of the whole stream. */
  lemma {:induction false} ChunkingDoesNotMatter(chunks: seq<seq<byte>>)
    ensures RequestsOfReads([], chunks) == Requests(Concat(chunks))
  {
    ReadsFrom([], chunks);
    assert [] + Concat(chunks) == Concat(chunks);
  }

  // ----- the layout of a frame

  /** Little-endian bytes of an unsigned value. */
  function ToBytes(n: nat, width: nat): (bytes: seq<byte>)
    ensures |bytes| == width
  {
    if width == 0 then [] else [(n % 256) as byte] + ToBytes(n / 256, width - 1)
  }

  /** The number of values that a width holds. */
  function ValueCount(width: nat): nat {
    if width == 0 then 1 else 256 * ValueCount(width - 1)
  }

  function EncodeType(kind: RequestType): byte {
    match kind
    case InvalidRequest => 0
    case New => 1
    case Cancel => 2
  }

  function EncodeSide(side: Side): byte {
    match side
    case INVALID => 0
    case BUY => 1
    case SELL => 255
  }

  /** The fields are within the widths of the source's integers. */
  predicate Encodable(m: OMClientRequest) {
    var r := m.request;
    && m.seqNum < ValueCount(8) && r.client < ValueCount(4) && r.ticker < ValueCount(4) && r.orderId < ValueCount(8)
    && -0x8000_0000_0000_0000 <= r.price < 0x8000_0000_0000_0000 && r.qty < ValueCount(4)
  }

  /** A message as the packed fields, in the order of the declarations. */
  function Encode(m: OMClientRequest): (frame: seq<byte>)
    requires Encodable(m)
    ensures |frame| == FRAME_SIZE
  {
    var r := m.request;
    var price := if r.price < 0 then r.price + 0x1_0000_0000_0000_0000 else r.price;
    ToBytes(m.seqNum, 8) + [EncodeType(r.kind)] + ToBytes(r.client, 4) + ToBytes(r.ticker, 4) + ToBytes(r.orderId, 8)
    + [EncodeSide(r.side)] + ToBytes(price, 8) + ToBytes(r.qty, 4)
  }

  lemma {:induction false} UnsignedOfBytes(n: nat, width: nat)
    requires n < ValueCount(width)
    ensures Unsigned(ToBytes(n, width)) == n
    decreases width
  {
    if width > 0 {
      UnsignedOfBytes(n / 256, width - 1);
      assert ToBytes(n, width)[1..] == ToBytes(n / 256, width - 1);
    }
  }

  lemma {:induction false} BytesOfUnsigned(bytes: seq<byte>)
    ensures Unsigned(bytes) < ValueCount(|bytes|) && ToBytes(Unsigned(bytes), |bytes|) == bytes
    decreases |bytes|
  {
    if bytes != [] {
      var rest := Unsigned(bytes[1..]);
      BytesOfUnsigned(bytes[1..]);
      LowByte(bytes[0] as nat, rest);
      assert bytes == [bytes[0]] + bytes[1..];
    }
  }

  lemma LowByte(low: nat, rest: nat)
    requires low < 256
    ensures (low + 256 * rest) % 256 == low && (low + 256 * rest) / 256 == rest
  {
  }

  lemma ValueCounts()
    ensures ValueCount(4) == 0x1_0000_0000 && ValueCount(8) == 0x1_0000_0000_0000_0000
  {
    assert ValueCount(2) == 0x1_0000;
    assert ValueCount(4) == 256 * (256 * ValueCount(2));
    assert ValueCount(6) == 256 * (256 * ValueCount(4));
    assert ValueCount(8) == 256 * (256 * ValueCount(6));
  }

  /** Reading a frame gives back the message that was laid out. */
  lemma DecodeEncode(m: OMClientRequest)
    requires Encodable(m)
    ensures Decode(Encode(m)) == m
  {
    var r, f := m.request, Encode(m);
    var price := if r.price < 0 then r.price + 0x1_0000_0000_0000_0000 else r.price;
    ValueCounts();
    assert f[0..8] == ToBytes(m.seqNum, 8) && f[9..13] == ToBytes(r.client, 4) && f[13..17] == ToBytes(r.ticker, 4);
    assert f[17..25] == ToBytes(r.orderId, 8) && f[26..34] == ToBytes(price, 8) && f[34..38] == ToBytes(r.qty, 4);
    assert f[8] == EncodeType(r.kind) && f[25] == EncodeSide(r.side);
    hide ToBytes, Unsigned, ValueCount;
    UnsignedOfBytes(m.seqNum, 8);
    UnsignedOfBytes(r.client, 4);
    UnsignedOfBytes(r.ticker, 4);
    UnsignedOfBytes(r.orderId, 8);
    UnsignedOfBytes(price, 8);
    UnsignedOfBytes(r.qty, 4);
  }

  /** And a frame whose type and side are known codes is the layout of what is read from it. */
  lemma EncodeDecode(frame: seq<byte>)
    requires |frame| == FRAME_SIZE && frame[8] <= 2 && (frame[25] <= 1 || frame[25] == 255)
    ensures Encodable(Decode(frame)) && Encode(Decode(frame)) == frame
  {
    ValueCounts();
    hide ToBytes, Unsigned, ValueCount;
    BytesOfUnsigned(frame[0..8]);
    BytesOfUnsigned(frame[9..13]);
    BytesOfUnsigned(frame[13..17]);
    BytesOfUnsigned(frame[17..25]);
    BytesOfUnsigned(frame[26..34]);
    BytesOfUnsigned(frame[34..38]);
    assert frame == frame[0..8] + [frame[8]] + frame[9..13] + frame[13..17] + frame[17..25]
                    + [frame[25]] + frame[26..34] + frame[34..38];
  }

  /** Every other type is invalid, which ends the process in the engine. */
  lemma UnknownTypeIsInvalid(frame: seq<byte>)
    requires |frame| == FRAME_SIZE
    ensures Decode(frame).request.kind == InvalidRequest <==> frame[8] != 1 && frame[8] != 2
  {
  }
}

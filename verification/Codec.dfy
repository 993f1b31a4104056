/** Length-prefixed, self-describing frames over a byte stream, with optional compression. */
module FrameCodec {
  import opened Widths
  import opened Options

  type Bytes = seq<Byte>

  const MAX_FRAME_SIZE: nat := 64 * 1024 * 1024
  const MAX_DECOMPRESSED_SIZE: nat := 64 * 1024 * 1024

  const RAW: Byte := 2
  const ZSTD: Byte := 3

  datatype Error =
    | Io | FrameTooLarge(size: nat) | MalformedFrame | UnknownCodec(tag: Byte)
    | LegacyPostcardCodec(tag: Byte) | Compress | Decompress | DecompressedTooLarge

  datatype Result<+T> = Ok(value: T) | Err(error: Error)

  /** The compression library, from outside: either direction may fail. */
  datatype Zstd = Zstd(compress: (Bytes, int) -> Option<Bytes>, decompress: Bytes -> Option<Bytes>)

  /** Decompressing what was compressed, at any level, gives it back. */
  ghost predicate Lossless(z: Zstd) {
    forall d, level :: z.compress(d, level).Some? ==> z.decompress(z.compress(d, level).value) == Some(d)
  }

  datatype Compressor = Off | ZstdAt(level: int, minSize: nat)

  // ----- the length prefix

  function ToBe(n: U32): (b: Bytes)
    ensures |b| == 4
  {
    [n / 256 / 256 / 256, n / 256 / 256 % 256, n / 256 % 256, n % 256]
  }

  function FromBe(b: Bytes): U32
    requires |b| == 4
  {
    ((b[0] as int * 256 + b[1]) * 256 + b[2]) * 256 + b[3]
  }

  lemma PrefixRoundTrip(n: U32, b: Bytes)
    requires |b| == 4
    ensures FromBe(ToBe(n)) == n && ToBe(FromBe(b)) == b
  {
    Digit(b[0] as int, b[1]);
    Digit(b[0] as int * 256 + b[1], b[2]);
    Digit((b[0] as int * 256 + b[1]) * 256 + b[2], b[3]);
  }

  lemma Digit(q: nat, r: Byte)
    ensures (q * 256 + r) / 256 == q && (q * 256 + r) % 256 == r
  {}

  // ----- writing

  /** `[u32 length][u8 tag][payload]`; the length counts the tag. */
  function Frame(tag: Byte, payload: Bytes): Bytes
    requires |payload| < MAX_FRAME_SIZE
  {
    ToBe(|payload| + 1) + [tag] + payload
  }

  /** The tag and payload `write_frame_compressed_into` chooses. */
  function Choose(z: Zstd, comp: Compressor, data: Bytes): Result<(Byte, Bytes)> {
    if comp.Off? || |data| < comp.minSize then Ok((RAW, data))
    else match z.compress(data, comp.level)
      case None => Err(Compress)
      case Some(c) => if |c| < |data| then Ok((ZSTD, c)) else Ok((RAW, data))
  }

  /** What one write puts on the wire. */
  function Written(z: Zstd, comp: Compressor, data: Bytes): Result<Bytes> {
    match Choose(z, comp, data)
    case Err(e) => Err(e)
    case Ok(chosen) =>
      if |chosen.1| + 1 > MAX_FRAME_SIZE then Err(FrameTooLarge(Min(|chosen.1| + 1, U32_MAX)))
      else Ok(Frame(chosen.0, chosen.1))
  }

  class Writer {
    var wire: Bytes

    constructor ()
      ensures wire == []
    {
      wire := [];
    }

    /** `write_tagged_into`: a whole frame, or nothing. */
    method WriteTagged(tag: Byte, payload: Bytes) returns (r: Result<nat>)
      modifies this
      ensures if |payload| < MAX_FRAME_SIZE
        then wire == old(wire) + Frame(tag, payload) && r == Ok(|Frame(tag, payload)|)
        else wire == old(wire) && r == Err(FrameTooLarge(Min(|payload| + 1, U32_MAX)))
    {
      var len := |payload| + 1;
      if len > MAX_FRAME_SIZE { return Err(FrameTooLarge(Min(len, U32_MAX))); }
      var header: Bytes := ToBe(len) + [tag];
      wire := wire + header;
      wire := wire + payload;
      return Ok(4 + len);
    }

    /** `write_frame_compressed_into`. */
    method WriteFrame(z: Zstd, comp: Compressor, data: Bytes) returns (r: Result<nat>)
      modifies this
      ensures match Written(z, comp, data)
        case Ok(frame) => wire == old(wire) + frame && r == Ok(|frame|)
        case Err(e) => wire == old(wire) && r == Err(e)
    {
      if comp.ZstdAt? && |data| >= comp.minSize {
        var c := z.compress(data, comp.level);
        if c.None? { return Err(Compress); }
        if |c.value| < |data| {
          r := WriteTagged(ZSTD, c.value);
          return;
        }
      }
      r := WriteTagged(RAW, data);
    }
  }

  // ----- reading

  datatype Read = Eof | Got(payload: Bytes, rest: Bytes) | Fail(error: Error)

  /** `decompress_frame`, bounded. */
  function Inflate(z: Zstd, payload: Bytes): Result<Bytes> {
    match z.decompress(payload)
    case None => Err(Decompress)
    case Some(out) => if |out| > MAX_DECOMPRESSED_SIZE then Err(DecompressedTooLarge) else Ok(out)
  }

  /** `read_frame`: a stream that ends inside the header reads as a clean end. */
  function ReadFrame(z: Zstd, input: Bytes): Read {
    if |input| < 5 then Eof
    else
      var len, tag := FromBe(input[..4]), input[4];
      if len > MAX_FRAME_SIZE then Fail(FrameTooLarge(len))
      else if len == 0 then Fail(MalformedFrame)
      else if |input| < 4 + len then Fail(Io)
      else
        var payload, rest := input[5..4 + len], input[4 + len..];
        if tag == RAW then Got(payload, rest)
        else if tag == ZSTD then
          match Inflate(z, payload) case Ok(out) => Got(out, rest) case Err(e) => Fail(e)
        else if tag == 0 || tag == 1 then Fail(LegacyPostcardCodec(tag))
        else Fail(UnknownCodec(tag))
  }

  class Reader {
    var input: Bytes  // what has not been read yet

    constructor (bytes: Bytes)
      ensures input == bytes
    {
      input := bytes;
    }

    /** `read_exact`: the next `n` bytes, or an unexpected end of the stream. */
    method ReadExact(n: nat) returns (r: Option<Bytes>)
      modifies this
      ensures if |old(input)| < n then r.None? else r == Some(old(input)[..n]) && input == old(input)[n..]
    {
      if |input| < n {
        input := [];
        return None;
      }
      r := Some(input[..n]);
      input := input[n..];
    }

    /** `read_frame`. */
    method Next(z: Zstd) returns (r: Result<Option<Bytes>>)
      modifies this
      ensures match ReadFrame(z, old(input))
        case Eof => r == Ok(None)
        case Got(payload, rest) => r == Ok(Some(payload)) && input == rest
        case Fail(e) => r == Err(e)
      ensures r.Ok? && r.value.Some? ==> |input| < |old(input)|
    {
      var header := ReadExact(5);
      if header.None? { return Ok(None); }
      var len, tag := FromBe(header.value[..4]), header.value[4];
      if len > MAX_FRAME_SIZE { return Err(FrameTooLarge(len)); }
      if len == 0 { return Err(MalformedFrame); }
      var payload := ReadExact(len - 1);
      if payload.None? { return Err(Io); }
      assert old(input)[5..][..len - 1] == old(input)[5..4 + len];
      assert old(input)[5..][len - 1..] == old(input)[4 + len..];
      assert header.value[..4] == old(input)[..4];
      if tag == RAW { return Ok(Some(payload.value)); }
      if tag == ZSTD {
        match Inflate(z, payload.value)
        case Ok(out) => return Ok(Some(out));
        case Err(e) => return Err(e);
      }
      if tag == 0 || tag == 1 { return Err(LegacyPostcardCodec(tag)); }
      return Err(UnknownCodec(tag));
    }
  }

  datatype Ending = CleanEof | Failed(error: Error)

  /** Reading until the end of the stream or the first error. */
  function ReadAll(z: Zstd, input: Bytes): (seq<Bytes>, Ending)
    decreases |input|
  {
    match ReadFrame(z, input)
    case Eof => ([], CleanEof)
    case Fail(e) => ([], Failed(e))
    case Got(payload, rest) =>
      var tail := ReadAll(z, rest);
      ([payload] + tail.0, tail.1)
  }

  // ----- one frame

  lemma FrameHeader(tag: Byte, payload: Bytes, rest: Bytes)
    requires |payload| < MAX_FRAME_SIZE
    ensures var input := Frame(tag, payload) + rest;
      && |Frame(tag, payload)| == 5 + |payload|
      && FromBe(input[..4]) == |payload| + 1 && input[4] == tag
      && input[5..5 + |payload|] == payload && input[5 + |payload|..] == rest
  {
    var input := Frame(tag, payload) + rest;
    assert input[..4] == ToBe(|payload| + 1);
    PrefixRoundTrip(|payload| + 1, input[..4]);
  }

  /** A write never adds more than five bytes to the payload, and fails on a payload that
      fits only if the compressor does. */
  lemma WrittenSize(z: Zstd, comp: Compressor, data: Bytes)
    ensures Written(z, comp, data).Ok? ==> 5 <= |Written(z, comp, data).value| <= |data| + 5
    ensures |data| < MAX_FRAME_SIZE && Written(z, comp, data).Err? ==> Written(z, comp, data).error == Compress
  {
    var chosen := Choose(z, comp, data);
    if chosen.Ok? && |chosen.value.1| < MAX_FRAME_SIZE { FrameHeader(chosen.value.0, chosen.value.1, []); }
  }

  /** Whatever a write accepts reads back unchanged, and leaves the rest of the stream, exactly
      if it fits the decompression bound; beyond it the reader refuses the frame. */
  lemma ReadBackIff(z: Zstd, comp: Compressor, data: Bytes, rest: Bytes)
    requires Lossless(z) && Written(z, comp, data).Ok?
    ensures ReadFrame(z, Written(z, comp, data).value + rest)
         == if |data| <= 64 * 1024 * 1024 then Got(data, rest) else Fail(DecompressedTooLarge)
  {
    var chosen := Choose(z, comp, data).value;
    FrameHeader(chosen.0, chosen.1, rest);
  }

  /** A compressor that makes nothing of a payload just beyond the decompression bound: the writer
      accepts it, and the reader refuses it. */
  lemma AcceptedButUnreadable()
    ensures exists z: Zstd, comp: Compressor, data: Bytes ::
      && Lossless(z) && Written(z, comp, data).Ok?
      && ReadFrame(z, Written(z, comp, data).value) == Fail(DecompressedTooLarge)
  {
    hide ReadFrame;
    var data: Bytes := seq(MAX_DECOMPRESSED_SIZE + 1, _ => 0);
    var z := Zstd((d: Bytes, level: int) => if d == data then Some([]) else None,
                  (c: Bytes) => if c == [] then Some(data) else None);
    var comp := ZstdAt(3, 0);
    assert z.compress(data, 3) == Some([]);
    assert Written(z, comp, data) == Ok(Frame(ZSTD, []));
    ReadBackIff(z, comp, data, []);
    assert Frame(ZSTD, []) + [] == Frame(ZSTD, []);
    assert Lossless(z) && ReadFrame(z, Written(z, comp, data).value) == Fail(DecompressedTooLarge);
  }

  /** A frame cut short reads as a clean end inside its header, and as an I/O error after it. */
  lemma CutFrame(z: Zstd, comp: Compressor, data: Bytes, k: nat)
    requires Written(z, comp, data).Ok? && k < |Written(z, comp, data).value|
    ensures ReadFrame(z, Written(z, comp, data).value[..k]) == if k < 5 then Eof else Fail(Io)
  {
    var chosen := Choose(z, comp, data).value;
    var f := Written(z, comp, data).value;
    FrameHeader(chosen.0, chosen.1, []);
    assert f + [] == f;
    if k >= 5 { assert f[..k][..4] == f[..4]; }
  }

  // ----- streams

  datatype Item = Item(comp: Compressor, data: Bytes)

  /** Every item was accepted by the writer and fits the decompression bound. */
  predicate Sendable(z: Zstd, items: seq<Item>) {
    forall i :: 0 <= i < |items| ==>
      Written(z, items[i].comp, items[i].data).Ok? && |items[i].data| <= MAX_DECOMPRESSED_SIZE
  }

  function Stream(z: Zstd, items: seq<Item>): Bytes
    requires Sendable(z, items)
  {
    if items == [] then [] else Written(z, items[0].comp, items[0].data).value + Stream(z, items[1..])
  }

  function Payloads(items: seq<Item>): seq<Bytes> {
    seq(|items|, i requires 0 <= i < |items| => items[i].data)
  }

  /** How many whole frames the first `k` bytes hold, and how many bytes follow them. */
  function Cut(z: Zstd, items: seq<Item>, k: nat): (r: (nat, nat))
    requires Sendable(z, items)
    ensures r.0 <= |items|
  {
    if items == [] || k < |Written(z, items[0].comp, items[0].data).value| then (0, k)
    else
      var c := Cut(z, items[1..], k - |Written(z, items[0].comp, items[0].data).value|);
      (c.0 + 1, c.1)
  }

  /** Any truncation yields a prefix of the payloads and then a clean end, at a frame boundary
      or inside a header, or an I/O error when a payload is incomplete. */
  lemma {:induction false} Truncated(z: Zstd, items: seq<Item>, k: nat)
    requires Lossless(z) && Sendable(z, items) && k <= |Stream(z, items)|
    ensures var (n, left) := Cut(z, items, k);
      ReadAll(z, Stream(z, items)[..k]) == (Payloads(items[..n]), if left < 5 then CleanEof else Failed(Io))
    decreases |items|
  {
    hide ReadFrame, Written, Lossless;
    if items == [] {
      CutEmpty(z);
      assert Stream(z, items)[..k] == [] && Payloads(items[..0]) == [];
    } else {
      var f, tail := Written(z, items[0].comp, items[0].data).value, Stream(z, items[1..]);
      WrittenSize(z, items[0].comp, items[0].data);
      if k < |f| {
        assert (f + tail)[..k] == f[..k];
        CutFrame(z, items[0].comp, items[0].data, k);
        assert Payloads(items[..0]) == [];
      } else {
        assert (f + tail)[..k] == f + tail[..k - |f|];
        ReadBackIff(z, items[0].comp, items[0].data, tail[..k - |f|]);
        Truncated(z, items[1..], k - |f|);
        var n := Cut(z, items[1..], k - |f|).0;
        assert Payloads(items[..n + 1]) == [items[0].data] + Payloads(items[1..][..n]);
      }
    }
  }

  lemma CutEmpty(z: Zstd)
    ensures ReadAll(z, []) == ([], CleanEof)
  {}

  lemma {:induction false} CutWhole(z: Zstd, items: seq<Item>)
    requires Sendable(z, items)
    ensures Cut(z, items, |Stream(z, items)|) == (|items|, 0)
    decreases |items|
  {
    if items != [] { CutWhole(z, items[1..]); }
  }

  /** Reading a whole stream until its end returns exactly the payloads written. */
  lemma StreamRoundTrip(z: Zstd, items: seq<Item>)
    requires Lossless(z) && Sendable(z, items)
    ensures ReadAll(z, Stream(z, items)) == (Payloads(items), CleanEof)
  {
    CutWhole(z, items);
    Truncated(z, items, |Stream(z, items)|);
    assert Stream(z, items)[..|Stream(z, items)|] == Stream(z, items) && items[..|items|] == items;
  }

  /** A batch of writes leaves the stream of their frames on the wire. */
  method SendAll(z: Zstd, items: seq<Item>) returns (wire: Bytes)
    requires Sendable(z, items)
    ensures wire == Stream(z, items)
  {
    hide Written;
    var w := new Writer();
    for i := 0 to |items|
      invariant fresh(w) && w.wire + Stream(z, items[i..]) == Stream(z, items)
    {
      assert items[i..][1..] == items[i + 1..];
      var _ := w.WriteFrame(z, items[i].comp, items[i].data);
    }
    wire := w.wire;
  }

  /** Reading frame by frame until the end or the first error. */
  method ReceiveAll(z: Zstd, wire: Bytes) returns (received: seq<Bytes>, ending: Ending)
    ensures (received, ending) == ReadAll(z, wire)
  {
    hide ReadFrame;
    var r := new Reader(wire);
    received := [];
    while true
      invariant fresh(r)
      invariant received + ReadAll(z, r.input).0 == ReadAll(z, wire).0 && ReadAll(z, r.input).1 == ReadAll(z, wire).1
      decreases |r.input|
    {
      assert received + [] == received;
      var next := r.Next(z);
      if next.Err? { return received, Failed(next.error); }
      if next.value.None? { return received, CleanEof; }
      received := received + [next.value.value];
    }
  }

  // ----- the bytes on the wire

  /** The number four bytes stand for, the first counting most. */
  function BigEndian(b: Bytes): nat
    requires |b| >= 4
  {
    16777216 * b[0] as nat + 65536 * b[1] as nat + 256 * b[2] as nat + b[3] as nat
  }

  /** Length of what follows, tag, payload. */
  predicate IsFrame(frame: Bytes, tag: Byte, payload: Bytes) {
    |frame| == 5 + |payload| && BigEndian(frame) == |payload| + 1 && frame[4] == tag && frame[5..] == payload
  }

  lemma FrameIs(tag: Byte, payload: Bytes)
    requires |payload| < MAX_FRAME_SIZE
    ensures IsFrame(Frame(tag, payload), tag, payload)
  {
    var n := |payload| + 1;
    PrefixRoundTrip(n, [0, 0, 0, 0]);
    assert Frame(tag, payload)[..4] == ToBe(n);
    assert FromBe(ToBe(n)) == BigEndian(ToBe(n));
  }

  /** Which form goes out: below the threshold or without a compressor the payload itself, tagged 2; from
      the threshold on the compressed form, tagged 3, if it is smaller, and otherwise the payload; and an
      error if the compressor fails. */
  lemma WrittenForm(z: Zstd, comp: Compressor, data: Bytes)
    requires |data| < 64 * 1024 * 1024
    ensures var w := Written(z, comp, data);
      match comp
      case Off => w.Ok? && IsFrame(w.value, 2, data)
      case ZstdAt(level, minSize) =>
        if |data| < minSize then w.Ok? && IsFrame(w.value, 2, data)
        else match z.compress(data, level)
          case None => w == Err(Compress)
          case Some(c) => w.Ok? && if |c| < |data| then IsFrame(w.value, 3, c) else IsFrame(w.value, 2, data)
  {
    hide Frame, IsFrame;
    FrameIs(RAW, data);
    var chosen := Choose(z, comp, data);
    if chosen.Ok? { FrameIs(chosen.value.0, chosen.value.1); }
  }

  /** What a reader makes of a header, payload complete or not. */
  lemma HeaderRead(z: Zstd, input: Bytes)
    requires |input| >= 5
    ensures var len, tag, r := BigEndian(input), input[4], ReadFrame(z, input);
      && (len > 64 * 1024 * 1024 ==> r == Fail(FrameTooLarge(len)))
      && (len == 0 ==> r == Fail(MalformedFrame))
      && (0 < len <= 64 * 1024 * 1024 && |input| < 4 + len ==> r == Fail(Io))
      && (0 < len <= 64 * 1024 * 1024 && 4 + len <= |input| ==>
            && (tag == 2 ==> r == Got(input[5..4 + len], input[4 + len..]))
            && (tag == 0 || tag == 1 ==> r == Fail(LegacyPostcardCodec(tag)))
            && (tag > 3 ==> r == Fail(UnknownCodec(tag))))
  {
    assert FromBe(input[..4]) == BigEndian(input);
  }
}

/** The MessagePack codec of the repository: values, the encoder's choice of the smallest
    form, and the decoder with its three outcomes. Every outcome but Short is final: more
    input does not change it. */
module Msgpack {
  import opened Bytes
  import opened Streaming

  const DEFAULT_MAX_DEPTH: nat := 64
  const MAX_UINT8: nat := 0xff
  const MAX_UINT16: nat := 0xffff
  const MAX_UINT32: nat := 0xffff_ffff
  const TWO63: int := 0x8000_0000_0000_0000
  const NANOS: nat := 1_000_000_000

  /** Timestamps are kept as the body of their extension, floats as their bytes. A map is
      the list of its keys and values, alternating, in wire order. */
  datatype Value =
    | Nil
    | Bool(b: bool)
    | Int(n: int)
    | Float(raw: bytes)
    | Str(s: bytes)
    | Bin(data: bytes)
    | Ext(kind: byte, body: bytes)
    | Timestamp(stamp: bytes)
    | Arr(elems: seq<Value>)
    | Map(entries: seq<Value>)

  // ---------------------------------------------------------------- integers

  /** n as `width` bytes, most significant first. */
  function BigEndian(n: nat, width: nat): (s: bytes)
    ensures |s| == width
  {
    if width == 0 then [] else BigEndian(n / 256, width - 1) + [n % 256]
  }

  function Unsigned(s: bytes): (n: nat) {
    if s == [] then 0 else 256 * Unsigned(s[..|s| - 1]) + s[|s| - 1]
  }

  /** Two's complement. */
  function Signed(s: bytes): int {
    var n := Unsigned(s);
    if s != [] && s[0] >= 128 then n - Pow256(|s|) else n
  }

  lemma {:induction false} UnsignedOfBigEndian(n: nat, width: nat)
    requires n < Pow256(width)
    ensures Unsigned(BigEndian(n, width)) == n
  {
    if width > 0 {
      UnsignedOfBigEndian(n / 256, width - 1);
      var s := BigEndian(n, width);
      assert s[..|s| - 1] == BigEndian(n / 256, width - 1);
    }
  }

  lemma {:induction false} TopByte(n: nat, width: nat)
    requires 0 < width && n < Pow256(width)
    ensures BigEndian(n, width)[0] >= 128 <==> 2 * n >= Pow256(width)
  {
    if width == 1 {
      assert Pow256(1) == 256 * Pow256(0);
    } else {
      TopByte(n / 256, width - 1);
      assert BigEndian(n, width)[0] == BigEndian(n / 256, width - 1)[0];
    }
  }

  /** A negative number is written as itself plus 256^width. */
  lemma SignedOfBigEndian(n: int, width: nat)
    requires 0 < width && n < 0 <= 2 * n + Pow256(width)
    ensures Signed(BigEndian(n + Pow256(width), width)) == n
  {
    UnsignedOfBigEndian(n + Pow256(width), width);
    TopByte(n + Pow256(width), width);
  }

  // ---------------------------------------------------------------- heads

  datatype Shape = StrShape | BinShape | ExtShape | ArrShape | MapShape

  /** What the first byte of a value says is to follow. */
  datatype Head =
    | Immediate(value: Value)
    | Number(width: nat, signed: bool)
    | Floating(width: nat)
    | Sized(shape: Shape, lenWidth: nat, len: nat)  // the length follows, or is `len` when lenWidth is 0
    | Unassigned

  function HeadOf(c: byte): Head {
    if c <= 0x7f then Immediate(Int(c))
    else if c >= 0xe0 then Immediate(Int(c - 256))
    else if c <= 0x8f then Sized(MapShape, 0, c - 0x80)
    else if c <= 0x9f then Sized(ArrShape, 0, c - 0x90)
    else if c <= 0xbf then Sized(StrShape, 0, c - 0xa0)
    else if c == 0xc0 then Immediate(Nil)
    else if c == 0xc1 then Unassigned
    else if c == 0xc2 then Immediate(Bool(false))
    else if c == 0xc3 then Immediate(Bool(true))
    else if c == 0xc4 then Sized(BinShape, 1, 0)
    else if c == 0xc5 then Sized(BinShape, 2, 0)
    else if c == 0xc6 then Sized(BinShape, 4, 0)
    else if c == 0xc7 then Sized(ExtShape, 1, 0)
    else if c == 0xc8 then Sized(ExtShape, 2, 0)
    else if c == 0xc9 then Sized(ExtShape, 4, 0)
    else if c == 0xca then Floating(4)
    else if c == 0xcb then Floating(8)
    else if c == 0xcc then Number(1, false)
    else if c == 0xcd then Number(2, false)
    else if c == 0xce then Number(4, false)
    else if c == 0xcf then Number(8, false)
    else if c == 0xd0 then Number(1, true)
    else if c == 0xd1 then Number(2, true)
    else if c == 0xd2 then Number(4, true)
    else if c == 0xd3 then Number(8, true)
    else if c == 0xd4 then Sized(ExtShape, 0, 1)
    else if c == 0xd5 then Sized(ExtShape, 0, 2)
    else if c == 0xd6 then Sized(ExtShape, 0, 4)
    else if c == 0xd7 then Sized(ExtShape, 0, 8)
    else if c == 0xd8 then Sized(ExtShape, 0, 16)
    else if c == 0xd9 then Sized(StrShape, 1, 0)
    else if c == 0xda then Sized(StrShape, 2, 0)
    else if c == 0xdb then Sized(StrShape, 4, 0)
    else if c == 0xdc then Sized(ArrShape, 2, 0)
    else if c == 0xdd then Sized(ArrShape, 4, 0)
    else if c == 0xde then Sized(MapShape, 2, 0)
    else Sized(MapShape, 4, 0)
  }

  // ---------------------------------------------------------------- decoding

  /** The nanoseconds of an 8 or 12 byte timestamp have to stay below one second. */
  function StampedExt(kind: byte, body: bytes): Option<Value> {
    if kind != 0xff then Some(Ext(kind, body))
    else if |body| == 4 then Some(Timestamp(body))
    else if |body| == 8 && Unsigned(body[..4]) / 4 < NANOS then Some(Timestamp(body))
    else if |body| == 12 && Unsigned(body[..4]) < NANOS then Some(Timestamp(body))
    else None
  }

  /** One value from the front of s, at the given nesting depth. */
  function Decode(s: bytes, depth: nat): (d: Decoded<Value>)
    ensures d.Ok? ==> 0 < d.used <= |s|
    decreases |s|, 1, 0
  {
    if depth > DEFAULT_MAX_DEPTH then Corrupt
    else if s == [] then Short
    else
      match HeadOf(s[0])
      case Immediate(v) => Ok(v, 1)
      case Unassigned => Corrupt
      case Number(width, signed) =>
        if |s| < 1 + width then Short
        else Ok(Int(if signed then Signed(s[1..1 + width]) else Unsigned(s[1..1 + width])), 1 + width)
      case Floating(width) =>
        if |s| < 1 + width then Short else Ok(Float(s[1..1 + width]), 1 + width)
      case Sized(shape, lenWidth, len) =>
        if |s| < 1 + lenWidth then Short
        else
          var n := if lenWidth == 0 then len else Unsigned(s[1..1 + lenWidth]);
          DecodeSized(shape, n, s, 1 + lenWidth, depth)
  }

  function DecodeSized(shape: Shape, n: nat, s: bytes, at: nat, depth: nat): (d: Decoded<Value>)
    requires 0 < at <= |s|
    ensures d.Ok? ==> 0 < d.used <= |s|
    decreases |s|, 0, 0
  {
    match shape
    case StrShape => if |s| - at < n then Short else Ok(Str(s[at..at + n]), at + n)
    case BinShape => if |s| - at < n then Short else Ok(Bin(s[at..at + n]), at + n)
    case ExtShape =>
      if |s| - at < 1 + n then Short
      else
        (match StampedExt(s[at], s[at + 1..at + 1 + n])
         case Some(v) => Ok(v, at + 1 + n)
         case None => Corrupt)
    case ArrShape =>
      if |s| - at < n then Short
      else
        (match DecodeMany(s[at..], n, depth + 1)
         case Ok(vs, used) => Ok(Arr(vs), at + used)
         case Short => Short
         case Corrupt => Corrupt)
    case MapShape =>
      if |s| - at < 2 * n then Short
      else
        (match DecodeMany(s[at..], 2 * n, depth + 1)
         case Ok(vs, used) => Ok(Map(vs), at + used)
         case Short => Short
         case Corrupt => Corrupt)
  }

  /** k values one after the other. */
  function DecodeMany(s: bytes, k: nat, depth: nat): (d: Decoded<seq<Value>>)
    ensures d.Ok? ==> d.used <= |s| && |d.value| == k
    decreases |s|, 2, k
  {
    if k == 0 then Ok([], 0)
    else
      match Decode(s, depth)
      case Short => Short
      case Corrupt => Corrupt
      case Ok(v, used) =>
        match DecodeMany(s[used..], k - 1, depth)
        case Short => Short
        case Corrupt => Corrupt
        case Ok(vs, more) => Ok([v] + vs, used + more)
  }

  /** What has been decoded, or found corrupt, stays so when more input arrives. */
  lemma {:induction false} DecodeStable(s: bytes, more: bytes, depth: nat)
    ensures !Decode(s, depth).Short? ==> Decode(s + more, depth) == Decode(s, depth)
    decreases |s|, 1, 0
  {
    if s != [] && depth <= DEFAULT_MAX_DEPTH {
      var all := s + more;
      assert all[0] == s[0];
      match HeadOf(s[0]) {
        case Immediate(_) =>
        case Unassigned =>
        case Number(width, _) =>
          if 1 + width <= |s| {
            assert all[1..1 + width] == s[1..1 + width];
          }
        case Floating(width) =>
          if 1 + width <= |s| {
            assert all[1..1 + width] == s[1..1 + width];
          }
        case Sized(shape, lenWidth, len) =>
          if 1 + lenWidth <= |s| {
            assert all[1..1 + lenWidth] == s[1..1 + lenWidth];
            var n := if lenWidth == 0 then len else Unsigned(s[1..1 + lenWidth]);
            DecodeSizedStable(shape, n, s, more, 1 + lenWidth, depth);
          }
      }
    }
  }

  lemma {:induction false} DecodeSizedStable(shape: Shape, n: nat, s: bytes, more: bytes, at: nat, depth: nat)
    requires 0 < at <= |s|
    ensures !DecodeSized(shape, n, s, at, depth).Short? ==>
      DecodeSized(shape, n, s + more, at, depth) == DecodeSized(shape, n, s, at, depth)
    decreases |s|, 0, 0
  {
    var all := s + more;
    assert all[at..] == s[at..] + more;
    match shape {
      case StrShape =>
        if n <= |s| - at {
          assert all[at..at + n] == s[at..at + n];
        }
      case BinShape =>
        if n <= |s| - at {
          assert all[at..at + n] == s[at..at + n];
        }
      case ExtShape =>
        if 1 + n <= |s| - at {
          assert all[at] == s[at] && all[at + 1..at + 1 + n] == s[at + 1..at + 1 + n];
        }
      case ArrShape => DecodeManyStable(s[at..], more, n, depth + 1);
      case MapShape => DecodeManyStable(s[at..], more, 2 * n, depth + 1);
    }
  }

  lemma {:induction false} DecodeManyStable(s: bytes, more: bytes, k: nat, depth: nat)
    ensures !DecodeMany(s, k, depth).Short? ==> DecodeMany(s + more, k, depth) == DecodeMany(s, k, depth)
    decreases |s|, 2, k
  {
    if k > 0 {
      DecodeStable(s, more, depth);
      var d := Decode(s, depth);
      if d.Ok? {
        assert (s + more)[d.used..] == s[d.used..] + more;
        DecodeManyStable(s[d.used..], more, k - 1, depth);
      }
    }
  }

  /** A value cut off anywhere is recognised as cut off, never as corrupt or as another
      value: no encoding is a proper prefix of another. */
  lemma PrefixIsShort(s: bytes, k: nat)
    requires Decode(s, 0).Ok? && k < Decode(s, 0).used
    ensures Decode(s[..k], 0).Short?
  {
    assert s == s[..k] + s[k..];
    DecodeStable(s[..k], s[k..], 0);
  }

  // ---------------------------------------------------------------- encoding

  /** What the encoder accepts: numbers of 64 bits, lengths of 32, nesting up to the limit. */
  predicate Encodable(v: Value, depth: nat)
    decreases v, 0
  {
    && depth <= DEFAULT_MAX_DEPTH
    && match v
       case Nil => true
       case Bool(_) => true
       case Int(n) => -TWO63 <= n < 2 * TWO63
       case Float(raw) => |raw| == 8
       case Str(s) => |s| <= MAX_UINT32
       case Bin(data) => |data| <= MAX_UINT32
       case Ext(kind, body) => kind != 0xff && |body| <= MAX_UINT32
       case Timestamp(stamp) => StampedExt(0xff, stamp).Some?
       case Arr(elems) => |elems| <= MAX_UINT32 && EncodableAll(elems, depth + 1)
       case Map(entries) => |entries| % 2 == 0 && |entries| / 2 <= MAX_UINT32 && EncodableAll(entries, depth + 1)
  }

  predicate EncodableAll(vs: seq<Value>, depth: nat)
    decreases vs, 1
  {
    vs == [] || (Encodable(vs[0], depth) && EncodableAll(vs[1..], depth))
  }

  /** A format byte and the width of the big-endian field behind it. */
  datatype Form = Form(code: byte, width: nat)

  /** The smallest form that holds n, unsigned when n is not negative. */
  function IntForm(n: int): Form
    requires -TWO63 <= n < 2 * TWO63
  {
    if n >= 0 then
      if n <= 0x7f then Form(n, 0)
      else if n <= MAX_UINT8 then Form(0xcc, 1)
      else if n <= MAX_UINT16 then Form(0xcd, 2)
      else if n <= MAX_UINT32 then Form(0xce, 4)
      else Form(0xcf, 8)
    else if n >= -32 then Form(n + 256, 0)
    else if n >= -0x80 then Form(0xd0, 1)
    else if n >= -0x8000 then Form(0xd1, 2)
    else if n >= -0x8000_0000 then Form(0xd2, 4)
    else Form(0xd3, 8)
  }

  lemma IntFormFits(n: int)
    requires -TWO63 <= n < 2 * TWO63
    ensures var f := IntForm(n);
      if f.width == 0 then HeadOf(f.code) == Immediate(Int(n))
      else
        && HeadOf(f.code) == Number(f.width, n < 0)
        && (if n >= 0 then n < Pow256(f.width) else 0 <= 2 * n + Pow256(f.width))
  {
    Powers();
  }

  function EncodeInt(n: int): (s: bytes)
    requires -TWO63 <= n < 2 * TWO63
    ensures s != []
  {
    IntFormFits(n);
    var f := IntForm(n);
    [f.code] + (if f.width == 0 then [] else BigEndian(if n < 0 then n + Pow256(f.width) else n, f.width))
  }

  /** The smallest head that holds the length of a sized value. */
  function HeadForm(shape: Shape, n: nat): Form {
    match shape
    case StrShape =>
      if n < 32 then Form(0xa0 + n, 0)
      else if n <= MAX_UINT8 then Form(0xd9, 1)
      else if n <= MAX_UINT16 then Form(0xda, 2)
      else Form(0xdb, 4)
    case BinShape =>
      if n <= MAX_UINT8 then Form(0xc4, 1)
      else if n <= MAX_UINT16 then Form(0xc5, 2)
      else Form(0xc6, 4)
    case ExtShape =>
      if n == 1 then Form(0xd4, 0)
      else if n == 2 then Form(0xd5, 0)
      else if n == 4 then Form(0xd6, 0)
      else if n == 8 then Form(0xd7, 0)
      else if n == 16 then Form(0xd8, 0)
      else if n <= MAX_UINT8 then Form(0xc7, 1)
      else if n <= MAX_UINT16 then Form(0xc8, 2)
      else Form(0xc9, 4)
    case ArrShape =>
      if n < 16 then Form(0x90 + n, 0)
      else if n <= MAX_UINT16 then Form(0xdc, 2)
      else Form(0xdd, 4)
    case MapShape =>
      if n < 16 then Form(0x80 + n, 0)
      else if n <= MAX_UINT16 then Form(0xde, 2)
      else Form(0xdf, 4)
  }

  lemma HeadFormFits(shape: Shape, n: nat)
    requires n <= MAX_UINT32
    ensures var f := HeadForm(shape, n);
      && HeadOf(f.code) == Sized(shape, f.width, if f.width == 0 then n else 0)
      && (0 < f.width ==> n < Pow256(f.width))
  {
    Powers();
  }

  function EncodeHead(shape: Shape, n: nat): (s: bytes)
    requires n <= MAX_UINT32
    ensures s != []
  {
    var f := HeadForm(shape, n);
    [f.code] + (if f.width == 0 then [] else BigEndian(n, f.width))
  }

  function Encode(v: Value, depth: nat): (s: bytes)
    requires Encodable(v, depth)
    ensures s != []
    decreases v, 0
  {
    match v
    case Nil => [0xc0]
    case Bool(b) => if b then [0xc3] else [0xc2]
    case Int(n) => EncodeInt(n)
    case Float(raw) => [0xcb] + raw
    case Str(s) => EncodeHead(StrShape, |s|) + s
    case Bin(data) => EncodeHead(BinShape, |data|) + data
    case Ext(kind, body) => EncodeHead(ExtShape, |body|) + [kind] + body
    case Timestamp(stamp) => EncodeHead(ExtShape, |stamp|) + [0xff] + stamp
    case Arr(elems) => EncodeHead(ArrShape, |elems|) + EncodeAll(elems, depth + 1)
    case Map(entries) => EncodeHead(MapShape, |entries| / 2) + EncodeAll(entries, depth + 1)
  }

  /** The encodings one after the other, unframed. */
  function EncodeAll(vs: seq<Value>, depth: nat): (s: bytes)
    requires EncodableAll(vs, depth)
    ensures |vs| <= |s|
    decreases vs, 1
  {
    if vs == [] then [] else Encode(vs[0], depth) + EncodeAll(vs[1..], depth)
  }

  // ---------------------------------------------------------------- round trip

  lemma Powers()
    ensures Pow256(1) == 0x100 && Pow256(2) == 0x1_0000 && Pow256(4) == 0x1_0000_0000 && Pow256(8) == 2 * TWO63
  {
    assert Pow256(3) == 0x100_0000;
    assert Pow256(5) == 0x100_0000_0000;
    assert Pow256(6) == 0x1_0000_0000_0000;
    assert Pow256(7) == 0x100_0000_0000_0000;
  }

  /** A head followed by anything reads as the head's shape and length. */
  lemma HeadRoundTrip(shape: Shape, n: nat, rest: bytes, depth: nat)
    requires n <= MAX_UINT32 && depth <= DEFAULT_MAX_DEPTH
    ensures var h := EncodeHead(shape, n);
      Decode(h + rest, depth) == DecodeSized(shape, n, h + rest, |h|, depth)
  {
    HeadFormFits(shape, n);
    var h := EncodeHead(shape, n);
    var s := h + rest;
    assert s[0] == HeadForm(shape, n).code;
    if |h| > 1 {
      assert s[1..|h|] == BigEndian(n, |h| - 1);
      UnsignedOfBigEndian(n, |h| - 1);
    }
  }

  lemma IntRoundTrip(n: int, rest: bytes, depth: nat)
    requires -TWO63 <= n < 2 * TWO63 && depth <= DEFAULT_MAX_DEPTH
    ensures Decode(EncodeInt(n) + rest, depth) == Ok(Int(n), |EncodeInt(n)|)
  {
    IntFormFits(n);
    var e, f := EncodeInt(n), IntForm(n);
    var s := e + rest;
    assert s[0] == f.code;
    if f.width > 0 {
      assert s[1..1 + f.width] == e[1..];
      if n >= 0 {
        UnsignedOfBigEndian(n, f.width);
      } else {
        SignedOfBigEndian(n, f.width);
      }
    }
  }

  lemma StrRoundTrip(str: bytes, rest: bytes, depth: nat)
    requires |str| <= MAX_UINT32 && depth <= DEFAULT_MAX_DEPTH
    ensures var e := EncodeHead(StrShape, |str|) + str; Decode(e + rest, depth) == Ok(Str(str), |e|)
  {
    var h := EncodeHead(StrShape, |str|);
    HeadRoundTrip(StrShape, |str|, str + rest, depth);
    Framed(h, str, rest);
  }

  lemma BinRoundTrip(data: bytes, rest: bytes, depth: nat)
    requires |data| <= MAX_UINT32 && depth <= DEFAULT_MAX_DEPTH
    ensures var e := EncodeHead(BinShape, |data|) + data; Decode(e + rest, depth) == Ok(Bin(data), |e|)
  {
    var h := EncodeHead(BinShape, |data|);
    HeadRoundTrip(BinShape, |data|, data + rest, depth);
    Framed(h, data, rest);
  }

  lemma ExtRoundTrip(kind: byte, body: bytes, rest: bytes, depth: nat)
    requires |body| <= MAX_UINT32 && depth <= DEFAULT_MAX_DEPTH && StampedExt(kind, body).Some?
    ensures var e := EncodeHead(ExtShape, |body|) + [kind] + body;
      Decode(e + rest, depth) == Ok(StampedExt(kind, body).value, |e|)
  {
    var h := EncodeHead(ExtShape, |body|);
    HeadRoundTrip(ExtShape, |body|, [kind] + body + rest, depth);
    FramedExt(h, kind, body, rest);
    ExtBody(h + ([kind] + body + rest), |h|, kind, body, rest, depth);
  }

  lemma FramedExt(h: bytes, kind: byte, body: bytes, rest: bytes)
    ensures h + [kind] + body + rest == h + ([kind] + body + rest)
    ensures (h + ([kind] + body + rest))[|h|..] == [kind] + body + rest
  {
  }

  lemma ExtBody(s: bytes, at: nat, kind: byte, body: bytes, rest: bytes, depth: nat)
    requires 0 < at <= |s| && s[at..] == [kind] + body + rest && StampedExt(kind, body).Some?
    ensures DecodeSized(ExtShape, |body|, s, at, depth) == Ok(StampedExt(kind, body).value, at + 1 + |body|)
  {
    assert s[at] == s[at..][0];
    assert s[at + 1..at + 1 + |body|] == s[at..][1..1 + |body|];
  }

  lemma Framed(h: bytes, body: bytes, rest: bytes)
    ensures h + body + rest == h + (body + rest)
    ensures (h + body + rest)[|h|..|h| + |body|] == body && (h + body + rest)[|h|..] == body + rest
  {
  }

  /** A container whose elements read back is one that reads back. */
  lemma ContainerRoundTrip(shape: Shape, vs: seq<Value>, n: nat, inner: bytes, rest: bytes, depth: nat)
    requires (shape == ArrShape && |vs| == n) || (shape == MapShape && |vs| == 2 * n)
    requires n <= MAX_UINT32 && depth <= DEFAULT_MAX_DEPTH && |vs| <= |inner|
    requires DecodeMany(inner + rest, |vs|, depth + 1) == Ok(vs, |inner|)
    ensures var e := EncodeHead(shape, n) + inner;
      Decode(e + rest, depth) == Ok(if shape == ArrShape then Arr(vs) else Map(vs), |e|)
  {
    var h := EncodeHead(shape, n);
    HeadRoundTrip(shape, n, inner + rest, depth);
    Framed(h, inner, rest);
  }

  /** Decoding what was encoded gives the value back and consumes exactly its bytes,
      whatever follows. */
  lemma {:induction false} RoundTrip(v: Value, rest: bytes, depth: nat)
    requires Encodable(v, depth)
    ensures Decode(Encode(v, depth) + rest, depth) == Ok(v, |Encode(v, depth)|)
    decreases v, 0
  {
    match v {
      case Nil =>
      case Bool(_) =>
      case Int(n) => IntRoundTrip(n, rest, depth);
      case Float(raw) => Framed([0xcb], raw, rest);
      case Str(str) => StrRoundTrip(str, rest, depth);
      case Bin(data) => BinRoundTrip(data, rest, depth);
      case Ext(kind, body) => ExtRoundTrip(kind, body, rest, depth);
      case Timestamp(stamp) => ExtRoundTrip(0xff, stamp, rest, depth);
      case Arr(elems) =>
        RoundTripAll(elems, rest, depth + 1);
        ContainerRoundTrip(ArrShape, elems, |elems|, EncodeAll(elems, depth + 1), rest, depth);
      case Map(entries) =>
        RoundTripAll(entries, rest, depth + 1);
        ContainerRoundTrip(MapShape, entries, |entries| / 2, EncodeAll(entries, depth + 1), rest, depth);
    }
  }

  lemma {:induction false} RoundTripAll(vs: seq<Value>, rest: bytes, depth: nat)
    requires EncodableAll(vs, depth)
    ensures DecodeMany(EncodeAll(vs, depth) + rest, |vs|, depth) == Ok(vs, |EncodeAll(vs, depth)|)
    decreases vs, 1
  {
    if vs != [] {
      var e, tail := Encode(vs[0], depth), EncodeAll(vs[1..], depth);
      RoundTrip(vs[0], tail + rest, depth);
      RoundTripAll(vs[1..], rest, depth);
      Framed(e, tail, rest);
      DecodeManyCons(e, tail + rest, vs, |tail|, depth);
    }
  }

  lemma DecodeManyCons(e: bytes, tail: bytes, vs: seq<Value>, used: nat, depth: nat)
    requires vs != [] && Decode(e + tail, depth) == Ok(vs[0], |e|)
    requires DecodeMany(tail, |vs| - 1, depth) == Ok(vs[1..], used)
    ensures DecodeMany(e + tail, |vs|, depth) == Ok(vs, |e| + used)
  {
    assert (e + tail)[|e|..] == tail;
    assert [vs[0]] + vs[1..] == vs;
  }

  /** One value that has to be the whole of the input. */
  function Unmarshal(s: bytes): Option<Value> {
    match Decode(s, 0)
    case Ok(v, used) => if used == |s| then Some(v) else None
    case Short => None
    case Corrupt => None
  }

  lemma UnmarshalRoundTrip(v: Value)
    requires Encodable(v, 0)
    ensures Unmarshal(Encode(v, 0)) == Some(v)
  {
    RoundTrip(v, [], 0);
    assert Encode(v, 0) + [] == Encode(v, 0);
  }
}

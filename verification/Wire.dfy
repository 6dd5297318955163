/** MessagePack as its specification gives it, byte by byte: which byte strings stand for a
    value. The decoder accepts nothing else, and the encoder writes one of the shortest. */
module Wire {
  import opened Bytes
  import opened Streaming
  import opened Msgpack

  function At(s: bytes, i: nat): int
    requires i < |s|
  {
    s[i]
  }

  /** A number in two, four or eight bytes, the most significant first. */
  predicate Big(n: int, s: bytes) {
    || (|s| == 1 && n == At(s, 0))
    || (|s| == 2 && n == At(s, 0) * 0x100 + At(s, 1))
    || (|s| == 4 && n == At(s, 0) * 0x100_0000 + At(s, 1) * 0x1_0000 + At(s, 2) * 0x100 + At(s, 3))
    || (|s| == 8 && n ==
         At(s, 0) * 0x100_0000_0000_0000 + At(s, 1) * 0x1_0000_0000_0000 + At(s, 2) * 0x100_0000_0000 + At(s, 3) * 0x1_0000_0000
         + At(s, 4) * 0x100_0000 + At(s, 5) * 0x1_0000 + At(s, 6) * 0x100 + At(s, 7))
  }

  /** The same with the top bit as the sign: two's complement. */
  predicate BigSigned(n: int, s: bytes) {
    s != [] && if n >= 0 then s[0] < 0x80 && Big(n, s) else s[0] >= 0x80 && Big(n + Range(|s|), s)
  }

  /** How many numbers so many bytes can hold. */
  function Range(width: nat): int {
    if width == 1 then 0x100
    else if width == 2 then 0x1_0000
    else if width == 4 then 0x1_0000_0000
    else 0x1_0000_0000_0000_0000
  }

  /** A format byte with a length behind it, in so many bytes. */
  predicate LengthHead(h: bytes, code: byte, width: nat, n: nat) {
    |h| == 1 + width && h[0] == code && Big(n, h[1..])
  }

  /** The head of a string, of bytes, of an array or of a map with n items. */
  predicate StrHeadOf(h: bytes, n: nat) {
    || (n <= 31 && h == [0xa0 + n])
    || LengthHead(h, 0xd9, 1, n) || LengthHead(h, 0xda, 2, n) || LengthHead(h, 0xdb, 4, n)
  }

  predicate BinHeadOf(h: bytes, n: nat) {
    LengthHead(h, 0xc4, 1, n) || LengthHead(h, 0xc5, 2, n) || LengthHead(h, 0xc6, 4, n)
  }

  predicate ExtHeadOf(h: bytes, n: nat) {
    || (n == 1 && h == [0xd4]) || (n == 2 && h == [0xd5]) || (n == 4 && h == [0xd6])
    || (n == 8 && h == [0xd7]) || (n == 16 && h == [0xd8])
    || LengthHead(h, 0xc7, 1, n) || LengthHead(h, 0xc8, 2, n) || LengthHead(h, 0xc9, 4, n)
  }

  predicate ArrHeadOf(h: bytes, n: nat) {
    (n <= 15 && h == [0x90 + n]) || LengthHead(h, 0xdc, 2, n) || LengthHead(h, 0xdd, 4, n)
  }

  predicate MapHeadOf(h: bytes, n: nat) {
    (n <= 15 && h == [0x80 + n]) || LengthHead(h, 0xde, 2, n) || LengthHead(h, 0xdf, 4, n)
  }

  predicate IntWire(n: int, s: bytes) {
    || (0 <= n <= 0x7f && s == [n])
    || (-32 <= n < 0 && s == [n + 0x100])
    || (s != [] && s[0] == 0xcc && |s| == 2 && Big(n, s[1..]))
    || (s != [] && s[0] == 0xcd && |s| == 3 && Big(n, s[1..]))
    || (s != [] && s[0] == 0xce && |s| == 5 && Big(n, s[1..]))
    || (s != [] && s[0] == 0xcf && |s| == 9 && Big(n, s[1..]))
    || (s != [] && s[0] == 0xd0 && |s| == 2 && BigSigned(n, s[1..]))
    || (s != [] && s[0] == 0xd1 && |s| == 3 && BigSigned(n, s[1..]))
    || (s != [] && s[0] == 0xd2 && |s| == 5 && BigSigned(n, s[1..]))
    || (s != [] && s[0] == 0xd3 && |s| == 9 && BigSigned(n, s[1..]))
  }

  /** The seconds and nanoseconds of a timestamp: 32 bits of seconds; 30 bits of
      nanoseconds and 34 of seconds; or 32 and 64 bits. */
  predicate StampBody(body: bytes) {
    || |body| == 4
    || (|body| == 8 && (At(body, 0) * 0x100_0000 + At(body, 1) * 0x1_0000 + At(body, 2) * 0x100 + At(body, 3)) / 4 < 1_000_000_000)
    || (|body| == 12 && At(body, 0) * 0x100_0000 + At(body, 1) * 0x1_0000 + At(body, 2) * 0x100 + At(body, 3) < 1_000_000_000)
  }

  ghost predicate Split(s: bytes, h: bytes, body: bytes) {
    s == h + body
  }

  /** The byte strings that stand for a value. */
  ghost predicate Stands(s: bytes, v: Value)
    decreases v, 0
  {
    match v
    case Nil => s == [0xc0]
    case Bool(b) => s == [if b then 0xc3 else 0xc2]
    case Int(n) => IntWire(n, s)
    case Float(raw) => (|raw| == 4 && s == [0xca] + raw) || (|raw| == 8 && s == [0xcb] + raw)
    case Str(t) => exists h :: StrHeadOf(h, |t|) && Split(s, h, t)
    case Bin(data) => exists h :: BinHeadOf(h, |data|) && Split(s, h, data)
    case Ext(kind, body) => kind != 0xff && exists h :: ExtHeadOf(h, |body|) && Split(s, h, [kind] + body)
    case Timestamp(body) => StampBody(body) && exists h :: ExtHeadOf(h, |body|) && Split(s, h, [0xff] + body)
    case Arr(elems) => exists h, body :: ArrHeadOf(h, |elems|) && Split(s, h, body) && StandAll(body, elems)
    case Map(entries) =>
      |entries| % 2 == 0 && exists h, body :: MapHeadOf(h, |entries| / 2) && Split(s, h, body) && StandAll(body, entries)
  }

  ghost predicate StandAll(s: bytes, vs: seq<Value>)
    decreases vs, 1
  {
    if vs == [] then s == []
    else exists a, b :: Split(s, a, b) && Stands(a, vs[0]) && StandAll(b, vs[1..])
  }

  // ---------------------------------------------------------------- numbers

  lemma UnsignedIsBig(s: bytes)
    requires |s| == 1 || |s| == 2 || |s| == 4 || |s| == 8
    ensures Big(Unsigned(s), s)
  {
    Peel(s);
    Peel(s[..|s| - 1]);
    if |s| >= 4 {
      Peel(s[..|s| - 2]);
      Peel(s[..|s| - 3]);
    }
    if |s| == 8 {
      Peel(s[..4]);
      Peel(s[..3]);
      Peel(s[..2]);
      Peel(s[..1]);
    }
  }

  lemma Peel(s: bytes)
    ensures s != [] ==> Unsigned(s) == 256 * Unsigned(s[..|s| - 1]) + s[|s| - 1]
    ensures forall k :: 0 < k <= |s| ==> s[..k][..k - 1] == s[..k - 1]
    ensures s == [] ==> Unsigned(s) == 0
  {
  }

  lemma SignedIsBig(s: bytes)
    requires |s| == 1 || |s| == 2 || |s| == 4 || |s| == 8
    ensures BigSigned(Signed(s), s)
  {
    UnsignedIsBig(s);
    Powers();
    TopBit(s);
  }

  /** The top bit is what is at least half of all there is. */
  lemma TopBit(s: bytes)
    requires |s| == 1 || |s| == 2 || |s| == 4 || |s| == 8
    ensures Unsigned(s) < Pow256(|s|)
  {
    UnsignedIsBig(s);
    Powers();
  }

  // ---------------------------------------------------------------- the decoder

  ghost predicate HeadStands(shape: Shape, h: bytes, n: nat) {
    match shape
    case StrShape => StrHeadOf(h, n)
    case BinShape => BinHeadOf(h, n)
    case ExtShape => ExtHeadOf(h, n)
    case ArrShape => ArrHeadOf(h, n)
    case MapShape => MapHeadOf(h, n)
  }

  /** The head a sized value has been read from. */
  lemma SizedHead(s: bytes, shape: Shape, lenWidth: nat, len: nat)
    requires s != [] && HeadOf(s[0]) == Sized(shape, lenWidth, len) && 1 + lenWidth <= |s|
    ensures HeadStands(shape, s[..1 + lenWidth], if lenWidth == 0 then len else Unsigned(s[1..1 + lenWidth]))
  {
    if lenWidth == 0 {
      assert s[..1] == [s[0]];
    } else {
      UnsignedIsBig(s[1..1 + lenWidth]);
      assert s[..1 + lenWidth][1..] == s[1..1 + lenWidth];
    }
  }

  lemma StampIsBody(kind: byte, body: bytes)
    ensures match StampedExt(kind, body)
      case None => kind == 0xff && !StampBody(body)
      case Some(v) => v == if kind == 0xff then Timestamp(body) else Ext(kind, body)
    ensures kind == 0xff && StampedExt(kind, body).Some? ==> StampBody(body)
  {
    if |body| == 8 || |body| == 12 {
      UnsignedIsBig(body[..4]);
    }
  }

  lemma NumberStands(s: bytes, width: nat, signed: bool)
    requires s != [] && HeadOf(s[0]) == Number(width, signed) && |s| == 1 + width
    ensures IntWire(if signed then Signed(s[1..]) else Unsigned(s[1..]), s)
  {
    UnsignedIsBig(s[1..]);
    SignedIsBig(s[1..]);
  }

  lemma ImmediateStands(c: byte)
    requires HeadOf(c).Immediate?
    ensures Stands([c], HeadOf(c).value)
  {
  }

  /** What the decoder reads a value from stands for it. */
  lemma {:induction false} DecodeStands(s: bytes, depth: nat, v: Value, used: nat)
    requires Decode(s, depth) == Ok(v, used)
    ensures Stands(s[..used], v)
    decreases |s|, 1, 0
  {
    match HeadOf(s[0]) {
      case Immediate(_) =>
        ImmediateStands(s[0]);
        assert s[..1] == [s[0]];
      case Unassigned =>
      case Number(width, signed) =>
        assert s[..1 + width][1..] == s[1..1 + width];
        NumberStands(s[..1 + width], width, signed);
      case Floating(width) =>
        assert s[..1 + width] == [s[0]] + s[1..1 + width];
      case Sized(shape, lenWidth, len) =>
        var n := if lenWidth == 0 then len else Unsigned(s[1..1 + lenWidth]);
        SizedHead(s, shape, lenWidth, len);
        DecodeSizedStands(shape, n, s, 1 + lenWidth, depth, v, used);
    }
  }

  /** A head and what is behind it. */
  lemma SizedStands(shape: Shape, n: nat, s: bytes, h: bytes, body: bytes, v: Value)
    requires HeadStands(shape, h, n) && Split(s, h, body)
    requires match shape
      case StrShape => v == Str(body) && n == |body|
      case BinShape => v == Bin(body) && n == |body|
      case ExtShape =>
        && |body| == 1 + n
        && if body[0] == 0xff then v == Timestamp(body[1..]) && StampBody(body[1..]) else v == Ext(body[0], body[1..])
      case ArrShape => v.Arr? && |v.elems| == n && StandAll(body, v.elems)
      case MapShape => v.Map? && |v.entries| == 2 * n && StandAll(body, v.entries)
    ensures Stands(s, v)
  {
    match shape {
      case StrShape =>
      case BinShape =>
      case ExtShape => assert body == [body[0]] + body[1..];
      case ArrShape => assert ArrHeadOf(h, |v.elems|);
      case MapShape => assert MapHeadOf(h, |v.entries| / 2);
    }
  }

  lemma {:induction false} DecodeSizedStands(shape: Shape, n: nat, s: bytes, at: nat, depth: nat, v: Value, used: nat)
    requires 0 < at <= |s| && HeadStands(shape, s[..at], n) && DecodeSized(shape, n, s, at, depth) == Ok(v, used)
    ensures Stands(s[..used], v)
    decreases |s|, 0, 1
  {
    var h := s[..at];
    match shape {
      case StrShape => SizedStands(shape, n, s[..used], h, s[at..used], v);
      case BinShape => SizedStands(shape, n, s[..used], h, s[at..used], v);
      case ExtShape =>
        StampIsBody(s[at], s[at + 1..used]);
        assert s[at..used][1..] == s[at + 1..used];
        SizedStands(shape, n, s[..used], h, s[at..used], v);
      case ArrShape => ElemsStand(shape, n, s, at, depth, v, used);
      case MapShape => ElemsStand(shape, n, s, at, depth, v, used);
    }
  }

  /** What an array or a map was read from, behind its head. */
  lemma ElemsOf(shape: Shape, n: nat, s: bytes, at: nat, depth: nat, v: Value, used: nat)
      returns (k: nat, vs: seq<Value>, more: nat)
    requires shape.ArrShape? || shape.MapShape?
    requires 0 < at <= |s| && DecodeSized(shape, n, s, at, depth) == Ok(v, used)
    ensures k == (if shape.ArrShape? then n else 2 * n) && v == if shape.ArrShape? then Arr(vs) else Map(vs)
    ensures DecodeMany(s[at..], k, depth + 1) == Ok(vs, more) && used == at + more && |vs| == k
  {
    k := if shape.ArrShape? then n else 2 * n;
    var d := DecodeMany(s[at..], k, depth + 1);
    vs, more := d.value, d.used;
  }

  lemma {:induction false} ElemsStand(shape: Shape, n: nat, s: bytes, at: nat, depth: nat, v: Value, used: nat)
    requires shape.ArrShape? || shape.MapShape?
    requires 0 < at <= |s| && HeadStands(shape, s[..at], n) && DecodeSized(shape, n, s, at, depth) == Ok(v, used)
    ensures Stands(s[..used], v)
    decreases |s|, 0, 0
  {
    var k, vs, more := ElemsOf(shape, n, s, at, depth, v, used);
    DecodeManyStands(s[at..], k, depth + 1, vs, more);
    assert s[at..][..more] == s[at..used];
    SizedStands(shape, n, s[..used], s[..at], s[at..used], v);
  }

  lemma StandAllCons(s: bytes, a: bytes, b: bytes, vs: seq<Value>)
    requires vs != [] && s == a + b && Stands(a, vs[0]) && StandAll(b, vs[1..])
    ensures StandAll(s, vs)
  {
    assert Split(s, a, b);
  }

  lemma ManyOf(s: bytes, k: nat, depth: nat, vs: seq<Value>, used: nat) returns (first: nat)
    requires k > 0 && DecodeMany(s, k, depth) == Ok(vs, used)
    ensures vs != [] && Decode(s, depth) == Ok(vs[0], first) && first <= used
    ensures DecodeMany(s[first..], k - 1, depth) == Ok(vs[1..], used - first)
  {
    var d := Decode(s, depth);
    first := d.used;
    var more := DecodeMany(s[d.used..], k - 1, depth);
    assert vs == [d.value] + more.value;
  }

  lemma Slice(s: bytes, i: nat, j: nat)
    requires i <= j <= |s|
    ensures s[i..][..j - i] == s[i..j] && s[..j] == s[..i] + s[i..j]
  {
  }

  lemma {:induction false} DecodeManyStands(s: bytes, k: nat, depth: nat, vs: seq<Value>, used: nat)
    requires DecodeMany(s, k, depth) == Ok(vs, used)
    ensures StandAll(s[..used], vs)
    decreases |s|, 2, k
  {
    if k > 0 {
      var first := ManyOf(s, k, depth, vs, used);
      DecodeStands(s, depth, vs[0], first);
      DecodeManyStands(s[first..], k - 1, depth, vs[1..], used - first);
      Slice(s, first, used);
      StandAllCons(s[..used], s[..first], s[first..used], vs);
    }
  }

  // ---------------------------------------------------------------- everything that stands for a value is read

  /** Nesting stays within what the decoder follows. */
  predicate Shallow(v: Value, depth: nat)
    decreases v, 0
  {
    depth <= 64 && (v.Arr? ==> AllShallow(v.elems, depth + 1)) && (v.Map? ==> AllShallow(v.entries, depth + 1))
  }

  predicate AllShallow(vs: seq<Value>, depth: nat)
    decreases vs, 1
  {
    vs == [] || (Shallow(vs[0], depth) && AllShallow(vs[1..], depth))
  }

  lemma BigIsUnsigned(s: bytes, n: nat)
    requires Big(n, s)
    ensures Unsigned(s) == n
  {
    UnsignedIsBig(s);
  }

  lemma BigIsSigned(s: bytes, n: int)
    requires BigSigned(n, s)
    ensures Signed(s) == n
  {
    Powers();
    UnsignedIsBig(s);
  }

  lemma ShapeOfHead(shape: Shape, h: bytes, n: nat)
    requires HeadStands(shape, h, n)
    ensures h != [] && HeadOf(h[0]) == Sized(shape, |h| - 1, if |h| == 1 then n else 0)
    ensures |h| > 1 ==> Big(n, h[1..])
  {
  }

  /** A head of some shape, whatever follows it. */
  lemma HeadIsRead(shape: Shape, h: bytes, n: nat, rest: bytes, depth: nat)
    requires HeadStands(shape, h, n) && depth <= 64
    ensures h != [] && Decode(h + rest, depth) == DecodeSized(shape, n, h + rest, |h|, depth)
  {
    ShapeOfHead(shape, h, n);
    var s := h + rest;
    assert s[0] == h[0];
    if |h| > 1 {
      BigIsUnsigned(h[1..], n);
      assert s[1..|h|] == h[1..];
    }
  }

  lemma NumberHead(n: int, s: bytes)
    requires IntWire(n, s)
    ensures s != []
    ensures if |s| == 1 then HeadOf(s[0]) == Immediate(Int(n))
      else HeadOf(s[0]) == Number(|s| - 1, s[0] >= 0xd0) && if s[0] >= 0xd0 then BigSigned(n, s[1..]) else Big(n, s[1..])
  {
  }

  lemma NumberIsRead(n: int, s: bytes, depth: nat)
    requires IntWire(n, s) && depth <= 64
    ensures Decode(s, depth) == Ok(Int(n), |s|)
  {
    NumberHead(n, s);
    if |s| > 1 {
      assert s[1..1 + (|s| - 1)] == s[1..];
      if s[0] >= 0xd0 {
        BigIsSigned(s[1..], n);
      } else {
        BigIsUnsigned(s[1..], n);
      }
    }
  }

  lemma StrIsRead(s: bytes, t: bytes, depth: nat)
    requires Stands(s, Str(t)) && depth <= 64
    ensures s != [] && Decode(s, depth) == Ok(Str(t), |s|)
  {
    var h :| StrHeadOf(h, |t|) && Split(s, h, t);
    HeadIsRead(StrShape, h, |t|, t, depth);
    assert s[|h|..|h| + |t|] == t;
  }

  lemma BinIsRead(s: bytes, data: bytes, depth: nat)
    requires Stands(s, Bin(data)) && depth <= 64
    ensures s != [] && Decode(s, depth) == Ok(Bin(data), |s|)
  {
    var h :| BinHeadOf(h, |data|) && Split(s, h, data);
    HeadIsRead(BinShape, h, |data|, data, depth);
    assert s[|h|..|h| + |data|] == data;
  }

  lemma ArrIsRead(s: bytes, h: bytes, body: bytes, elems: seq<Value>, depth: nat)
    requires ArrHeadOf(h, |elems|) && Split(s, h, body) && depth <= 64
    requires |elems| <= |body| && DecodeMany(body, |elems|, depth + 1) == Ok(elems, |body|)
    ensures s != [] && Decode(s, depth) == Ok(Arr(elems), |s|)
  {
    HeadIsRead(ArrShape, h, |elems|, body, depth);
    ElemsAreRead(ArrShape, |elems|, s, h, body, elems, depth);
  }

  lemma MapIsRead(s: bytes, h: bytes, body: bytes, entries: seq<Value>, depth: nat)
    requires |entries| % 2 == 0 && MapHeadOf(h, |entries| / 2) && Split(s, h, body) && depth <= 64
    requires |entries| <= |body| && DecodeMany(body, |entries|, depth + 1) == Ok(entries, |body|)
    ensures s != [] && Decode(s, depth) == Ok(Map(entries), |s|)
  {
    HeadIsRead(MapShape, h, |entries| / 2, body, depth);
    ElemsAreRead(MapShape, |entries| / 2, s, h, body, entries, depth);
  }

  lemma ElemsAreRead(shape: Shape, n: nat, s: bytes, h: bytes, body: bytes, vs: seq<Value>, depth: nat)
    requires shape.ArrShape? || shape.MapShape?
    requires |vs| == (if shape.ArrShape? then n else 2 * n) && s == h + body && h != [] && |vs| <= |body|
    requires DecodeMany(body, |vs|, depth + 1) == Ok(vs, |body|)
    ensures DecodeSized(shape, n, s, |h|, depth) == Ok(if shape.ArrShape? then Arr(vs) else Map(vs), |s|)
  {
    assert s[|h|..] == body;
  }

  /** Whatever stands for a value, and is not nested too deeply, is read as that value. */
  lemma {:induction false} StandsIsDecoded(s: bytes, v: Value, depth: nat)
    requires Stands(s, v) && Shallow(v, depth)
    ensures s != [] && Decode(s, depth) == Ok(v, |s|)
    decreases v, 0
  {
    match v {
      case Nil =>
      case Bool(_) =>
      case Int(n) => NumberIsRead(n, s, depth);
      case Float(raw) =>
        assert s[1..1 + |raw|] == raw;
      case Str(t) => StrIsRead(s, t, depth);
      case Bin(data) => BinIsRead(s, data, depth);
      case Ext(kind, body) =>
        var h :| ExtHeadOf(h, |body|) && Split(s, h, [kind] + body);
        ExtIsRead(s, h, kind, body, depth);
      case Timestamp(body) =>
        var h :| ExtHeadOf(h, |body|) && Split(s, h, [0xff] + body);
        ExtIsRead(s, h, 0xff, body, depth);
      case Arr(elems) =>
        var h, body :| ArrHeadOf(h, |elems|) && Split(s, h, body) && StandAll(body, elems);
        StandAllIsDecoded(body, elems, depth + 1);
        ArrIsRead(s, h, body, elems, depth);
      case Map(entries) =>
        var h, body :| MapHeadOf(h, |entries| / 2) && Split(s, h, body) && StandAll(body, entries);
        StandAllIsDecoded(body, entries, depth + 1);
        MapIsRead(s, h, body, entries, depth);
    }
  }

  lemma ExtIsRead(s: bytes, h: bytes, kind: byte, body: bytes, depth: nat)
    requires ExtHeadOf(h, |body|) && Split(s, h, [kind] + body) && depth <= 64 && (kind == 0xff ==> StampBody(body))
    ensures Decode(s, depth) == Ok(if kind == 0xff then Timestamp(body) else Ext(kind, body), |s|)
  {
    HeadIsRead(ExtShape, h, |body|, [kind] + body, depth);
    Behind(s, h, kind, body);
    StampIsBody(kind, body);
  }

  lemma Behind(s: bytes, h: bytes, kind: byte, body: bytes)
    requires s == h + ([kind] + body)
    ensures |s| == |h| + 1 + |body| && s[|h|] == kind && s[|h| + 1..|h| + 1 + |body|] == body
  {
    assert s[|h|..] == [kind] + body;
    assert s[|h| + 1..] == body;
  }

  lemma OneOfMany(s: bytes, k: nat, depth: nat, v: Value, first: nat, vs: seq<Value>, more: nat)
    requires k > 0 && Decode(s, depth) == Ok(v, first) && DecodeMany(s[first..], k - 1, depth) == Ok(vs, more)
    ensures DecodeMany(s, k, depth) == Ok([v] + vs, first + more)
  {
  }

  /** The first value is the same with more behind it. */
  lemma FirstOfMany(s: bytes, a: bytes, b: bytes, v: Value, depth: nat)
    requires s == a + b && Decode(a, depth) == Ok(v, |a|)
    ensures Decode(s, depth) == Ok(v, |a|)
  {
    DecodeStable(a, b, depth);
  }

  lemma ManyNext(s: bytes, a: bytes, b: bytes, v: Value, vs: seq<Value>, depth: nat, k: nat)
    requires k > 0 && s == a + b && Decode(s, depth) == Ok(v, |a|) && s[|a|..] == b
    requires DecodeMany(b, k - 1, depth) == Ok(vs, |b|)
    ensures DecodeMany(s, k, depth) == Ok([v] + vs, |s|)
  {
    OneOfMany(s, k, depth, v, |a|, vs, |b|);
  }

  lemma Cut(s: bytes, a: bytes, b: bytes)
    requires s == a + b
    ensures s[..|a|] == a && s[|a|..] == b
  {
  }

  lemma {:induction false} StandAllIsDecoded(s: bytes, vs: seq<Value>, depth: nat)
    requires StandAll(s, vs) && AllShallow(vs, depth)
    ensures |vs| <= |s| && DecodeMany(s, |vs|, depth) == Ok(vs, |s|)
    decreases vs, 1
  {
    if vs != [] {
      var a, b :| Split(s, a, b) && Stands(a, vs[0]) && StandAll(b, vs[1..]);
      StandsIsDecoded(a, vs[0], depth);
      StandAllIsDecoded(b, vs[1..], depth);
      FirstOfMany(s, a, b, vs[0], depth);
      Cut(s, a, b);
      ManyNext(s, a, b, vs[0], vs[1..], depth, |vs|);
      assert [vs[0]] + vs[1..] == vs;
    }
  }

  lemma {:induction false} DecodedIsShallow(s: bytes, depth: nat, v: Value, used: nat)
    requires Decode(s, depth) == Ok(v, used)
    ensures Shallow(v, depth)
    decreases |s|, 1, 0
  {
    if HeadOf(s[0]).Sized? {
      var lenWidth := HeadOf(s[0]).lenWidth;
      var n := if lenWidth == 0 then HeadOf(s[0]).len else Unsigned(s[1..1 + lenWidth]);
      SizedIsShallow(HeadOf(s[0]).shape, n, s, 1 + lenWidth, depth, v, used);
    }
  }

  lemma {:induction false} SizedIsShallow(shape: Shape, n: nat, s: bytes, at: nat, depth: nat, v: Value, used: nat)
    requires depth <= 64 && 0 < at <= |s| && DecodeSized(shape, n, s, at, depth) == Ok(v, used)
    ensures Shallow(v, depth)
    decreases |s|, 0, 0
  {
    if shape.ArrShape? || shape.MapShape? {
      var k, vs, more := ElemsOf(shape, n, s, at, depth, v, used);
      AllDecodedShallow(s[at..], k, depth + 1, vs, more);
    }
  }

  lemma {:induction false} AllDecodedShallow(s: bytes, k: nat, depth: nat, vs: seq<Value>, used: nat)
    requires DecodeMany(s, k, depth) == Ok(vs, used)
    ensures AllShallow(vs, depth)
    decreases |s|, 2, k
  {
    if k > 0 {
      var first := ManyOf(s, k, depth, vs, used);
      DecodedIsShallow(s, depth, vs[0], first);
      AllDecodedShallow(s[first..], k - 1, depth, vs[1..], used - first);
    }
  }

  /** The decoder reads a value, and all of the input, exactly when the input stands for it
      and it is not nested too deeply. */
  lemma DecodeIff(s: bytes, v: Value)
    ensures Decode(s, 0) == Ok(v, |s|) <==> Stands(s, v) && Shallow(v, 0)
  {
    if Decode(s, 0) == Ok(v, |s|) {
      DecodeStands(s, 0, v, |s|);
      DecodedIsShallow(s, 0, v, |s|);
      assert s[..|s|] == s;
    }
    if Stands(s, v) && Shallow(v, 0) {
      StandsIsDecoded(s, v, 0);
    }
  }

  // ---------------------------------------------------------------- the encoder

  lemma IntIsShortest(n: int, s: bytes)
    requires -TWO63 <= n < 2 * TWO63 && IntWire(n, s)
    ensures |EncodeInt(n)| <= |s|
  {
  }

  lemma HeadIsShortest(shape: Shape, h: bytes, n: nat)
    requires n <= MAX_UINT32 && HeadStands(shape, h, n)
    ensures |EncodeHead(shape, n)| <= |h|
  {
  }

  /** What the encoder writes stands for the value, and nothing shorter does. */
  lemma {:induction false} EncodeIsShortest(v: Value, depth: nat, s: bytes)
    requires Encodable(v, depth)
    ensures Stands(Encode(v, depth), v)
    ensures Stands(s, v) ==> |Encode(v, depth)| <= |s|
  {
    var e := Encode(v, depth);
    RoundTrip(v, [], depth);
    assert e + [] == e && e[..|e|] == e;
    DecodeStands(e, depth, v, |e|);
    if Stands(s, v) {
      NothingShorter(v, depth, s);
    }
  }

  lemma {:induction false} NothingShorter(v: Value, depth: nat, s: bytes)
    requires Encodable(v, depth) && Stands(s, v)
    ensures |Encode(v, depth)| <= |s|
    decreases v, 0
  {
    match v {
      case Nil =>
      case Bool(_) =>
      case Int(n) => IntIsShortest(n, s);
      case Float(_) =>
      case Str(t) =>
        var h :| StrHeadOf(h, |t|) && Split(s, h, t);
        HeadIsShortest(StrShape, h, |t|);
      case Bin(data) =>
        var h :| BinHeadOf(h, |data|) && Split(s, h, data);
        HeadIsShortest(BinShape, h, |data|);
      case Ext(kind, body) =>
        var h :| ExtHeadOf(h, |body|) && Split(s, h, [kind] + body);
        HeadIsShortest(ExtShape, h, |body|);
      case Timestamp(body) =>
        var h :| ExtHeadOf(h, |body|) && Split(s, h, [0xff] + body);
        HeadIsShortest(ExtShape, h, |body|);
      case Arr(elems) =>
        var h, body :| ArrHeadOf(h, |elems|) && Split(s, h, body) && StandAll(body, elems);
        HeadIsShortest(ArrShape, h, |elems|);
        NothingShorterAll(elems, depth + 1, body);
      case Map(entries) =>
        var h, body :| MapHeadOf(h, |entries| / 2) && Split(s, h, body) && StandAll(body, entries);
        HeadIsShortest(MapShape, h, |entries| / 2);
        NothingShorterAll(entries, depth + 1, body);
    }
  }

  lemma {:induction false} NothingShorterAll(vs: seq<Value>, depth: nat, s: bytes)
    requires EncodableAll(vs, depth) && StandAll(s, vs)
    ensures |EncodeAll(vs, depth)| <= |s|
    decreases vs, 1
  {
    if vs != [] {
      var a, b :| Split(s, a, b) && Stands(a, vs[0]) && StandAll(b, vs[1..]);
      NothingShorter(vs[0], depth, a);
      NothingShorterAll(vs[1..], depth, b);
    }
  }
}

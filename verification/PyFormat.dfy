/** Python's marshal format, byte by byte. What is written for a value is what the format has
    for it, and something is written exactly when the format has something. */
module PyFormat {
  import opened Bytes
  import opened Streaming
  import opened Msgpack
  import opened Wire
  import opened PyMarshal

  // ---------------------------------------------------------------- numbers

  /** A number in four bytes, the least significant first, in two's complement. */
  predicate Little(n: int, s: bytes) {
    |s| == 4 && -0x8000_0000 <= n < 0x8000_0000
    && At(s, 0) + At(s, 1) * 0x100 + At(s, 2) * 0x1_0000 + At(s, 3) * 0x100_0000 == if n < 0 then n + 0x1_0000_0000 else n
  }

  /** The i-th two bytes as a digit; there are only zeros behind the last. */
  function DigitAt(s: bytes, i: nat): int {
    if 2 * i + 1 < |s| then At(s, 2 * i) + At(s, 2 * i + 1) * 0x100 else 0
  }

  /** The digits of a magnitude to the base of 2^15, the least significant first and the
      last of them not zero. */
  predicate DigitsOfMagnitude(mag: int, s: bytes) {
    && 2 <= |s| <= 10 && |s| % 2 == 0
    && (forall i: nat :: i < |s| / 2 ==> DigitAt(s, i) < 0x8000) && DigitAt(s, |s| / 2 - 1) > 0
    && mag == DigitAt(s, 0) + DigitAt(s, 1) * 0x8000 + DigitAt(s, 2) * 0x4000_0000
              + DigitAt(s, 3) * 0x2000_0000_0000 + DigitAt(s, 4) * 0x1000_0000_0000_0000
  }

  /** A code and what follows it. */
  predicate Coded(s: bytes, code: byte) {
    s != [] && s[0] == code
  }

  /** 'i' and 32 bits; or, for a number that does not fit, 'l', the number of digits with
      the sign of the number, and the digits. */
  predicate IntForm(n: int, s: bytes) {
    if -0x8000_0000 <= n < 0x8000_0000 then
      Coded(s, 0x69) && Little(n, s[1..])
    else
      && Coded(s, 0x6c) && 5 <= |s|
      && Little(if n < 0 then -((|s| - 5) / 2) else (|s| - 5) / 2, s[1..5])
      && DigitsOfMagnitude(if n < 0 then -n else n, s[5..])
  }

  /** A code, a count and that many bytes. */
  predicate SizedForm(s: bytes, code: byte, body: bytes) {
    5 <= |s| && Coded(s, code) && Little(|body|, s[1..5]) && s[5..] == body
  }

  // ---------------------------------------------------------------- text

  /** A code point in UTF-8, section 3 of RFC 3629; a surrogate in the same way. */
  function Utf8(cp: int): bytes
    requires 0 <= cp <= 0x10_ffff
  {
    if cp <= 0x7f then [cp]
    else if cp <= 0x7ff then [0xc0 + cp / 0x40, 0x80 + cp % 0x40]
    else if cp <= 0xffff then [0xe0 + cp / 0x1000, 0x80 + cp / 0x40 % 0x40, 0x80 + cp % 0x40]
    else [0xf0 + cp / 0x4_0000, 0x80 + cp / 0x1000 % 0x40, 0x80 + cp / 0x40 % 0x40, 0x80 + cp % 0x40]
  }

  /** The code points text may hold: all but the surrogates. */
  predicate Scalar(cp: int) {
    0 <= cp <= 0x10_ffff && !(0xd800 <= cp <= 0xdfff)
  }

  /** Valid text is passed on code point by code point. */
  lemma EscapedRune(cp: int, rest: bytes)
    requires Scalar(cp)
    ensures Escaped(Utf8(cp) + rest) == Utf8(cp) + Escaped(rest)
  {
    RuneOf(cp, rest);
    var s := Utf8(cp) + rest;
    assert s[..|Utf8(cp)|] == Utf8(cp) && s[|Utf8(cp)|..] == rest;
  }

  lemma RuneOf(cp: int, rest: bytes)
    requires Scalar(cp)
    ensures Utf8(cp) != [] && RuneLength(Utf8(cp) + rest) == |Utf8(cp)|
  {
    if cp > 0xffff {
      FourthByteOn(cp);
    } else if cp > 0x7ff {
      SecondOfThree(cp);
    }
    RuneWith(Utf8(cp), Utf8(cp) + rest);
  }

  /** The length of a rune depends on the rune alone. */
  lemma RuneWith(rune: bytes, s: bytes)
    requires rune != [] && rune <= s && RuneLength(rune) == |rune|
    ensures RuneLength(s) == |rune|
  {
  }

  lemma SecondOfThree(cp: int)
    requires Scalar(cp) && 0x7ff < cp <= 0xffff
    ensures var a, b := cp / 0x1000, cp / 0x40 % 0x40; a <= 0xf && (a == 0 ==> b >= 0x20) && (a == 0xd ==> b <= 0x1f)
  {
    assert cp / 0x40 == cp / 0x1000 * 0x40 + cp / 0x40 % 0x40;
  }

  lemma FourthByteOn(cp: int)
    requires 0xffff < cp <= 0x10_ffff
    ensures var a, b := cp / 0x4_0000, cp / 0x1000 % 0x40; a <= 4 && (a == 0 ==> b >= 0x10) && (a == 4 ==> b <= 0xf)
  {
    assert cp / 0x1000 == cp / 0x4_0000 * 0x40 + cp / 0x1000 % 0x40;
  }

  /** A byte with which no code point starts becomes a surrogate: U+DC00 and the byte. */
  lemma EscapedStray(s: bytes)
    requires s != [] && forall cp :: Scalar(cp) ==> !(Utf8(cp) <= s)
    ensures Escaped(s) == Utf8(0xdc00 + At(s, 0)) + Escaped(s[1..])
  {
    if RuneLength(s) > 0 {
      var cp := CodePoint(s);
      assert false;
    }
    assert Surrogate(s[0]) == Utf8(0xdc00 + At(s, 0));
  }

  /** The code point a text starts with. */
  lemma CodePoint(s: bytes) returns (cp: int)
    requires s != [] && RuneLength(s) > 0
    ensures Scalar(cp) && Utf8(cp) <= s
  {
    var n := RuneLength(s);
    if n == 1 {
      cp := At(s, 0);
    } else if n == 2 {
      cp := TwoByteRune(s, At(s, 0), At(s, 1));
    } else if n == 3 {
      cp := ThreeByteRune(s, At(s, 0), At(s, 1), At(s, 2));
    } else {
      cp := FourByteRune(s, At(s, 0), At(s, 1), At(s, 2), At(s, 3));
    }
  }

  lemma TwoByteRune(s: bytes, a: int, b: int) returns (cp: int)
    requires |s| >= 2 && s[0] == a && s[1] == b && 0xc2 <= a <= 0xdf && 0x80 <= b <= 0xbf
    ensures Scalar(cp) && Utf8(cp) <= s
  {
    cp := (a - 0xc0) * 0x40 + (b - 0x80);
  }

  lemma ThreeByteRune(s: bytes, a: int, b: int, c: int) returns (cp: int)
    requires |s| >= 3 && s[0] == a && s[1] == b && s[2] == c
    requires 0xe0 <= a <= 0xef && 0x80 <= b <= 0xbf && 0x80 <= c <= 0xbf
    requires (a == 0xe0 ==> b >= 0xa0) && (a == 0xed ==> b <= 0x9f)
    ensures Scalar(cp) && Utf8(cp) <= s
  {
    cp := ((a - 0xe0) * 0x40 + (b - 0x80)) * 0x40 + (c - 0x80);
    assert cp / 0x40 == (a - 0xe0) * 0x40 + (b - 0x80);
  }

  lemma FourByteRune(s: bytes, a: int, b: int, c: int, d: int) returns (cp: int)
    requires |s| >= 4 && s[0] == a && s[1] == b && s[2] == c && s[3] == d
    requires 0xf0 <= a <= 0xf4 && 0x80 <= b <= 0xbf && 0x80 <= c <= 0xbf && 0x80 <= d <= 0xbf
    requires (a == 0xf0 ==> b >= 0x90) && (a == 0xf4 ==> b <= 0x8f)
    ensures Scalar(cp) && Utf8(cp) <= s
  {
    var high := (a - 0xf0) * 0x40 + (b - 0x80);
    var mid := high * 0x40 + (c - 0x80);
    cp := mid * 0x40 + (d - 0x80);
    assert cp / 0x40 == mid && cp % 0x40 == d - 0x80;
    assert mid / 0x40 == high && mid % 0x40 == c - 0x80;
  }

  // ---------------------------------------------------------------- values

  /** The bytes the format has for a value: 'N', 'T', 'F', 'g', 'u', 's', '(' and '{', the
      last of these ended by '0'. */
  ghost predicate Written(s: bytes, v: Value)
    decreases v, 0
  {
    match v
    case Nil => s == [0x4e]
    case Bool(b) => s == [if b then 0x54 else 0x46]
    case Int(n) => IntForm(n, s)
    case Float(raw) => |raw| == 8 && |s| == 9 && s[0] == 0x67 && forall i :: 0 <= i < 8 ==> s[8 - i] == raw[i]
    case Str(t) => SizedForm(s, 0x75, Escaped(t))
    case Bin(data) => SizedForm(s, 0x73, data)
    case Arr(elems) => 5 <= |s| && Coded(s, 0x28) && Little(|elems|, s[1..5]) && WrittenAll(s[5..], elems)
    case Map(entries) => 2 <= |s| && Coded(s, 0x7b) && s[|s| - 1] == 0x30 && WrittenAll(s[1..|s| - 1], entries)
    case Ext(_, _) => false
    case Timestamp(_) => false
  }

  ghost predicate WrittenAll(s: bytes, vs: seq<Value>)
    decreases vs, 1
  {
    if vs == [] then s == []
    else exists a, b :: Split(s, a, b) && Written(a, vs[0]) && WrittenAll(b, vs[1..])
  }

  /** What there is a form for: no timestamps and no extensions, nothing nested deeper than
      2000, and no count of more than 31 bits. */
  ghost predicate HasForm(v: Value, depth: nat)
    decreases v, 0
  {
    depth <= 2000 &&
    match v
    case Nil => true
    case Bool(_) => true
    case Int(n) => -0x8000_0000_0000_0000 <= n < 0x1_0000_0000_0000_0000
    case Float(raw) => |raw| == 8
    case Str(t) => |Escaped(t)| < 0x8000_0000
    case Bin(data) => |data| < 0x8000_0000
    case Arr(elems) => |elems| < 0x8000_0000 && AllHaveForms(elems, depth + 1)
    case Map(entries) => |entries| % 2 == 0 && AllHaveForms(entries, depth + 1)
    case Ext(_, _) => false
    case Timestamp(_) => false
  }

  ghost predicate AllHaveForms(vs: seq<Value>, depth: nat)
    decreases vs, 1
  {
    forall i :: 0 <= i < |vs| ==> HasForm(vs[i], depth)
  }

  // ---------------------------------------------------------------- the writer keeps to it

  lemma FourBytes(n: nat) returns (p: int, q: int, r: int, t: int)
    requires n < 0x1_0000_0000
    ensures 0 <= p < 256 && 0 <= q < 256 && 0 <= r < 256 && 0 <= t < 256
    ensures LittleEndian(n, 4) == [p, q, r, t] && n == p + q * 0x100 + r * 0x1_0000 + t * 0x100_0000
  {
    var a := n / 256;
    var b := a / 256;
    var c := b / 256;
    p, q, r, t := n % 256, a % 256, b % 256, c;
    assert LittleEndian(c, 1) == [c % 256] + LittleEndian(c / 256, 0);
    assert LittleEndian(b, 2) == [b % 256] + LittleEndian(c, 1);
    assert LittleEndian(a, 3) == [a % 256] + LittleEndian(b, 2);
    assert LittleEndian(n, 4) == [n % 256] + LittleEndian(a, 3);
  }

  lemma Int32IsLittle(n: int)
    requires -0x8000_0000 <= n < 0x8000_0000
    ensures Little(n, Int32(n))
  {
    var p, q, r, t := FourBytes(if n < 0 then n + 0x1_0000_0000 else n);
  }

  /** A digit and its two bytes. */
  lemma {:induction false} PairsAt(ds: seq<nat>, i: nat)
    requires i < |ds| && forall k :: 0 <= k < |ds| ==> ds[k] < DIGIT
    ensures DigitAt(Pairs(ds), i) == ds[i]
  {
    assert LittleEndian(ds[0], 2) == [ds[0] % 256] + LittleEndian(ds[0] / 256, 1);
    assert LittleEndian(ds[0] / 256, 1) == [ds[0] / 256 % 256] + LittleEndian(ds[0] / 256 / 256, 0);
    if i > 0 {
      PairsAt(ds[1..], i - 1);
    }
  }

  function DigitOr0(ds: seq<nat>, i: nat): nat {
    if i < |ds| then ds[i] else 0
  }

  lemma FiveDigits(ds: seq<nat>)
    requires |ds| <= 5
    ensures FromDigits(ds) == DigitOr0(ds, 0) + DigitOr0(ds, 1) * 0x8000 + DigitOr0(ds, 2) * 0x4000_0000
      + DigitOr0(ds, 3) * 0x2000_0000_0000 + DigitOr0(ds, 4) * 0x1000_0000_0000_0000
  {
    if ds != [] {
      var a := ds[1..];
      if a != [] {
        var b := a[1..];
        if b != [] {
          var c := b[1..];
          if c != [] {
            assert c[1..] == ds[4..];
            assert |ds| == 5 ==> c[1..][1..] == [];
          }
        }
      }
    }
  }

  lemma DigitsAreWritten(ds: seq<nat>, s: bytes)
    requires 1 <= |ds| <= 5 && |s| == 2 * |ds| && ds[|ds| - 1] > 0
    requires forall i: nat :: i < |ds| ==> ds[i] < DIGIT && DigitAt(s, i) == ds[i]
    ensures DigitsOfMagnitude(FromDigits(ds), s)
  {
    FiveDigits(ds);
    assert forall i: nat :: DigitAt(s, i) == DigitOr0(ds, i);
  }

  lemma MagnitudeDigits(mag: nat)
    requires 0 < mag < 2 * TWO63
    ensures DigitsOfMagnitude(mag, Pairs(Digits(mag)))
  {
    var ds := Digits(mag);
    LongDigits(mag);
    DigitsBack(mag);
    forall i: nat | i < |ds|
      ensures DigitAt(Pairs(ds), i) == ds[i]
    {
      PairsAt(ds, i);
    }
    DigitsAreWritten(ds, Pairs(ds));
  }

  lemma IntIsWritten(n: int)
    requires -TWO63 <= n < 2 * TWO63
    ensures IntForm(n, IntForm32(n))
  {
    var s := IntForm32(n);
    if -0x8000_0000 <= n < 0x8000_0000 {
      Int32IsLittle(n);
      assert s[1..] == Int32(n);
    } else {
      var mag: nat := if n < 0 then -n else n;
      LongDigits(mag);
      MagnitudeDigits(mag);
      var count := if n < 0 then -|Digits(mag)| else |Digits(mag)|;
      Int32IsLittle(count);
      assert s[1..5] == Int32(count) && s[5..] == Pairs(Digits(mag));
    }
  }

  lemma SizedIsWritten(code: byte, body: bytes)
    requires |body| <= MAX_INT32
    ensures SizedForm([code] + Int32(|body|) + body, code, body)
  {
    Int32IsLittle(|body|);
    var s := [code] + Int32(|body|) + body;
    assert s[1..5] == Int32(|body|);
  }

  lemma TupleIsWritten(elems: seq<Value>, body: bytes)
    requires |elems| <= MAX_INT32 && WrittenAll(body, elems)
    ensures Written([TYPE_TUPLE] + Int32(|elems|) + body, Arr(elems))
  {
    Int32IsLittle(|elems|);
    var s := [TYPE_TUPLE] + Int32(|elems|) + body;
    assert s[1..5] == Int32(|elems|) && s[5..] == body;
  }

  lemma DictIsWritten(entries: seq<Value>, body: bytes)
    requires WrittenAll(body, entries)
    ensures Written([TYPE_DICT] + body + [TYPE_NULL], Map(entries))
  {
    var s := [TYPE_DICT] + body + [TYPE_NULL];
    assert s[1..|s| - 1] == body;
  }

  /** A value is written exactly when there is a form for it, and then in that form. */
  lemma {:induction false} MarshalIs(v: Value, depth: nat)
    ensures Marshal(v, depth).Some? <==> HasForm(v, depth)
    ensures Marshal(v, depth).Some? ==> Written(Marshal(v, depth).value, v)
    decreases v, 0
  {
    match v {
      case Nil =>
      case Bool(_) =>
      case Int(n) =>
        if -TWO63 <= n < 2 * TWO63 {
          IntIsWritten(n);
        }
      case Float(raw) =>
      case Str(t) =>
        if |Escaped(t)| <= MAX_INT32 {
          SizedIsWritten(TYPE_UNICODE, Escaped(t));
        }
      case Bin(data) =>
        if |data| <= MAX_INT32 {
          SizedIsWritten(TYPE_STRING, data);
        }
      case Arr(elems) =>
        MarshalAllIs(elems, depth + 1);
        if Marshal(v, depth).Some? {
          TupleIsWritten(elems, MarshalAll(elems, depth + 1).value);
        }
      case Map(entries) =>
        MarshalAllIs(entries, depth + 1);
        if Marshal(v, depth).Some? {
          DictIsWritten(entries, MarshalAll(entries, depth + 1).value);
        }
      case Ext(_, _) =>
      case Timestamp(_) =>
    }
  }

  lemma {:induction false} MarshalAllIs(vs: seq<Value>, depth: nat)
    ensures MarshalAll(vs, depth).Some? <==> AllHaveForms(vs, depth)
    ensures MarshalAll(vs, depth).Some? ==> WrittenAll(MarshalAll(vs, depth).value, vs)
    decreases vs, 1
  {
    if vs != [] {
      MarshalIs(vs[0], depth);
      MarshalAllIs(vs[1..], depth);
      if MarshalAll(vs, depth).Some? {
        var s := MarshalAll(vs, depth).value;
        assert Split(s, Marshal(vs[0], depth).value, MarshalAll(vs[1..], depth).value);
      }
    }
  }
}

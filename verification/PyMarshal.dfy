/** Writing decoded values in Python's marshal format, and a reader of that format that
    gets them back. */
module PyMarshal {
  import opened Bytes
  import opened Streaming
  import opened Msgpack

  const TYPE_NULL: byte := 0x30
  const TYPE_NONE: byte := 0x4e
  const TYPE_FALSE: byte := 0x46
  const TYPE_TRUE: byte := 0x54
  const TYPE_INT: byte := 0x69
  const TYPE_FLOAT: byte := 0x67
  const TYPE_LONG: byte := 0x6c
  const TYPE_STRING: byte := 0x73
  const TYPE_UNICODE: byte := 0x75
  const TYPE_TUPLE: byte := 0x28
  const TYPE_DICT: byte := 0x7b

  const MAX_DEPTH: nat := 2000
  const MAX_INT32: int := 0x7fff_ffff
  const DIGIT: nat := 0x8000

  // ---------------------------------------------------------------- numbers

  /** Four bytes, two's complement. */
  function Int32(n: int): (s: bytes)
    requires -MAX_INT32 - 1 <= n <= MAX_INT32
    ensures |s| == 4
  {
    LittleEndian(if n < 0 then n + 0x1_0000_0000 else n, 4)
  }

  function FromInt32(s: bytes): int {
    var n := FromLittleEndian(s);
    if n > MAX_INT32 then n - 0x1_0000_0000 else n
  }

  lemma Int32Back(n: int)
    requires -MAX_INT32 - 1 <= n <= MAX_INT32
    ensures FromInt32(Int32(n)) == n
  {
    Powers();
    LittleEndianBack(if n < 0 then n + 0x1_0000_0000 else n, 4);
  }

  /** The 15-bit digits of a magnitude, least significant first, none of them idle. */
  function Digits(n: nat): (ds: seq<nat>)
    ensures forall i :: 0 <= i < |ds| ==> ds[i] < DIGIT
    ensures ds != [] ==> ds[|ds| - 1] != 0
  {
    if n == 0 then [] else [n % DIGIT] + Digits(n / DIGIT)
  }

  function FromDigits(ds: seq<nat>): nat {
    if ds == [] then 0 else ds[0] + DIGIT * FromDigits(ds[1..])
  }

  lemma {:induction false} DigitsBack(n: nat)
    ensures FromDigits(Digits(n)) == n
  {
    if n > 0 {
      DigitsBack(n / DIGIT);
    }
  }

  function DigitPower(k: nat): nat {
    if k == 0 then 1 else DIGIT * DigitPower(k - 1)
  }

  lemma {:induction false} FewDigits(n: nat, k: nat)
    requires n < DigitPower(k)
    ensures |Digits(n)| <= k
  {
    if n > 0 {
      assert k > 0;
      FewDigits(n / DIGIT, k - 1);
    }
  }

  /** The digits, two bytes each. */
  function Pairs(ds: seq<nat>): (s: bytes)
    ensures |s| == 2 * |ds|
  {
    if ds == [] then [] else LittleEndian(ds[0], 2) + Pairs(ds[1..])
  }

  function FromPairs(s: bytes): (ds: seq<nat>)
    ensures |ds| == |s| / 2
  {
    if |s| < 2 then [] else [FromLittleEndian(s[..2])] + FromPairs(s[2..])
  }

  lemma {:induction false} PairsBack(ds: seq<nat>)
    requires forall i :: 0 <= i < |ds| ==> ds[i] < DIGIT
    ensures FromPairs(Pairs(ds)) == ds
  {
    if ds != [] {
      PairsBack(ds[1..]);
      Powers();
      assert Pow256(2) == 65536;
      LittleEndianBack(ds[0], 2);
      assert Pairs(ds)[..2] == LittleEndian(ds[0], 2) && Pairs(ds)[2..] == Pairs(ds[1..]);
    }
  }

  function Continued(digits: seq<nat>, v: nat): seq<nat> {
    digits + Digits(v)
  }

  lemma DigitsStep(digits: seq<nat>, v: nat)
    requires v > 0
    ensures Continued(digits, v) == Continued(digits + [v % DIGIT], v / DIGIT)
  {
    Regroup(digits, [v % DIGIT], Digits(v / DIGIT));
  }

  lemma DigitsEnds(digits: seq<nat>, v: nat)
    ensures Continued(digits, 0) == digits && Continued([], v) == Digits(v)
  {
    assert digits + [] == digits && [] + Digits(v) == Digits(v);
  }

  /** The digits of a number by repeated shifting. */
  method DigitsOf(mag: nat) returns (digits: seq<nat>)
    ensures digits == Digits(mag)
  {
    digits := [];
    var v: nat := mag;
    DigitsEnds(digits, v);
    while v > 0
      invariant Continued(digits, v) == Digits(mag)
    {
      DigitsStep(digits, v);
      digits, v := digits + [v % DIGIT], v / DIGIT;
    }
    DigitsEnds(digits, v);
  }

  /** The arbitrary-precision form: the sign goes with the digit count. */
  function Long(n: int): bytes
    requires -TWO63 <= n < 2 * TWO63
  {
    var mag: int := if n < 0 then 0 - n else n;
    LongDigits(mag);
    var ds := Digits(mag);
    [TYPE_LONG] + Int32(if n < 0 then 0 - |ds| else |ds|) + Pairs(ds)
  }

  function IntForm32(n: int): bytes
    requires -TWO63 <= n < 2 * TWO63
  {
    if -MAX_INT32 - 1 <= n <= MAX_INT32 then [TYPE_INT] + Int32(n) else Long(n)
  }

  // ---------------------------------------------------------------- text

  predicate Tail(b: byte) {
    0x80 <= b <= 0xbf
  }

  /** How many bytes of valid UTF-8 a text starts with; 0 if its first byte starts none. */
  function RuneLength(s: bytes): (n: nat)
    requires s != []
    ensures n <= |s| && (n == 0 ==> s[0] >= 0x80)
  {
    var b := s[0];
    if b < 0x80 then 1
    else if 0xc2 <= b <= 0xdf then if |s| >= 2 && Tail(s[1]) then 2 else 0
    else if 0xe0 <= b <= 0xef then
      if |s| >= 3 && Tail(s[1]) && Tail(s[2]) && (b == 0xe0 ==> s[1] >= 0xa0) && (b == 0xed ==> s[1] <= 0x9f) then 3
      else 0
    else if 0xf0 <= b <= 0xf4 then
      if |s| >= 4 && Tail(s[1]) && Tail(s[2]) && Tail(s[3])
         && (b == 0xf0 ==> s[1] >= 0x90) && (b == 0xf4 ==> s[1] <= 0x8f) then 4
      else 0
    else 0
  }

  predicate ValidText(s: bytes)
    decreases |s|
  {
    s == [] || (RuneLength(s) > 0 && ValidText(s[RuneLength(s)..]))
  }

  /** The surrogate that stands for a byte, in three bytes: U+DC00 plus the byte. */
  function Surrogate(b: byte): (s: bytes)
    requires b >= 0x80
    ensures |s| == 3
  {
    [0xed, 0xb0 + b / 64, 0x80 + b % 64]
  }

  /** Valid text as it is, every other byte as its surrogate. */
  function Escaped(s: bytes): bytes
    decreases |s|
  {
    if s == [] then []
    else
      var n := RuneLength(s);
      if n == 0 then Surrogate(s[0]) + Escaped(s[1..]) else s[..n] + Escaped(s[n..])
  }

  /** Surrogates back to the bytes they stand for. */
  function Unescaped(t: bytes): bytes
    decreases |t|
  {
    if t == [] then []
    else if |t| >= 3 && t[0] == 0xed && (t[1] == 0xb2 || t[1] == 0xb3) && Tail(t[2]) then
      var high: int, low: int := t[1], t[2];
      [(high - 0xb0) * 64 + (low - 0x80)] + Unescaped(t[3..])
    else [t[0]] + Unescaped(t[1..])
  }

  /** The fast path: valid text needs no escaping. */
  lemma {:induction false} ValidIsPlain(s: bytes)
    requires ValidText(s)
    ensures Escaped(s) == s
    decreases |s|
  {
    if s != [] {
      var n := RuneLength(s);
      ValidIsPlain(s[n..]);
      assert s == s[..n] + s[n..];
    }
  }

  function EscapedFrom(out: bytes, s: bytes): bytes {
    out + Escaped(s)
  }

  lemma EscapeStep(out: bytes, s: bytes)
    requires s != []
    ensures var n := RuneLength(s);
      EscapedFrom(out, s) ==
      if n == 0 then EscapedFrom(out + Surrogate(s[0]), s[1..]) else EscapedFrom(out + s[..n], s[n..])
  {
    var n := RuneLength(s);
    if n == 0 {
      Regroup(out, Surrogate(s[0]), Escaped(s[1..]));
    } else {
      Regroup(out, s[..n], Escaped(s[n..]));
    }
  }

  method EscapeText(s: bytes) returns (out: bytes)
    ensures out == Escaped(s)
  {
    out := [];
    var rest := s;
    assert [] + Escaped(s) == Escaped(s);
    while rest != []
      invariant EscapedFrom(out, rest) == Escaped(s)
      decreases |rest|
    {
      EscapeStep(out, rest);
      var n := RuneLength(rest);
      if n == 0 {
        out, rest := out + Surrogate(rest[0]), rest[1..];
      } else {
        out, rest := out + rest[..n], rest[n..];
      }
    }
    assert out + [] == out;
  }

  lemma UnescapeSurrogate(b: byte, t: bytes)
    requires b >= 0x80
    ensures Unescaped(Surrogate(b) + t) == [b] + Unescaped(t)
  {
    var s := Surrogate(b) + t;
    assert s[3..] == t;
    assert 2 <= b / 64 <= 3 && b / 64 * 64 + b % 64 == b;
  }

  /** A byte that starts no surrogate passes through. */
  lemma UnescapePlain(b: byte, t: bytes)
    requires b == 0xed ==> t == [] || t[0] <= 0x9f
    ensures Unescaped([b] + t) == [b] + Unescaped(t)
  {
    assert ([b] + t)[1..] == t;
  }

  /** No byte of s can start a surrogate. */
  predicate Plain(s: bytes) {
    forall i :: 0 <= i < |s| && s[i] == 0xed ==> i + 1 < |s| && s[i + 1] <= 0x9f
  }

  lemma RuneIsPlain(s: bytes)
    requires s != [] && RuneLength(s) == |s|
    ensures Plain(s)
  {
  }

  lemma {:induction false} UnescapeRune(s: bytes, t: bytes)
    requires Plain(s)
    ensures Unescaped(s + t) == s + Unescaped(t)
  {
    if s == [] {
      assert [] + t == t && [] + Unescaped(t) == Unescaped(t);
    } else {
      var b, rest := s[0], s[1..];
      assert Plain(rest);
      UnescapeRune(rest, t);
      Regroup([b], rest, t);
      Regroup([b], rest, Unescaped(t));
      assert [b] + rest == s;
      UnescapePlain(b, rest + t);
    }
  }

  lemma RuneAlone(s: bytes)
    requires s != [] && RuneLength(s) > 0
    ensures RuneLength(s[..RuneLength(s)]) == RuneLength(s)
  {
  }

  lemma BadByteBack(b: byte, rest: bytes)
    requires b >= 0x80 && Unescaped(Escaped(rest)) == rest
    ensures Unescaped(Surrogate(b) + Escaped(rest)) == [b] + rest
  {
    UnescapeSurrogate(b, Escaped(rest));
  }

  lemma RuneBack(rune: bytes, rest: bytes)
    requires rune != [] && RuneLength(rune) == |rune| && Unescaped(Escaped(rest)) == rest
    ensures Unescaped(rune + Escaped(rest)) == rune + rest
  {
    RuneIsPlain(rune);
    UnescapeRune(rune, Escaped(rest));
  }

  /** No text is lost, valid or not. */
  lemma {:induction false} TextBack(s: bytes)
    ensures Unescaped(Escaped(s)) == s
    decreases |s|
  {
    if s != [] {
      var n := RuneLength(s);
      if n == 0 {
        TextBack(s[1..]);
        BadByteBack(s[0], s[1..]);
        assert [s[0]] + s[1..] == s;
      } else {
        TextBack(s[n..]);
        RuneAlone(s);
        RuneBack(s[..n], s[n..]);
        assert s[..n] + s[n..] == s;
      }
    }
  }

  // ---------------------------------------------------------------- values

  function Counted(n: nat): Option<bytes> {
    if n > MAX_INT32 then None else Some(Int32(n))
  }

  /** One value; None where it nests too deeply, holds something the format has no code
      for, or is longer than a count can say. */
  function Marshal(v: Value, depth: nat): Option<bytes>
    decreases v, 0
  {
    if depth > MAX_DEPTH then None
    else
      match v
      case Nil => Some([TYPE_NONE])
      case Bool(b) => Some([if b then TYPE_TRUE else TYPE_FALSE])
      case Int(n) => if -TWO63 <= n < 2 * TWO63 then Some(IntForm32(n)) else None
      case Float(raw) => if |raw| == 8 then Some([TYPE_FLOAT] + Reversed(raw)) else None
      case Str(s) => WithCount(TYPE_UNICODE, |Escaped(s)|, Escaped(s))
      case Bin(data) => WithCount(TYPE_STRING, |data|, data)
      case Arr(elems) =>
        (match MarshalAll(elems, depth + 1)
         case None => None
         case Some(body) => WithCount(TYPE_TUPLE, |elems|, body))
      case Map(entries) =>
        if |entries| % 2 != 0 then None
        else (
          match MarshalAll(entries, depth + 1)
          case None => None
          case Some(body) => Some([TYPE_DICT] + body + [TYPE_NULL]))
      case Ext(_, _) => None
      case Timestamp(_) => None
  }

  function MarshalAll(vs: seq<Value>, depth: nat): Option<bytes>
    decreases vs, 1
  {
    if vs == [] then Some([])
    else
      match Marshal(vs[0], depth)
      case None => None
      case Some(s) =>
        match MarshalAll(vs[1..], depth)
        case None => None
        case Some(rest) => Some(s + rest)
  }

  function WithCount(code: byte, n: nat, body: bytes): Option<bytes> {
    match Counted(n)
    case None => None
    case Some(c) => Some([code] + c + body)
  }

  function Reversed(s: bytes): (r: bytes)
    ensures |r| == |s|
  {
    seq(|s|, i requires 0 <= i < |s| => s[|s| - 1 - i])
  }

  // ---------------------------------------------------------------- the writer

  class Writer {
    var out: bytes

    constructor ()
      ensures out == []
    {
      out := [];
    }

    method Bytes(s: bytes)
      modifies this
      ensures out == old(out) + s
    {
      out := out + s;
    }

    /** A code, a count and that many bytes. */
    method Sized(code: byte, s: bytes) returns (ok: bool)
      modifies this
      ensures ok <==> WithCount(code, |s|, s).Some?
      ensures ok ==> out == old(out) + WithCount(code, |s|, s).value
    {
      if |s| > MAX_INT32 {
        return false;
      }
      Regroup(out, [code] + Int32(|s|), s);
      Bytes([code] + Int32(|s|));
      Bytes(s);
      ok := true;
    }

    /** A number, in 32 bits where it fits. */
    method Number(n: int)
      requires -TWO63 <= n < 2 * TWO63
      modifies this
      ensures out == old(out) + IntForm32(n)
    {
      if -MAX_INT32 - 1 <= n <= MAX_INT32 {
        Bytes([TYPE_INT] + Int32(n));
        return;
      }
      var mag: nat := if n < 0 then 0 - n else n;
      LongDigits(mag);
      var digits := DigitsOf(mag);
      var head := [TYPE_LONG] + Int32(if n < 0 then 0 - |digits| else |digits|);
      Regroup(out, head, Pairs(digits));
      Bytes(head);
      Bytes(Pairs(digits));
    }

    method Text(s: bytes) returns (ok: bool)
      modifies this
      ensures ok <==> Marshal(Str(s), 0).Some?
      ensures ok ==> out == old(out) + Marshal(Str(s), 0).value
    {
      if ValidText(s) {
        ValidIsPlain(s);
        ok := Sized(TYPE_UNICODE, s);
      } else {
        var escaped := EscapeText(s);
        ok := Sized(TYPE_UNICODE, escaped);
      }
    }

    /** One value; what has been written before an error is of no use. */
    method Write(v: Value, depth: nat) returns (ok: bool)
      modifies this
      ensures ok <==> Marshal(v, depth).Some?
      ensures ok ==> out == old(out) + Marshal(v, depth).value
      decreases v, 0
    {
      if depth > MAX_DEPTH {
        return false;
      }
      match v {
        case Nil =>
          Bytes([TYPE_NONE]);
          ok := true;
        case Bool(b) =>
          Bytes([if b then TYPE_TRUE else TYPE_FALSE]);
          ok := true;
        case Int(n) =>
          if !(-TWO63 <= n < 2 * TWO63) {
            return false;
          }
          Number(n);
          ok := true;
        case Float(raw) =>
          if |raw| != 8 {
            return false;
          }
          Bytes([TYPE_FLOAT] + Reversed(raw));
          ok := true;
        case Str(s) => ok := Text(s);
        case Bin(data) => ok := Sized(TYPE_STRING, data);
        case Arr(elems) => ok := Tuple(elems, depth);
        case Map(entries) => ok := Dict(entries, depth);
        case Ext(_, _) => ok := false;
        case Timestamp(_) => ok := false;
      }
    }

    method Tuple(elems: seq<Value>, depth: nat) returns (ok: bool)
      requires depth <= MAX_DEPTH
      modifies this
      ensures ok <==> Marshal(Arr(elems), depth).Some?
      ensures ok ==> out == old(out) + Marshal(Arr(elems), depth).value
      decreases elems, 2
    {
      if |elems| > MAX_INT32 {
        return false;
      }
      var head := [TYPE_TUPLE] + Int32(|elems|);
      Bytes(head);
      ok := Elements(elems, depth + 1);
      if ok {
        Regroup(old(out), head, MarshalAll(elems, depth + 1).value);
      }
    }

    /** A dict is ended rather than counted. */
    method Dict(entries: seq<Value>, depth: nat) returns (ok: bool)
      requires depth <= MAX_DEPTH
      modifies this
      ensures ok <==> Marshal(Map(entries), depth).Some?
      ensures ok ==> out == old(out) + Marshal(Map(entries), depth).value
      decreases entries, 2
    {
      if |entries| % 2 != 0 {
        return false;
      }
      Bytes([TYPE_DICT]);
      ok := Elements(entries, depth + 1);
      if ok {
        ghost var body := MarshalAll(entries, depth + 1).value;
        Regroup(old(out), [TYPE_DICT], body);
        Regroup(old(out), [TYPE_DICT] + body, [TYPE_NULL]);
        Bytes([TYPE_NULL]);
      }
    }

    method Elements(vs: seq<Value>, depth: nat) returns (ok: bool)
      modifies this
      ensures ok <==> MarshalAll(vs, depth).Some?
      ensures ok ==> out == old(out) + MarshalAll(vs, depth).value
      decreases vs, 1
    {
      ghost var done: bytes := [];
      assert vs[0..] == vs;
      PrependLaws([], [], MarshalAll(vs, depth));
      for i := 0 to |vs|
        invariant out == old(out) + done
        invariant MarshalAll(vs, depth) == Prepend(done, MarshalAll(vs[i..], depth))
      {
        assert vs[i..][0] == vs[i] && vs[i..][1..] == vs[i + 1..];
        ghost var one, more := Marshal(vs[i], depth), MarshalAll(vs[i + 1..], depth);
        ok := Write(vs[i], depth);
        if !ok {
          return;
        }
        PrependLaws(done, one.value, more);
        Regroup(old(out), done, one.value);
        done := done + one.value;
      }
      assert done + [] == done;
      ok := true;
    }
  }

  // ---------------------------------------------------------------- a reader

  /** What a reader finds at the start of its input. */
  datatype Loaded<T> = Parsed(value: T, used: nat) | End | Bad

  function Load(s: bytes): (r: Loaded<Value>)
    ensures r.Parsed? ==> 0 < r.used <= |s|
    decreases |s|, 0
  {
    if s == [] then Bad
    else if s[0] == TYPE_NULL then End
    else if s[0] == TYPE_NONE then Parsed(Nil, 1)
    else if s[0] == TYPE_TRUE then Parsed(Bool(true), 1)
    else if s[0] == TYPE_FALSE then Parsed(Bool(false), 1)
    else if s[0] == TYPE_FLOAT then if |s| >= 9 then Parsed(Float(Reversed(s[1..9])), 9) else Bad
    else if s[0] == TYPE_DICT then
      match LoadPairs(s[1..])
      case Parsed(entries, used) => Parsed(Map(entries), 1 + used)
      case End => Bad
      case Bad => Bad
    else if |s| < 5 then Bad
    else
      var n := FromInt32(s[1..5]);
      if s[0] == TYPE_INT then Parsed(Int(n), 5)
      else if s[0] == TYPE_LONG then LoadLong(s, if n < 0 then 0 - n else n, n < 0)
      else if n < 0 then Bad
      else if s[0] == TYPE_STRING then if 5 + n <= |s| then Parsed(Bin(s[5..5 + n]), 5 + n) else Bad
      else if s[0] == TYPE_UNICODE then if 5 + n <= |s| then Parsed(Str(Unescaped(s[5..5 + n])), 5 + n) else Bad
      else if s[0] == TYPE_TUPLE then
        match LoadMany(s[5..], n)
        case Parsed(elems, used) => Parsed(Arr(elems), 5 + used)
        case End => Bad
        case Bad => Bad
      else Bad
  }

  /** One whose top digit is idle is rejected. */
  function LongOf(ds: seq<nat>, negative: bool): Option<Value> {
    if ds != [] && ds[|ds| - 1] == 0 then None
    else Some(Int(if negative then 0 - FromDigits(ds) else FromDigits(ds)))
  }

  /** A long of so many digits. */
  function LoadLong(s: bytes, count: nat, negative: bool): (r: Loaded<Value>)
    requires 5 <= |s|
    ensures r.Parsed? ==> 0 < r.used <= |s|
  {
    if 5 + 2 * count > |s| then Bad
    else
      match LongOf(FromPairs(s[5..5 + 2 * count]), negative)
      case None => Bad
      case Some(v) => Parsed(v, 5 + 2 * count)
  }

  function LoadMany(s: bytes, k: nat): (r: Loaded<seq<Value>>)
    ensures r.Parsed? ==> r.used <= |s|
    decreases |s|, 1
  {
    if k == 0 then Parsed([], 0)
    else
      match Load(s)
      case End => Bad
      case Bad => Bad
      case Parsed(v, used) =>
        match LoadMany(s[used..], k - 1)
        case End => Bad
        case Bad => Bad
        case Parsed(rest, more) => Parsed([v] + rest, used + more)
  }

  /** Keys and values until the null code. */
  function LoadPairs(s: bytes): (r: Loaded<seq<Value>>)
    ensures r.Parsed? ==> r.used <= |s|
    decreases |s|, 1
  {
    match Load(s)
    case End => Parsed([], 1)
    case Bad => Bad
    case Parsed(key, used) =>
      var t := s[used..];
      match Load(t)
      case End => Bad
      case Bad => Bad
      case Parsed(v, more) =>
        match LoadPairs(t[more..])
        case End => Bad
        case Bad => Bad
        case Parsed(rest, n) => Parsed([key, v] + rest, used + more + n)
  }

  // ---------------------------------------------------------------- the reader undoes the writer

  lemma CountHead(code: byte, n: nat, body: bytes, rest: bytes)
    requires n <= MAX_INT32
    ensures var s := [code] + Int32(n) + body + rest;
      && s[0] == code && |s| >= 5 && FromInt32(s[1..5]) == n && s[5..] == body + rest && s[5..5 + |body|] == body
  {
    var s := [code] + Int32(n) + body + rest;
    assert s[1..5] == Int32(n);
    Int32Back(n);
  }

  lemma LongDigits(mag: nat)
    requires mag < 2 * TWO63
    ensures |Digits(mag)| <= 5
  {
    assert DigitPower(5) == DIGIT * DIGIT * DIGIT * DIGIT * DIGIT;
    FewDigits(mag, 5);
  }

  /** The parts of a long. */
  lemma LongShape(count: int, ds: seq<nat>, rest: bytes)
    requires -5 <= count <= 5
    ensures var s := [TYPE_LONG] + Int32(count) + Pairs(ds) + rest;
      && s[0] == TYPE_LONG && 5 + 2 * |ds| <= |s| && s[1..5] == Int32(count) && s[5..5 + 2 * |ds|] == Pairs(ds)
  {
  }

  lemma LongLoads(s: bytes, count: int, ds: seq<nat>)
    requires -5 <= count <= 5 && |ds| <= 5 && 5 + 2 * |ds| <= |s|
    requires s[0] == TYPE_LONG && s[1..5] == Int32(count) && s[5..5 + 2 * |ds|] == Pairs(ds)
    ensures Load(s) == LoadLong(s, if count < 0 then 0 - count else count, count < 0)
  {
    Int32Back(count);
  }

  lemma LongRead(s: bytes, ds: seq<nat>, negative: bool, v: Value)
    requires |ds| <= 5 && 5 + 2 * |ds| <= |s| && s[0] == TYPE_LONG
    requires s[1..5] == Int32(if negative then 0 - |ds| else |ds|) && s[5..5 + 2 * |ds|] == Pairs(ds)
    requires ds != [] && LongOf(ds, negative) == Some(v) && forall i :: 0 <= i < |ds| ==> ds[i] < DIGIT
    ensures Load(s) == Parsed(v, 5 + 2 * |ds|)
  {
    LongLoads(s, if negative then 0 - |ds| else |ds|, ds);
    LongBack(s, ds, negative, v);
  }

  lemma LongIntBack(n: int, rest: bytes)
    requires -TWO63 <= n < 2 * TWO63 && n != 0
    ensures Load(Long(n) + rest) == Parsed(Int(n), |Long(n)|)
  {
    var mag: nat := if n < 0 then 0 - n else n;
    LongDigits(mag);
    DigitsBack(mag);
    var ds := Digits(mag);
    LongShape(if n < 0 then 0 - |ds| else |ds|, ds, rest);
    LongRead(Long(n) + rest, ds, n < 0, Int(n));
  }

  lemma IntBack(n: int, rest: bytes)
    requires -TWO63 <= n < 2 * TWO63
    ensures Load(IntForm32(n) + rest) == Parsed(Int(n), |IntForm32(n)|)
  {
    if -MAX_INT32 - 1 <= n <= MAX_INT32 {
      var s := [TYPE_INT] + Int32(n) + rest;
      assert s[1..5] == Int32(n);
      Int32Back(n);
    } else {
      LongIntBack(n, rest);
    }
  }

  lemma LongBack(s: bytes, ds: seq<nat>, negative: bool, v: Value)
    requires 5 + 2 * |ds| <= |s| && s[5..5 + 2 * |ds|] == Pairs(ds) && forall i :: 0 <= i < |ds| ==> ds[i] < DIGIT
    requires LongOf(ds, negative) == Some(v)
    ensures LoadLong(s, |ds|, negative) == Parsed(v, 5 + 2 * |ds|)
  {
    PairsBack(ds);
  }

  lemma FloatBack(raw: bytes, rest: bytes)
    requires |raw| == 8
    ensures Load([TYPE_FLOAT] + Reversed(raw) + rest) == Parsed(Float(raw), 9)
  {
    var s := [TYPE_FLOAT] + Reversed(raw) + rest;
    assert s[1..9] == Reversed(raw);
    assert Reversed(Reversed(raw)) == raw;
  }

  lemma StrBack(t: bytes, rest: bytes)
    requires |Escaped(t)| <= MAX_INT32
    ensures Load([TYPE_UNICODE] + Int32(|Escaped(t)|) + Escaped(t) + rest) == Parsed(Str(t), 5 + |Escaped(t)|)
  {
    CountHead(TYPE_UNICODE, |Escaped(t)|, Escaped(t), rest);
    TextBack(t);
  }

  lemma BinBack(data: bytes, rest: bytes)
    requires |data| <= MAX_INT32
    ensures Load([TYPE_STRING] + Int32(|data|) + data + rest) == Parsed(Bin(data), 5 + |data|)
  {
    CountHead(TYPE_STRING, |data|, data, rest);
  }

  lemma TupleBack(elems: seq<Value>, body: bytes, rest: bytes)
    requires |elems| <= MAX_INT32 && LoadMany(body + rest, |elems|) == Parsed(elems, |body|)
    ensures Load([TYPE_TUPLE] + Int32(|elems|) + body + rest) == Parsed(Arr(elems), 5 + |body|)
  {
    CountHead(TYPE_TUPLE, |elems|, body, rest);
  }

  lemma DictLoads(s: bytes, inner: bytes, entries: seq<Value>, n: nat)
    requires s != [] && s[0] == TYPE_DICT && s[1..] == inner && LoadPairs(inner) == Parsed(entries, n)
    ensures Load(s) == Parsed(Map(entries), 1 + n)
  {
  }

  lemma DictBack(entries: seq<Value>, body: bytes, rest: bytes)
    requires LoadPairs(body + ([TYPE_NULL] + rest)) == Parsed(entries, |body| + 1)
    ensures Load([TYPE_DICT] + body + [TYPE_NULL] + rest) == Parsed(Map(entries), |body| + 2)
  {
    var inner := body + ([TYPE_NULL] + rest);
    Regroup([TYPE_DICT] + body, [TYPE_NULL], rest);
    Regroup([TYPE_DICT], body, [TYPE_NULL] + rest);
    assert ([TYPE_DICT] + inner)[1..] == inner;
    DictLoads([TYPE_DICT] + inner, inner, entries, |body| + 1);
  }

  /** The reader undoes the writer, whatever follows. */
  lemma {:induction false} LoadBack(v: Value, depth: nat, rest: bytes)
    requires Marshal(v, depth).Some?
    ensures Load(Marshal(v, depth).value + rest) == Parsed(v, |Marshal(v, depth).value|)
    decreases v, 0
  {
    match v {
      case Nil =>
      case Bool(_) =>
      case Int(n) => IntBack(n, rest);
      case Float(raw) => FloatBack(raw, rest);
      case Str(t) => StrBack(t, rest);
      case Bin(data) => BinBack(data, rest);
      case Arr(elems) =>
        ManyBack(elems, depth + 1, rest);
        TupleBack(elems, MarshalAll(elems, depth + 1).value, rest);
      case Map(entries) =>
        var body := MarshalAll(entries, depth + 1).value;
        PairsLoadBack(entries, depth + 1, body, rest);
        DictBack(entries, body, rest);
      case Ext(_, _) =>
      case Timestamp(_) =>
    }
  }

  lemma {:induction false} ManyBack(vs: seq<Value>, depth: nat, rest: bytes)
    requires MarshalAll(vs, depth).Some?
    ensures LoadMany(MarshalAll(vs, depth).value + rest, |vs|) == Parsed(vs, |MarshalAll(vs, depth).value|)
    decreases vs, 1
  {
    if vs != [] {
      var one, more := Marshal(vs[0], depth).value, MarshalAll(vs[1..], depth).value;
      LoadBack(vs[0], depth, more + rest);
      ManyBack(vs[1..], depth, rest);
      assert one + more + rest == one + (more + rest);
      assert (one + (more + rest))[|one|..] == more + rest;
      assert [vs[0]] + vs[1..] == vs;
    }
  }

  lemma {:induction false} PairsLoadBack(vs: seq<Value>, depth: nat, body: bytes, rest: bytes)
    requires |vs| % 2 == 0 && MarshalAll(vs, depth) == Some(body)
    ensures LoadPairs(body + ([TYPE_NULL] + rest)) == Parsed(vs, |body| + 1)
    decreases vs, 1
  {
    var tail := [TYPE_NULL] + rest;
    if vs == [] {
      assert [] + tail == tail;
    } else {
      var a, b, more := MarshalTwo(vs, depth);
      LoadBack(vs[0], depth, b + (more + tail));
      LoadBack(vs[1], depth, more + tail);
      PairsLoadBack(vs[2..], depth, more, rest);
      PairsCons(vs, a, b, more, tail, |more| + 1);
    }
  }

  lemma PairsCons(vs: seq<Value>, a: bytes, b: bytes, more: bytes, tail: bytes, n: nat)
    requires 2 <= |vs| && Load(a + (b + (more + tail))) == Parsed(vs[0], |a|) && Load(b + (more + tail)) == Parsed(vs[1], |b|)
    requires LoadPairs(more + tail) == Parsed(vs[2..], n)
    ensures LoadPairs(a + (b + more) + tail) == Parsed(vs, |a| + |b| + n)
  {
    PairBack(a, b, more + tail, vs[0], vs[1], vs[2..], n);
    Regroup(a, b + more, tail);
    Regroup(b, more, tail);
    assert [vs[0], vs[1]] + vs[2..] == vs;
  }

  lemma MarshalTwo(vs: seq<Value>, depth: nat) returns (a: bytes, b: bytes, more: bytes)
    requires 2 <= |vs| && MarshalAll(vs, depth).Some?
    ensures Marshal(vs[0], depth) == Some(a) && Marshal(vs[1], depth) == Some(b)
    ensures MarshalAll(vs[2..], depth) == Some(more) && MarshalAll(vs, depth).value == a + (b + more)
  {
    assert vs[1..][0] == vs[1] && vs[1..][1..] == vs[2..];
    assert MarshalAll(vs[1..], depth).Some?;
    a, b, more := Marshal(vs[0], depth).value, Marshal(vs[1], depth).value, MarshalAll(vs[2..], depth).value;
  }

  lemma Behind(a: bytes, tail: bytes)
    ensures (a + tail)[|a|..] == tail
  {
  }

  lemma PairStep(s: bytes, t: bytes, u: bytes, key: Value, v: Value, vs: seq<Value>, i: nat, j: nat, n: nat)
    requires i <= |s| && t == s[i..] && j <= |t| && u == t[j..]
    requires Load(s) == Parsed(key, i) && Load(t) == Parsed(v, j) && LoadPairs(u) == Parsed(vs, n)
    ensures LoadPairs(s) == Parsed([key, v] + vs, i + j + n)
  {
  }

  lemma PairBack(a: bytes, b: bytes, tail: bytes, key: Value, v: Value, vs: seq<Value>, n: nat)
    requires Load(a + (b + tail)) == Parsed(key, |a|) && Load(b + tail) == Parsed(v, |b|)
    requires LoadPairs(tail) == Parsed(vs, n)
    ensures LoadPairs(a + (b + tail)) == Parsed([key, v] + vs, |a| + |b| + n)
  {
    Behind(a, b + tail);
    Behind(b, tail);
    PairStep(a + (b + tail), b + tail, tail, key, v, vs, |a|, |b|, n);
  }

  /** Whatever is written can be read back, and reads back as it was. */
  lemma MarshalRoundTrip(v: Value)
    requires Marshal(v, 0).Some?
    ensures Load(Marshal(v, 0).value) == Parsed(v, |Marshal(v, 0).value|)
  {
    LoadBack(v, 0, []);
    assert Marshal(v, 0).value + [] == Marshal(v, 0).value;
  }
}

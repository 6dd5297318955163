/** The keyed generator behind the chunker's tables. The cipher's keystream is a function
    of the position in it; everything drawn is a function of that stream alone. */
module Csprng {
  import opened Bytes
  import opened Words
  import opened ChunkSpec

  type Keystream = nat -> byte

  /** The keystream, and how many values are drawn before the fallback: 1000 in the
      program, whatever it is here. */
  datatype Source = Source(stream: Keystream, attempts: nat)

  /** 2^56. */
  const LIMIT: nat := 0x100_0000_0000_0000

  /** n bytes of the keystream from a position on. */
  function Drawn(stream: Keystream, at: nat, n: nat): (s: bytes)
    ensures |s| == n
  {
    seq(n, i requires 0 <= i => stream(at + i))
  }

  /** Drawing twice in a row is drawing once: the stream is used without gap or overlap. */
  lemma DrawnInARow(stream: Keystream, at: nat, m: nat, n: nat)
    ensures Drawn(stream, at, m) + Drawn(stream, at + m, n) == Drawn(stream, at, m + n)
  {
  }

  // ---------------------------------------------------------------- integers

  /** How many bits a number needs. */
  function BitsOf(n: nat): nat {
    if n == 0 then 0 else 1 + BitsOf(n / 2)
  }

  lemma {:induction false} BitsSuffice(n: nat)
    ensures n < Pow2(BitsOf(n))
  {
    if n > 0 {
      BitsSuffice(n / 2);
    }
  }

  lemma {:induction false} BitsAreFew(n: nat, k: nat)
    requires n < Pow2(k)
    ensures BitsOf(n) <= k
  {
    if n > 0 {
      assert k > 0;
      BitsAreFew(n / 2, k - 1);
    }
  }

  const TWO63: int := 0x8000_0000_0000_0000
  const TWO64: int := 0x1_0000_0000_0000_0000

  function Int64(n: int): (v: int)
    ensures -TWO63 <= v < TWO63 && (v - n) % TWO64 == 0
    ensures 0 <= n < TWO63 ==> v == n
  {
    var m := n % TWO64;
    if m < TWO63 then m else m - TWO64
  }

  /** The bytes as a 64-bit integer: with eight of them the first is the sign. */
  function BigEndianInt(s: bytes): int {
    if s == [] then 0 else Int64(256 * BigEndianInt(s[..|s| - 1]) + s[|s| - 1])
  }

  /** The first byte weighs most. */
  lemma {:induction false} FirstByteWeighsMost(b: byte, s: bytes)
    ensures (BigEndianInt([b] + s) - (b * Pow256(|s|) + BigEndianInt(s))) % TWO64 == 0
  {
    if s == [] {
      assert [b] + s == [b] && [b][..0] == [];
    } else {
      var init, last := s[..|s| - 1], s[|s| - 1];
      assert ([b] + s)[..|s|] == [b] + init;
      FirstByteWeighsMost(b, init);
      Shifted(b, Pow256(|init|));
      NextByte(BigEndianInt([b] + init), b * Pow256(|init|), BigEndianInt(init), last);
    }
  }

  lemma NextByte(v: int, d: int, w: int, last: int)
    requires (v - (d + w)) % TWO64 == 0
    ensures (Int64(256 * v + last) - (256 * d + Int64(256 * w + last))) % TWO64 == 0
  {
    var i := (v - (d + w)) / TWO64;
    var j := Wraps(256 * v + last);
    var k := Wraps(256 * w + last);
    assert Int64(256 * v + last) - (256 * d + Int64(256 * w + last)) == (256 * i + j - k) * TWO64;
  }

  lemma Wraps(n: int) returns (k: int)
    ensures Int64(n) == n + k * TWO64
  {
    k := (Int64(n) - n) / TWO64;
  }

  lemma Shifted(b: int, p: int)
    ensures b * (256 * p) == 256 * (b * p)
  {
  }

  lemma {:induction false} FewBytesAreNatural(s: bytes)
    requires |s| <= 7
    ensures 0 <= BigEndianInt(s) < Pow2(8 * |s|)
  {
    if s != [] {
      FewBytesAreNatural(s[..|s| - 1]);
      PowStep(8 * |s| - 8);
      PowGrows(8 * |s|, 56);
      Pow56();
    }
  }

  lemma PowStep(k: nat)
    ensures Pow2(k + 8) == 256 * Pow2(k)
  {
    assert Pow2(k + 4) == 16 * Pow2(k) by {
      assert Pow2(k + 2) == 4 * Pow2(k);
    }
    assert Pow2(k + 6) == 4 * Pow2(k + 4);
  }

  lemma Pow56()
    ensures Pow2(56) == LIMIT
  {
    assert Pow2(0) == 1;
    PowStep(0);
    PowStep(8);
    PowStep(16);
    PowStep(24);
    PowStep(32);
    PowStep(40);
    PowStep(48);
  }

  // ---------------------------------------------------------------- draws

  /** The remainder of a division that truncates. */
  function Remainder(v: int, n: int): int
    requires 0 < n
  {
    if v >= 0 then v % n else -((-v) % n)
  }

  function BytesFor(n: int): nat
    requires 1 < n
  {
    (BitsOf(n - 1) + 7) / 8
  }

  /** The attempt at a position: the low bits of what is drawn there. */
  function Attempt(stream: Keystream, at: nat, n: int): (v: nat)
    requires 1 < n
  {
    BigEndianInt(Drawn(stream, at, BytesFor(n))) % Pow2(BitsOf(n - 1))
  }

  /** A value below n and how much of the stream it took: the first attempt that is below
      n, or after all of them failed a plain remainder. */
  function Draw(stream: Keystream, at: nat, n: int, attempts: nat): (int, nat)
    requires 1 < n
    decreases attempts
  {
    if attempts == 0 then (Remainder(BigEndianInt(Drawn(stream, at, BytesFor(n))), n), BytesFor(n))
    else if Attempt(stream, at, n) < n then (Attempt(stream, at, n), BytesFor(n))
    else
      var rest := Draw(stream, at + BytesFor(n), n, attempts - 1);
      (rest.0, BytesFor(n) + rest.1)
  }

  function DrawBelow(src: Source, at: nat, n: int): (int, nat)
    requires 0 < n
  {
    if n == 1 then (0, 0) else Draw(src.stream, at, n, src.attempts)
  }

  /** As many bits as n - 1 has, and as many bytes as these need. */
  lemma WidthIs(n: int)
    requires 1 < n
    ensures var bits := BitsOf(n - 1);
      0 < bits && Pow2(bits - 1) <= n - 1 < Pow2(bits) && 8 * (BytesFor(n) - 1) < bits <= 8 * BytesFor(n)
  {
    BitsSuffice(n - 1);
    BitsReach(n - 1);
  }

  lemma {:induction false} BitsReach(n: nat)
    requires 0 < n
    ensures 0 < BitsOf(n) && Pow2(BitsOf(n) - 1) <= n
  {
    if n > 1 {
      BitsReach(n / 2);
    }
  }

  /** Where attempt k is made. */
  function AttemptAt(at: nat, n: int, k: nat): (p: nat)
    requires 1 < n
    ensures p == at + k * BytesFor(n)
    decreases k
  {
    if k == 0 then at
    else
      Further(k - 1, BytesFor(n));
      AttemptAt(at + BytesFor(n), n, k - 1)
  }

  lemma Further(k: nat, width: nat)
    ensures width + k * width == (k + 1) * width
  {
  }

  ghost predicate Rejects(stream: Keystream, at: nat, n: int, j: nat)
    requires 1 < n
  {
    Attempt(stream, AttemptAt(at, n, j), n) >= n
  }

  /** The first k attempts are rejected, and the next is accepted unless there is none. */
  ghost predicate Settles(stream: Keystream, at: nat, n: int, attempts: nat, k: nat)
    requires 1 < n
  {
    k <= attempts && (forall j: nat :: j < k ==> Rejects(stream, at, n, j)) && (k < attempts ==> !Rejects(stream, at, n, k))
  }

  lemma SettlesNext(stream: Keystream, at: nat, n: int, attempts: nat, k: nat)
    requires 1 < n && Settles(stream, at, n, attempts, k) && 0 < k
    ensures Attempt(stream, at, n) >= n && Settles(stream, at + BytesFor(n), n, attempts - 1, k - 1)
  {
    var next := at + BytesFor(n);
    assert Rejects(stream, at, n, 0);
    forall j: nat | j < k - 1
      ensures Rejects(stream, next, n, j)
    {
      assert Rejects(stream, at, n, j + 1);
    }
    assert k < attempts ==> !Rejects(stream, at, n, k - 1 + 1);
  }

  /** What is drawn is the first attempt that is below n; if there is none, what is left of
      the bytes behind the last. Each attempt takes its own bytes. */
  lemma {:induction false} DrawIs(stream: Keystream, at: nat, n: int, attempts: nat, k: nat)
    requires 1 < n && Settles(stream, at, n, attempts, k)
    ensures var p := AttemptAt(at, n, k);
      Draw(stream, at, n, attempts) ==
      (if k < attempts then Attempt(stream, p, n) else Remainder(BigEndianInt(Drawn(stream, p, BytesFor(n))), n),
       p - at + BytesFor(n))
    decreases attempts
  {
    if k > 0 {
      SettlesNext(stream, at, n, attempts, k);
      DrawIs(stream, at + BytesFor(n), n, attempts - 1, k - 1);
    }
  }

  /** The remainder has the sign of what is divided. */
  lemma RemainderIs(v: int, n: int)
    requires 0 < n
    ensures var r := Remainder(v, n); (v - r) % n == 0 && -n < r < n && (r > 0 ==> v > 0) && (r < 0 ==> v < 0)
  {
    if v >= 0 {
      Parts(v, n);
      DivMod(v - v % n, v / n, n, 0);
    } else {
      Parts(-v, n);
      assert (-(-v / n)) * n == -(-v / n * n);
      DivMod(v + -v % n, -(-v / n), n, 0);
    }
  }

  /** What the fallback divides, when no attempt is accepted. */
  function Fallback(stream: Keystream, at: nat, n: int, attempts: nat): Option<int>
    requires 1 < n
    decreases attempts
  {
    if attempts == 0 then Some(BigEndianInt(Drawn(stream, at, BytesFor(n))))
    else if Attempt(stream, at, n) < n then None
    else Fallback(stream, at + BytesFor(n), n, attempts - 1)
  }

  /** A draw is in [0, n) unless the fallback divides a negative number, and then unless
      the division comes out even. */
  lemma {:induction false} DrawInRange(stream: Keystream, at: nat, n: int, attempts: nat)
    requires 1 < n
    ensures var v, f := Draw(stream, at, n, attempts).0, Fallback(stream, at, n, attempts);
      && (0 <= v < n <==> f.None? || 0 <= f.value || (-f.value) % n == 0)
      && -n < v < n
    decreases attempts
  {
    if attempts > 0 && Attempt(stream, at, n) >= n {
      DrawInRange(stream, at + BytesFor(n), n, attempts - 1);
    }
  }

  /** For every bound up to 2^56, every draw from every keystream is in [0, n). */
  lemma DrawBelowInRange(src: Source, at: nat, n: int)
    requires 0 < n <= LIMIT
    ensures 0 <= DrawBelow(src, at, n).0 < n
  {
    if n > 1 {
      Pow56();
      BitsAreFew(n - 1, 56);
      DrawInRange(src.stream, at, n, src.attempts);
      FallbackIsNatural(src.stream, at, n, src.attempts);
    }
  }

  lemma {:induction false} FallbackIsNatural(stream: Keystream, at: nat, n: int, attempts: nat)
    requires 1 < n && BitsOf(n - 1) <= 56
    ensures var f := Fallback(stream, at, n, attempts); f.Some? ==> 0 <= f.value
    decreases attempts
  {
    if attempts == 0 {
      FewBytesAreNatural(Drawn(stream, at, BytesFor(n)));
    } else if Attempt(stream, at, n) >= n {
      FallbackIsNatural(stream, at + BytesFor(n), n, attempts - 1);
    }
  }

  // ---------------------------------------------------------------- a bound it does not hold for

  function Ones(at: nat): byte {
    255
  }

  lemma {:induction false} BitsOfPower(k: nat)
    ensures BitsOf(Pow2(k)) == k + 1
  {
    if k == 0 {
      assert BitsOf(1) == 1 + BitsOf(0);
    } else {
      BitsOfPower(k - 1);
      assert Pow2(k) / 2 == Pow2(k - 1);
    }
  }

  lemma {:induction false} OnesAreMinusOne(at: nat, k: nat)
    requires k <= 7
    ensures BigEndianInt(Drawn(Ones, at, k)) == Pow2(8 * k) - 1
  {
    if k > 0 {
      var s := Drawn(Ones, at, k);
      assert s[..k - 1] == Drawn(Ones, at, k - 1);
      OnesAreMinusOne(at, k - 1);
      PowStep(8 * (k - 1));
      assert 8 * (k - 1) + 8 == 8 * k;
      assert s[k - 1] == 255;
      PowGrows(8 * k, 56);
      Pow56();
    }
  }

  lemma EightOnes(at: nat)
    ensures BigEndianInt(Drawn(Ones, at, 8)) == -1
  {
    var s := Drawn(Ones, at, 8);
    assert s[..7] == Drawn(Ones, at, 7);
    OnesAreMinusOne(at, 7);
    Pow56();
    assert 256 * BigEndianInt(s[..7]) + s[7] == TWO64 - 1;
  }

  /** A keystream that reads the same everywhere and is always rejected. */
  lemma {:induction false} AlwaysRejected(stream: Keystream, at: nat, n: int, v: int, attempts: nat)
    requires 1 < n && v % Pow2(BitsOf(n - 1)) >= n
    requires forall a: nat :: BigEndianInt(Drawn(stream, a, BytesFor(n))) == v
    ensures Draw(stream, at, n, attempts).0 == Remainder(v, n)
    decreases attempts
  {
    if attempts > 0 {
      AlwaysRejected(stream, at + BytesFor(n), n, v, attempts - 1);
    }
  }

  lemma MinusOne(m: int)
    requires 0 < m
    ensures -1 % m == m - 1
  {
  }

  lemma Double(k: nat)
    ensures Pow2(k + 1) == 2 * Pow2(k)
  {
  }

  /** With a bound of 2^62 + 1 and a keystream of set bits the fallback yields -1. */
  lemma DrawCanBeNegative(attempts: nat)
    ensures DrawBelow(Source(Ones, attempts), 0, Pow2(62) + 1).0 == -1
  {
    Pow56();
    Double(56);
    Double(57);
    BitsOfPower(62);
    Double(62);
    var n := Pow2(62) + 1;
    forall a: nat
      ensures BigEndianInt(Drawn(Ones, a, BytesFor(n))) == -1
    {
      EightOnes(a);
    }
    MinusOne(Pow2(63));
    AlwaysRejected(Ones, 0, n, -1, attempts);
  }

  // ---------------------------------------------------------------- the bounds it does hold for

  lemma {:induction false} BitsAreMany(n: nat, k: nat)
    requires Pow2(k) <= n
    ensures k < BitsOf(n)
  {
    if k > 0 {
      assert n > 0 && Pow2(k - 1) <= n / 2;
      BitsAreMany(n / 2, k - 1);
    }
  }

  lemma {:induction false} BitsBelowPower(k: nat)
    ensures BitsOf(Pow2(k) - 1) == k
  {
    if k > 0 {
      BitsBelowPower(k - 1);
      assert (Pow2(k) - 1) / 2 == Pow2(k - 1) - 1;
    }
  }

  ghost predicate IsPowerOfTwo(n: int) {
    exists k: nat :: n == Pow2(k)
  }

  /** A power of two takes the first attempt as it is: no value of that many bits is too large. */
  lemma PowerIsNeverRejected(src: Source, at: nat, n: int)
    requires 0 < src.attempts && 0 < n && IsPowerOfTwo(n)
    ensures 0 <= DrawBelow(src, at, n).0 < n
  {
    var k: nat :| n == Pow2(k);
    BitsBelowPower(k);
    if n > 1 {
      assert Attempt(src.stream, at, n) < Pow2(BitsOf(n - 1)) == n;
    }
  }

  lemma OnesAreMinusOneAlways(n: int)
    requires 1 < n && BytesFor(n) == 8
    ensures forall a: nat :: BigEndianInt(Drawn(Ones, a, BytesFor(n))) == -1
  {
    forall a: nat
      ensures BigEndianInt(Drawn(Ones, a, BytesFor(n))) == -1
    {
      EightOnes(a);
    }
  }

  lemma WideBounds(n: int)
    requires LIMIT < n < TWO63
    ensures BytesFor(n) == 8
  {
    Pow56();
    BitsAreMany(n - 1, 56);
    Pow63();
    BitsAreFew(n - 1, 63);
  }

  lemma OneLeft(n: int)
    requires 1 < n
    ensures 1 % n == 1
  {
  }

  lemma RejectsMinusOne(n: int, p: int)
    requires 1 < n && p == Pow2(BitsOf(n - 1)) && n != p
    ensures -1 % p == p - 1 >= n && Remainder(-1, n) == -1
  {
    OneLeft(n);
    BitsSuffice(n - 1);
    MinusOne(p);
  }

  /** Any other bound above 2^56 is out of luck with a keystream of set bits: all attempts
      are rejected, and the eight bytes behind them are read as -1. */
  lemma OtherBoundsFail(n: int, attempts: nat)
    requires LIMIT < n < TWO63 && !IsPowerOfTwo(n)
    ensures DrawBelow(Source(Ones, attempts), 0, n).0 == -1
  {
    WideBounds(n);
    RejectsMinusOne(n, Pow2(BitsOf(n - 1)));
    OnesAreMinusOneAlways(n);
    AlwaysRejected(Ones, 0, n, -1, attempts);
  }

  lemma Pow63()
    ensures Pow2(63) == TWO63
  {
    Pow56();
    Double(56);
    Double(57);
    Double(58);
    Double(59);
    Double(60);
    Double(61);
    Double(62);
  }

  ghost predicate AllInRange(n: int, attempts: nat)
    requires 0 < n
  {
    forall stream: Keystream, at: nat :: 0 <= DrawBelow(Source(stream, attempts), at, n).0 < n
  }

  /** For which 64-bit bounds every draw from every keystream is in [0, n): those up to
      2^56, and the powers of two. */
  lemma InRangeIff(n: int, attempts: nat)
    requires 0 < n < TWO63 && 0 < attempts
    ensures AllInRange(n, attempts) <==> n <= LIMIT || IsPowerOfTwo(n)
  {
    if n <= LIMIT || IsPowerOfTwo(n) {
      forall stream: Keystream, at: nat
        ensures 0 <= DrawBelow(Source(stream, attempts), at, n).0 < n
      {
        if n <= LIMIT {
          DrawBelowInRange(Source(stream, attempts), at, n);
        } else {
          PowerIsNeverRejected(Source(stream, attempts), at, n);
        }
      }
    } else {
      OtherBoundsFail(n, attempts);
    }
  }

  // ---------------------------------------------------------------- the generator

  /** How many bits n needs, counted by shifting. */
  method BitsNeeded(n: nat) returns (bits: nat)
    ensures bits == BitsOf(n)
  {
    bits := 0;
    var tmp: nat := n;
    while tmp > 0
      invariant bits + BitsOf(tmp) == BitsOf(n)
    {
      bits, tmp := bits + 1, tmp / 2;
    }
  }

  /** The whole draw is what the rest of it comes to, and how far it has got. */
  predicate Remains(all: (int, nat), start: nat, at: nat, rest: (int, nat)) {
    all.0 == rest.0 && all.1 == at - start + rest.1
  }

  class Generator {
    /** The cipher's keystream, and how far it has been taken. */
    const src: Source
    var taken: nat
    const buf: array<byte>
    var pos: nat

    ghost predicate Valid()
      reads this, buf
    {
      && 0 < buf.Length && pos <= buf.Length && buf.Length <= taken + pos
      && forall i :: pos <= i < buf.Length ==> buf[i] == src.stream(taken + i - buf.Length)
    }

    /** How much of the keystream has been handed out. */
    ghost function At(): nat
      reads this, buf
      requires Valid()
    {
      taken + pos - buf.Length
    }

    constructor (src: Source, block: nat)
      requires 0 < block
      ensures Valid() && fresh(buf) && buf.Length == block && this.src == src && At() == 0
    {
      this.src := src;
      buf := new byte[block](_ => 0);
      taken, pos := 0, block;
    }

    method Refill()
      requires Valid() && pos == buf.Length
      modifies this, buf
      ensures Valid() && pos == 0 && At() == old(At())
    {
      for i := 0 to buf.Length
        invariant taken == old(taken) && pos == old(pos)
        invariant forall k :: 0 <= k < i ==> buf[k] == src.stream(taken + k)
      {
        buf[i] := src.stream(taken + i);
      }
      taken, pos := taken + buf.Length, 0;
    }

    /** The next n bytes of the keystream, wherever the refills fall. */
    method RandomBytes(n: nat) returns (out: bytes)
      requires Valid()
      modifies this, buf
      ensures Valid() && out == Drawn(src.stream, old(At()), n) && At() == old(At()) + n
    {
      out := [];
      while |out| < n
        invariant Valid() && |out| <= n
        invariant out == Drawn(src.stream, old(At()), |out|) && At() == old(At()) + |out|
      {
        if pos >= buf.Length {
          Refill();
        }
        var c := Min(n - |out|, buf.Length - pos);
        out := out + buf[pos..pos + c];
        pos := pos + c;
      }
    }

    /** One attempt: as many bits as the bound needs. */
    method TryOne(n: int, bits: nat, width: nat) returns (v: nat)
      requires Valid() && 1 < n && bits == BitsOf(n - 1) && width == BytesFor(n)
      modifies this, buf
      ensures Valid() && v == Attempt(src.stream, old(At()), n) && At() == old(At()) + width
    {
      var b := RandomBytes(width);
      v := BigEndianInt(b) % Pow2(bits);
    }

    /** None for a bound that is not positive. */
    method RandomInt(n: int) returns (r: Option<int>)
      requires Valid()
      modifies this, buf
      ensures Valid() && (r.Some? <==> 0 < n)
      ensures r.Some? ==>
        var d := DrawBelow(src, old(At()), n);
        r.value == d.0 && At() == old(At()) + d.1
      ensures r.None? ==> At() == old(At())
    {
      if n <= 0 {
        return None;
      }
      if n == 1 {
        return Some(0);
      }
      var bits := BitsNeeded(n - 1);
      var width := (bits + 7) / 8;
      var v := DrawOne(n, bits, width);
      return Some(v);
    }

    /** Attempts, and when all of them have failed a plain remainder. */
    method DrawOne(n: int, bits: nat, width: nat) returns (v: int)
      requires Valid() && 1 < n && bits == BitsOf(n - 1) && width == BytesFor(n)
      modifies this, buf
      ensures Valid() && var d := Draw(src.stream, old(At()), n, src.attempts); v == d.0 && At() == old(At()) + d.1
    {
      ghost var all, start := Draw(src.stream, At(), n, src.attempts), At();
      for attempt := 0 to src.attempts
        invariant Valid() && start <= At()
        invariant Remains(all, start, At(), Draw(src.stream, At(), n, src.attempts - attempt))
      {
        v := TryOne(n, bits, width);
        if v < n {
          return;
        }
      }
      var b := RandomBytes(width);
      v := Remainder(BigEndianInt(b), n);
    }

    /** In place. */
    method Shuffle(items: array<int>) returns (ok: bool)
      requires Valid() && items.Length <= LIMIT
      modifies this, buf, items
      ensures Valid() && ok
      ensures (items[..], At()) == Shuffled(src, old(At()), old(items[..]), items.Length - 1)
    {
      ghost var all := Shuffled(src, At(), items[..], items.Length - 1);
      var i := items.Length - 1;
      while i > 0
        invariant Valid() && i < items.Length && (i < 0 ==> items.Length == 0)
        invariant Shuffled(src, At(), items[..], i) == all
      {
        ok := SwapOne(items, i);
        i := i - 1;
      }
      ok := true;
    }

    /** Swaps the item at i with one drawn from those up to it. */
    method SwapOne(items: array<int>, i: nat) returns (ok: bool)
      requires Valid() && 0 < i < items.Length <= LIMIT
      modifies this, buf, items
      ensures Valid() && ok
      ensures Shuffled(src, At(), items[..], i - 1) == Shuffled(src, old(At()), old(items[..]), i)
    {
      ShuffledStep(src, At(), items[..], i);
      ghost var before := items[..];
      var j := RandomInt(i + 1);
      if j.None? {
        return false;
      }
      items[i], items[j.value] := items[j.value], items[i];
      assert items[..] == Swap(before, i, j.value);
      ok := true;
    }
  }

  // ---------------------------------------------------------------- shuffling

  function Swap(s: seq<int>, i: nat, j: nat): (r: seq<int>)
    requires i < |s| && j < |s|
    ensures |r| == |s|
  {
    s[i := s[j]][j := s[i]]
  }

  lemma SwapPermutes(s: seq<int>, i: nat, j: nat)
    requires i < |s| && j < |s|
    ensures multiset(Swap(s, i, j)) == multiset(s)
  {
  }

  /** What stood at i and at j has changed places, and nothing else has. */
  lemma SwapExchanges(s: seq<int>, i: nat, j: nat, k: nat)
    requires i < |s| && j < |s| && k < |s|
    ensures Swap(s, i, j)[k] == if k == i then s[j] else if k == j then s[i] else s[k]
  {
  }

  /** Dealing out a row from its end: one item of those left is drawn and comes last; the
      item that was last takes its place. */
  function Dealt(src: Source, at: nat, left: seq<int>): (r: (seq<int>, nat))
    requires |left| <= LIMIT
    decreases |left|
  {
    if |left| <= 1 then (left, at)
    else
      DrawBelowInRange(src, at, |left|);
      var d := DrawBelow(src, at, |left|);
      var rest := Dealt(src, at + d.1, left[d.0 := left[|left| - 1]][..|left| - 1]);
      (rest.0 + [left[d.0]], rest.1)
  }

  lemma SwapSplits(s: seq<int>, i: nat, j: nat)
    requires j <= i < |s|
    ensures Swap(s, i, j)[..i] == s[..i + 1][j := s[..i + 1][i]][..i]
    ensures Swap(s, i, j)[i..] == [s[..i + 1][j]] + s[i + 1..]
  {
    assert Swap(s, i, j)[i + 1..] == s[i + 1..];
  }

  lemma DealtStep(src: Source, at: nat, left: seq<int>, d: (int, nat))
    requires 1 < |left| <= LIMIT && d == DrawBelow(src, at, |left|)
    ensures 0 <= d.0 < |left|
    ensures var rest := Dealt(src, at + d.1, left[d.0 := left[|left| - 1]][..|left| - 1]);
      Dealt(src, at, left) == (rest.0 + [left[d.0]], rest.1)
  {
    DrawBelowInRange(src, at, |left|);
  }

  /** A shuffle in place deals out its items: the one that ends at an index is the one drawn
      from those left when the index was dealt with. */
  lemma {:induction false} ShuffledDeals(src: Source, at: nat, s: seq<int>, i: int)
    requires -1 <= i < |s| <= LIMIT
    ensures Shuffled(src, at, s, i).0 == Dealt(src, at, s[..i + 1]).0 + s[i + 1..]
    ensures Shuffled(src, at, s, i).1 == Dealt(src, at, s[..i + 1]).1
    decreases i + 1
  {
    if i > 0 {
      var d, left := DrawBelow(src, at, i + 1), s[..i + 1];
      DealtStep(src, at, left, d);
      ShuffledStep(src, at, s, i);
      var t := Swap(s, i, d.0);
      SwapSplits(s, i, d.0);
      ShuffledDeals(src, at + d.1, t, i - 1);
      Regroup(Dealt(src, at + d.1, t[..i]).0, [left[d.0]], s[i + 1..]);
    } else {
      assert s[..i + 1] + s[i + 1..] == s;
    }
  }

  /** Fisher-Yates from index i down. */
  function Shuffled(src: Source, at: nat, s: seq<int>, i: int): (r: (seq<int>, nat))
    requires i < |s| <= LIMIT
    ensures |r.0| == |s|
    decreases i
  {
    if i <= 0 then (s, at)
    else
      DrawBelowInRange(src, at, i + 1);
      var d := DrawBelow(src, at, i + 1);
      Shuffled(src, at + d.1, Swap(s, i, d.0), i - 1)
  }

  lemma ShuffledStep(src: Source, at: nat, s: seq<int>, i: int)
    requires 0 < i < |s| <= LIMIT
    ensures var d := DrawBelow(src, at, i + 1);
      0 <= d.0 < |s| && Shuffled(src, at, s, i) == Shuffled(src, at + d.1, Swap(s, i, d.0), i - 1)
  {
    DrawBelowInRange(src, at, i + 1);
  }

  /** Whatever the keystream, a shuffle permutes. */
  lemma {:induction false} ShuffledPermutes(src: Source, at: nat, s: seq<int>, i: int)
    requires i < |s| <= LIMIT
    ensures multiset(Shuffled(src, at, s, i).0) == multiset(s)
    decreases i
  {
    if i > 0 {
      DrawBelowInRange(src, at, i + 1);
      var d := DrawBelow(src, at, i + 1);
      SwapPermutes(s, i, d.0);
      ShuffledPermutes(src, at + d.1, Swap(s, i, d.0), i - 1);
    }
  }

  // ---------------------------------------------------------------- the table of the 64-bit buzhash

  const ENTRIES: nat := 256
  const WIDTH: nat := 64

  /** The entries in which a bit, counted from the lowest, is set. */
  function Holders(table: seq<Word>, bit: nat): (h: set<nat>)
    requires bit < WIDTH && forall k :: 0 <= k < |table| ==> |table[k]| == WIDTH
  {
    set k: nat | k < |table| && table[k][WIDTH - 1 - bit]
  }

  predicate Words64(table: seq<Word>) {
    |table| == ENTRIES && forall k :: 0 <= k < |table| ==> |table[k]| == WIDTH
  }

  function Identity(n: nat): (s: seq<int>)
    ensures |s| == n
  {
    seq(n, i requires 0 <= i => i)
  }

  ghost predicate Distinct(s: seq<int>) {
    forall i, j :: 0 <= i < j < |s| ==> s[i] != s[j]
  }

  lemma SwapKeepsDistinct(s: seq<int>, i: nat, j: nat)
    requires i < |s| && j < |s| && Distinct(s)
    ensures Distinct(Swap(s, i, j))
  {
  }

  lemma {:induction false} ShuffledDistinct(src: Source, at: nat, s: seq<int>, i: int)
    requires i < |s| <= LIMIT && Distinct(s)
    ensures Distinct(Shuffled(src, at, s, i).0)
    decreases i
  {
    if i > 0 {
      DrawBelowInRange(src, at, i + 1);
      var d := DrawBelow(src, at, i + 1);
      SwapKeepsDistinct(s, i, d.0);
      ShuffledDistinct(src, at + d.1, Swap(s, i, d.0), i - 1);
    }
  }

  /** What a shuffle of 0, 1, .. n-1 is. */
  ghost predicate Permutes(s: seq<int>, n: nat) {
    |s| == n && Distinct(s) && forall i :: 0 <= i < n ==> 0 <= s[i] < n
  }

  lemma ShuffledIdentity(src: Source, at: nat, n: nat)
    requires n <= LIMIT
    ensures Permutes(Shuffled(src, at, Identity(n), n - 1).0, n)
  {
    var s := Shuffled(src, at, Identity(n), n - 1).0;
    ShuffledPermutes(src, at, Identity(n), n - 1);
    ShuffledDistinct(src, at, Identity(n), n - 1);
    forall i | 0 <= i < n
      ensures 0 <= s[i] < n
    {
      assert s[i] in multiset(s);
      assert s[i] in Identity(n);
    }
  }

  /** The numbers below n that are listed. */
  function Listed(s: seq<int>, n: nat): (l: set<nat>)
    ensures forall k: nat :: k in l <==> k < n && k in s
  {
    set k: nat | k < n && k in s
  }

  /** Distinct numbers are as many as they are. */
  lemma {:induction false} Counted(s: seq<int>, n: nat, m: nat)
    requires Permutes(s, n) && m <= n
    ensures |Listed(s[..m], n)| == m
  {
    if m == 0 {
      assert Listed(s[..0], n) == {};
    } else {
      Counted(s, n, m - 1);
      var x: nat := s[m - 1];
      assert s[..m] == s[..m - 1] + [x];
      assert Listed(s[..m], n) == Listed(s[..m - 1], n) + {x};
      assert x !in s[..m - 1];
    }
  }

  /** The table with a bit added to the entries named first in s. */
  ghost predicate BitAdded(before: seq<Word>, after: seq<Word>, s: seq<int>, m: nat, bit: nat)
    requires bit < WIDTH && m <= |s|
  {
    && Words64(before) && Words64(after)
    && forall k :: 0 <= k < ENTRIES ==>
         after[k] == if k in s[..m] then before[k][WIDTH - 1 - bit := true] else before[k]
  }

  lemma BitAddedNext(before: seq<Word>, t: seq<Word>, s: seq<int>, m: nat, bit: nat)
    requires bit < WIDTH && m < |s| && BitAdded(before, t, s, m, bit) && 0 <= s[m] < ENTRIES
    ensures BitAdded(before, t[s[m] := t[s[m]][WIDTH - 1 - bit := true]], s, m + 1, bit)
  {
    assert s[..m + 1] == s[..m] + [s[m]];
  }

  /** Every bit up to `bits` is set in half the entries, no other in any. */
  ghost predicate BalancedUpTo(table: seq<Word>, bits: nat) {
    && Words64(table)
    && forall bit: nat :: bit < 64 ==> |Holders(table, bit)| == if bit < bits then 128 else 0
  }

  lemma BitBalances(before: seq<Word>, after: seq<Word>, s: seq<int>, bit: nat)
    requires bit < WIDTH && BalancedUpTo(before, bit) && Permutes(s, ENTRIES)
    requires BitAdded(before, after, s, ENTRIES / 2, bit)
    ensures BalancedUpTo(after, bit + 1)
  {
    forall b: nat | b < WIDTH
      ensures |Holders(after, b)| == if b < bit + 1 then ENTRIES / 2 else 0
    {
      if b == bit {
        assert Holders(before, b) == {};
        Counted(s, ENTRIES, ENTRIES / 2);
        forall k: nat | k < ENTRIES
          ensures k in Holders(after, b) <==> k in Listed(s[..ENTRIES / 2], ENTRIES)
        {
          assert k !in Holders(before, b);
        }
        assert Holders(after, b) == Listed(s[..ENTRIES / 2], ENTRIES);
      } else {
        assert Holders(after, b) == Holders(before, b);
      }
    }
  }

  lemma ZerosBalance(table: seq<Word>)
    requires |table| == ENTRIES && forall k :: 0 <= k < ENTRIES ==> table[k] == Zero(WIDTH)
    ensures BalancedUpTo(table, 0)
  {
    forall bit: nat | bit < WIDTH
      ensures |Holders(table, bit)| == 0
    {
      assert Holders(table, bit) == {};
    }
  }

  /** Where in the keystream the shuffle for a bit begins, counted from the first. */
  function ShuffleStart(src: Source, at: nat, bit: nat): nat {
    if bit == 0 then at else Dealt(src, ShuffleStart(src, at, bit - 1), Identity(ENTRIES)).1
  }

  /** The entries a bit is set in: those the first half of its shuffle names. */
  ghost predicate Chosen(src: Source, at: nat, bit: nat, k: nat) {
    var dealt := Dealt(src, ShuffleStart(src, at, bit), Identity(ENTRIES)).0;
    exists i :: 0 <= i < ENTRIES / 2 && i < |dealt| && dealt[i] == k
  }

  ghost predicate SetAsChosen(table: seq<Word>, src: Source, at: nat, bits: nat) {
    && Words64(table)
    && forall bit: nat, k: nat :: bit < bits <= WIDTH && k < ENTRIES ==> (table[k][WIDTH - 1 - bit] <==> Chosen(src, at, bit, k))
  }

  lemma ChosenAdded(before: seq<Word>, after: seq<Word>, src: Source, at: nat, s: seq<int>, bit: nat)
    requires bit < WIDTH && SetAsChosen(before, src, at, bit) && BalancedUpTo(before, bit) && |s| == ENTRIES
    requires BitAdded(before, after, s, ENTRIES / 2, bit)
    requires s == Dealt(src, ShuffleStart(src, at, bit), Identity(ENTRIES)).0
    ensures SetAsChosen(after, src, at, bit + 1)
  {
    forall b: nat, k: nat | b < bit + 1 && k < ENTRIES
      ensures after[k][WIDTH - 1 - b] <==> Chosen(src, at, b, k)
    {
      if b == bit {
        NotYetSet(before, bit, k);
        ChosenIsNamed(src, at, s, bit, k);
      }
    }
  }

  lemma ChosenIsNamed(src: Source, at: nat, s: seq<int>, bit: nat, k: nat)
    requires |s| == ENTRIES && s == Dealt(src, ShuffleStart(src, at, bit), Identity(ENTRIES)).0
    ensures Chosen(src, at, bit, k) <==> k in s[..ENTRIES / 2]
  {
    if k in s[..ENTRIES / 2] {
      var i :| 0 <= i < ENTRIES / 2 && s[..ENTRIES / 2][i] == k;
      assert s[i] == k;
    }
    if Chosen(src, at, bit, k) {
      var i :| 0 <= i < ENTRIES / 2 && s[i] == k;
      assert s[..ENTRIES / 2][i] == k;
    }
  }

  lemma NotYetSet(table: seq<Word>, bit: nat, k: nat)
    requires bit < WIDTH && BalancedUpTo(table, bit) && k < ENTRIES
    ensures !table[k][WIDTH - 1 - bit]
  {
    assert k !in Holders(table, bit);
  }

  lemma IdentityDealt(src: Source, at: nat, n: nat, r: (seq<int>, nat))
    requires n <= LIMIT && r == Shuffled(src, at, Identity(n), n - 1)
    ensures r == Dealt(src, at, Identity(n)) && Permutes(r.0, n)
  {
    ShuffledIdentity(src, at, n);
    ShuffledDeals(src, at, Identity(n), n - 1);
    assert Identity(n)[..n] == Identity(n) && Identity(n)[n..] == [];
    assert Dealt(src, at, Identity(n)).0 + [] == Dealt(src, at, Identity(n)).0;
  }

  /** A shuffled row of the first n numbers. */
  method Indices(rng: Generator, n: nat) returns (indices: array<int>)
    requires rng.Valid() && n <= LIMIT
    modifies rng, rng.buf
    ensures rng.Valid() && fresh(indices) && Permutes(indices[..], n)
    ensures (indices[..], rng.At()) == Dealt(rng.src, old(rng.At()), Identity(n))
  {
    indices := new int[n](i => i);
    assert indices[..] == Identity(n);
    ghost var at := rng.At();
    var ok := rng.Shuffle(indices);
    IdentityDealt(rng.src, at, n, (indices[..], rng.At()));
  }

  /** One more bit of every entry. */
  method TableBit(rng: Generator, table: array<Word>, bit: nat, ghost at: nat)
    requires rng.Valid() && table.Length == ENTRIES && bit < WIDTH
    requires BalancedUpTo(table[..], bit) && SetAsChosen(table[..], rng.src, at, bit)
    requires rng.At() == ShuffleStart(rng.src, at, bit)
    modifies rng, rng.buf, table
    ensures rng.Valid()
    ensures BalancedUpTo(table[..], bit + 1) && SetAsChosen(table[..], rng.src, at, bit + 1)
    ensures rng.At() == ShuffleStart(rng.src, at, bit + 1)
  {
    ghost var before := table[..];
    var indices := Indices(rng, ENTRIES);
    AddBit(table, indices, bit);
    ChosenAdded(before, table[..], rng.src, at, indices[..], bit);
  }

  /** Each of the 64 bits is set in the entries its shuffle names first; for every keystream
      these are exactly 128 of the 256. */
  method Buzhash64Table(rng: Generator) returns (table: array<Word>)
    requires rng.Valid()
    modifies rng, rng.buf
    ensures rng.Valid() && fresh(table) && table.Length == 256 && BalancedUpTo(table[..], 64)
    ensures SetAsChosen(table[..], rng.src, old(rng.At()), 64)
  {
    ghost var src, at := rng.src, rng.At();
    table := new Word[ENTRIES](_ => Zero(WIDTH));
    ZerosBalance(table[..]);
    for bit := 0 to WIDTH
      invariant rng.Valid() && fresh(table) && table.Length == ENTRIES
      invariant BalancedUpTo(table[..], bit) && SetAsChosen(table[..], rng.src, at, bit)
      invariant rng.At() == ShuffleStart(rng.src, at, bit)
    {
      TableBit(rng, table, bit, at);
    }
  }

  method AddBit(table: array<Word>, indices: array<int>, bit: nat)
    requires Words64(table[..]) && bit < WIDTH && Permutes(indices[..], ENTRIES) && BalancedUpTo(table[..], bit)
    modifies table
    ensures BalancedUpTo(table[..], bit + 1)
    ensures BitAdded(old(table[..]), table[..], indices[..], ENTRIES / 2, bit)
  {
    ghost var before, s := table[..], indices[..];
    for i := 0 to ENTRIES / 2
      invariant BitAdded(before, table[..], s, i, bit)
      invariant indices[..] == s
    {
      BitAddedNext(before, table[..], s, i, bit);
      table[indices[i]] := table[indices[i]][WIDTH - 1 - bit := true];
    }
    BitBalances(before, table[..], s, bit);
  }
}

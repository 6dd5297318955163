/** The concrete hashes. The Buzhash family is a cyclic polynomial rolled over a window:
    hashing a window from scratch and rolling it forward byte by byte agree, for every
    table and every window size, in the 64-bit and in the 32-bit version. */
module Buzhash {
  import opened Bytes
  import opened Words
  import opened ChunkSpec
  import Readers
  import opened Driver

  // ---------------------------------------------------------------- Gear

  type GearTable = g: seq<Mask> | |g| == 256 witness seq(256, _ => Zero(64))

  /** One step of the Gear hash: shift left by one and add the table entry, modulo 2^64. */
  function GearStep(gear: GearTable, digest: Mask, b: byte): Mask {
    Add(Shl1(digest), gear[b], false)
  }

  /** The step in numbers. */
  lemma GearStepIs(gear: GearTable, digest: Mask, b: byte)
    ensures Number(GearStep(gear, digest, b)) == (2 * Number(digest) + Number(gear[b])) % Pow2(64)
  {
    ShlDoubles(digest);
    AddIsModular(Shl1(digest), gear[b], false);
    ModAdd(2 * Number(digest), Number(gear[b]), Pow2(64));
  }

  lemma ModAdd(a: nat, b: nat, m: nat)
    requires m > 0
    ensures (a % m + b) % m == (a + b) % m
  {
    var q, r := (a % m + b) / m, (a % m + b) % m;
    Parts(a, m);
    Parts(a % m + b, m);
    assert (a / m + q) * m == a / m * m + q * m;
    DivMod(a + b, a / m + q, m, r);
  }

  function GearHit(digest: Mask, mask: Mask): bool {
    Disjoint(digest, mask)
  }

  function FastCdc(gear: GearTable): (algo: Algo<Mask>)
    ensures algo.WindowLess?
  {
    var step: (Mask, byte) -> Mask := (h: Mask, b: byte) => GearStep(gear, h, b);
    Algo<Mask>.WindowLess(GearHit, Zero(64), step)
  }

  /** Each step moves the digest up by one bit, so after 64 steps nothing of the starting
      digest is left: the Gear hash needs no window to forget. */
  lemma {:induction false} GearForgets(gear: GearTable, x: Mask, y: Mask, s: bytes)
    ensures var step := FastCdc(gear).step;
      forall i :: 64 - |s| <= i < 64 && 0 <= i ==> Fold(step, x, s)[i] == Fold(step, y, s)[i]
  {
    if s != [] {
      var step := FastCdc(gear).step;
      var init := s[..|s| - 1];
      GearForgets(gear, x, y, init);
      var a, b := Fold(step, x, init), Fold(step, y, init);
      AddLow(Shl1(a), Shl1(b), gear[s[|s| - 1]], false, Min(64, |s|));
    }
  }

  /** The low bits of a sum depend on nothing but the low bits of what is added. */
  lemma {:induction false} AddLow(a: Word, b: Word, c: Word, carry: bool, low: nat)
    requires |a| == |b| == |c| && low <= |a|
    requires forall i :: |a| - low <= i < |a| ==> a[i] == b[i]
    ensures forall i :: |a| - low <= i < |a| ==> Add(a, c, carry)[i] == Add(b, c, carry)[i]
    decreases low
  {
    if low > 0 {
      var n := |a| - 1;
      var out := (a[n] && c[n]) || (a[n] && carry) || (c[n] && carry);
      AddLow(a[..n], b[..n], c[..n], out, low - 1);
    }
  }

  // ---------------------------------------------------------------- Buzhash

  ghost predicate GoodTable(t: seq<Word>) {
    |t| == 256 && (|t[0]| == 64 || |t[0]| == 32) && forall b :: 0 <= b < 256 ==> |t[b]| == |t[0]|
  }

  /** A table of 256 words, all of 64 bits or all of 32. */
  type Table = t: seq<Word> | GoodTable(t) ghost witness seq(256, _ => Zero(64))

  function Width(t: Table): (width: nat)
    ensures width == 64 || width == 32
  {
    |t[0]|
  }

  /** The cyclic polynomial of a window: every byte's entry, rotated once for each byte
      that follows it. */
  function BuzHash(t: Table, w: bytes): (sum: Word)
    ensures |sum| == Width(t)
  {
    if w == [] then Zero(Width(t)) else Xor(Rotl(BuzHash(t, w[..|w| - 1]), 1), t[w[|w| - 1]])
  }

  lemma {:induction false} BuzHashCons(t: Table, a: byte, s: bytes)
    ensures BuzHash(t, [a] + s) == Xor(Rotl(t[a], |s| % Width(t)), BuzHash(t, s))
  {
    if s == [] {
      assert ([a] + s)[..0] == [] && [a] + s == [a];
      RotlSmall(t[a]);
      XorZero(t[a]);
    } else {
      var init, last := s[..|s| - 1], t[s[|s| - 1]];
      assert ([a] + s)[..|s|] == [a] + init;
      BuzHashCons(t, a, init);
      var r, h := Rotl(t[a], |init| % Width(t)), BuzHash(t, init);
      RotlXor(r, h, 1);
      RotlOne(t[a], |init|);
      XorAssoc(Rotl(r, 1), Rotl(h, 1), last);
    }
  }

  /** Rolling equals recomputing: one byte leaves the window, one enters it. */
  lemma Roll(t: Table, w: bytes, b: byte)
    requires 0 < |w|
    ensures BuzHash(t, w[1..] + [b])
      == Xor(Xor(Rotl(BuzHash(t, w), 1), Rotl(t[w[0]], |w| % Width(t))), t[b])
  {
    var tail := w[1..];
    assert w == [w[0]] + tail;
    BuzHashCons(t, w[0], tail);
    var r, h := Rotl(t[w[0]], |tail| % Width(t)), BuzHash(t, tail);
    RotlXor(r, h, 1);
    RotlOne(t[w[0]], |tail|);
    assert Xor(Rotl(BuzHash(t, w), 1), Rotl(t[w[0]], |w| % Width(t))) == Rotl(h, 1);
    assert (tail + [b])[..|tail|] == tail;
  }

  /** What one step of the from-scratch loop adds, with `left` bytes still to come. */
  lemma Absorb(t: Table, w: bytes, left: nat)
    requires left < |w|
    ensures var m := |w| - 1 - left;
      Xor(Rotl(BuzHash(t, w[..m]), (left + 1) % Width(t)), Rotl(t[w[m]], left % Width(t)))
      == Rotl(BuzHash(t, w[..m + 1]), left % Width(t))
  {
    var m := |w| - 1 - left;
    var sofar := BuzHash(t, w[..m]);
    assert w[..m + 1][..m] == w[..m];
    RotlOneFirst(sofar, left);
    RotlXor(Rotl(sofar, 1), t[w[m]], left % Width(t));
  }

  /** The hash of a window that was not rolled there, as the code computes it: the rotation
      falls from the window's size to zero, modulo the width. */
  method HashWindow(t: Table, w: bytes) returns (sum: Word)
    ensures sum == BuzHash(t, w)
  {
    var width := Width(t);
    sum := Zero(width);
    if |w| == 0 {
      return;
    }
    var i := |w| - 1;
    assert w[..0] == [] && Rotl(Zero(width), |w| % width) == Zero(width);
    while i > 0
      invariant 0 <= i < |w|
      invariant sum == Rotl(BuzHash(t, w[..|w| - 1 - i]), (i + 1) % width)
    {
      Absorb(t, w, i);
      sum := Xor(sum, Rotl(t[w[|w| - 1 - i]], i % width));
      i := i - 1;
    }
    RotlSmall(BuzHash(t, w[..|w| - 1]));
    sum := Xor(sum, t[w[|w| - 1]]);
  }

  /** The comparison of the cut loop, which keeps a sum of either width in 64 bits. */
  predicate SumHit(sum: Word, mask: Mask) {
    |sum| <= 64 && Disjoint(Extended(sum, 64), mask)
  }

  /** The scan compares in the width of the sum, with the mask cut down to it: loop and scan
      stop at the same sums. */
  lemma ScanStopsAlike(sum: Word, mask: Mask)
    requires |sum| <= 64
    ensures SumHit(sum, mask) <==> Disjoint(sum, Low(mask, |sum|))
  {
    ZeroExtension(sum, mask);
  }

  /** The table with every entry rotated by the window size, saving a rotate per byte. */
  function Rotated(t: Table, window: nat): (rot: Table)
    ensures forall b :: 0 <= b < 256 ==> rot[b] == Rotl(t[b], window % Width(t))
  {
    var rot := seq(256, b requires 0 <= b < 256 => Rotl(t[b], window % Width(t)));
    assert |rot[0]| == |t[0]|;
    rot
  }

  /** A sum of another width than the table's does not occur; it is left as it is. */
  function RollBy(t: Table, rot: Table, sum: Word, leaves: byte, enters: byte): Word {
    if |sum| == Width(t) == Width(rot) then Xor(Xor(Rotl(sum, 1), rot[leaves]), t[enters]) else sum
  }

  /** The 64-bit version rolls with the rotated table, the 32-bit one rotates each entry. */
  function Buz(t: Table, window: nat): (algo: Algo<Word>)
    ensures algo.Windowed? && algo.window == window
  {
    var rot := Rotated(t, window);
    Windowed((s, m) => SumHit(s, m), w => BuzHash(t, w), (s, o, i) => RollBy(t, rot, s, o, i), window)
  }

  lemma BuzRolls(t: Table, window: nat)
    ensures Rolls(Buz(t, window))
  {
    var algo := Buz(t, window);
    forall w: bytes, b: byte | |w| == window && 0 < window
      ensures algo.roll(algo.hash(w), w[0], b) == algo.hash(w[1..] + [b])
    {
      Roll(t, w, b);
    }
  }
}

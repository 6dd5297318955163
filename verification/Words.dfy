/** Machine words as rows of bits, most significant first: what a cyclic polynomial needs
    of them, for any width. */
module Words {

  type Word = seq<bool>

  function Zero(width: nat): (w: Word)
    ensures |w| == width
  {
    seq(width, _ => false)
  }

  function Xor(a: Word, b: Word): (w: Word)
    requires |a| == |b|
    ensures |w| == |a| && forall i :: 0 <= i < |w| ==> w[i] == (a[i] != b[i])
  {
    seq(|a|, i requires 0 <= i < |a| => a[i] != b[i])
  }

  function Shl1(a: Word): (w: Word)
    requires 0 < |a|
    ensures |w| == |a|
  {
    a[1..] + [false]
  }

  /** Addition modulo 2^|a|, with a carry into the lowest bit. */
  function Add(a: Word, b: Word, carry: bool): (w: Word)
    requires |a| == |b|
    ensures |w| == |a|
    decreases |a|
  {
    if a == [] then [] else
      var n := |a| - 1;
      var out := (a[n] && b[n]) || (a[n] && carry) || (b[n] && carry);
      Add(a[..n], b[..n], out) + [(a[n] != b[n]) != carry]
  }

  /** Rotation to the left by k places. */
  function Rotl(a: Word, k: nat): (w: Word)
    requires k <= |a|
    ensures |w| == |a|
  {
    a[k..] + a[..k]
  }

  /** The low `width` bits of a word. */
  function Low(mask: Word, width: nat): (w: Word)
    requires width <= |mask|
    ensures |w| == width
  {
    mask[|mask| - width..]
  }

  predicate Disjoint(a: Word, b: Word)
    requires |a| == |b|
  {
    forall i :: 0 <= i < |a| ==> !(a[i] && b[i])
  }

  /** A word in the low bits of a wider one. */
  function Extended(a: Word, width: nat): (w: Word)
    requires |a| <= width
    ensures |w| == width && Low(w, |a|) == a
  {
    Zero(width - |a|) + a
  }

  /** Comparing a zero-extended word with a wider mask is comparing it with the mask cut
      down to its width. */
  lemma ZeroExtension(sum: Word, mask: Word)
    requires |sum| <= |mask|
    ensures Disjoint(Extended(sum, |mask|), mask) <==> Disjoint(sum, Low(mask, |sum|))
  {
    var wide, k := Extended(sum, |mask|), |mask| - |sum|;
    forall i | 0 <= i < |sum|
      ensures wide[k + i] == sum[i] && mask[k + i] == Low(mask, |sum|)[i]
    {
    }
  }

  // ---------------------------------------------------------------- words as numbers

  function Pow2(e: int): (p: nat)
    ensures 0 < p
  {
    if e <= 0 then 1 else 2 * Pow2(e - 1)
  }

  lemma {:induction false} PowGrows(k: nat, m: nat)
    requires k <= m
    ensures Pow2(k) <= Pow2(m)
    decreases m
  {
    if k < m {
      PowGrows(k, m - 1);
    }
  }

  /** The number a word stands for. */
  function Number(w: Word): (n: nat)
    ensures n < Pow2(|w|)
  {
    if w == [] then 0 else 2 * Number(w[..|w| - 1]) + if w[|w| - 1] then 1 else 0
  }

  lemma {:induction false} NumberSplit(hi: Word, lo: Word)
    ensures Number(hi + lo) == Number(hi) * Pow2(|lo|) + Number(lo)
  {
    if lo == [] {
      assert hi + lo == hi;
    } else {
      var init := lo[..|lo| - 1];
      assert (hi + lo)[..|hi + lo| - 1] == hi + init;
      NumberSplit(hi, init);
      Twice(Number(hi), Pow2(|init|), Pow2(|lo|));
    }
  }

  lemma Twice(a: int, p: int, q: int)
    requires q == 2 * p
    ensures a * q == 2 * (a * p)
  {
  }

  /** A number cut behind its high part. */
  lemma NumberCut(w: Word, low: nat)
    requires low <= |w|
    ensures var k := |w| - low;
      Number(w) / Pow2(low) == Number(w[..k]) && Number(w) % Pow2(low) == Number(w[k..])
  {
    var hi, lo := w[..|w| - low], w[|w| - low..];
    assert w == hi + lo;
    NumberSplit(hi, lo);
    DivMod(Number(w), Number(hi), Pow2(low), Number(lo));
  }

  lemma DivMod(n: int, q: int, d: int, r: int)
    requires n == q * d + r && 0 <= r < d
    ensures n / d == q && n % d == r
  {
    Parts(n, d);
    Apart(n / d - q, d);
    assert (n / d - q) * d == r - n % d;
  }

  lemma Parts(n: int, d: int)
    requires d > 0
    ensures n == n / d * d + n % d && 0 <= n % d < d
  {
  }

  lemma Apart(e: int, d: int)
    requires d > 0
    ensures -d < e * d < d ==> e == 0
  {
    if e >= 1 {
      assert e * d >= d;
    } else if e <= -1 {
      assert e * d <= -d;
    }
  }

  lemma {:induction false} NumberIsZero(w: Word)
    ensures Number(w) == 0 <==> forall i :: 0 <= i < |w| ==> !w[i]
  {
    if w != [] {
      NumberIsZero(w[..|w| - 1]);
    }
  }

  /** The sum of two words is that of their numbers, without what goes over the top. */
  lemma {:induction false} AddCarries(a: Word, b: Word, carry: bool)
    requires |a| == |b|
    ensures var sum := Number(a) + Number(b) + if carry then 1 else 0;
      Number(Add(a, b, carry)) == sum || Number(Add(a, b, carry)) == sum - Pow2(|a|)
    decreases |a|
  {
    if a != [] {
      var n := |a| - 1;
      var out := (a[n] && b[n]) || (a[n] && carry) || (b[n] && carry);
      AddCarries(a[..n], b[..n], out);
      assert Add(a, b, carry)[..n] == Add(a[..n], b[..n], out);
    }
  }

  lemma AddIsModular(a: Word, b: Word, carry: bool)
    requires |a| == |b|
    ensures Number(Add(a, b, carry)) == (Number(a) + Number(b) + if carry then 1 else 0) % Pow2(|a|)
  {
    AddCarries(a, b, carry);
    var r, d := Number(Add(a, b, carry)), Pow2(|a|);
    var sum := Number(a) + Number(b) + if carry then 1 else 0;
    DivMod(sum, if sum == r then 0 else 1, d, r);
  }

  /** The topmost bit of a number. */
  lemma {:induction false} NumberTop(a: Word)
    requires a != []
    ensures Number(a) == Number(a[1..]) + if a[0] then Pow2(|a| - 1) else 0
  {
    if |a| > 1 {
      NumberTop(a[..|a| - 1]);
      assert a[1..][..|a| - 2] == a[..|a| - 1][1..];
    }
  }

  lemma ShlDoubles(a: Word)
    requires a != []
    ensures Number(Shl1(a)) == 2 * Number(a) % Pow2(|a|)
  {
    var rest, top := a[1..], if a[0] then 1 else 0;
    assert Shl1(a)[..|a| - 1] == rest;
    NumberTop(a);
    assert Pow2(|a|) == 2 * Pow2(|rest|);
    DivMod(2 * Number(a), top, Pow2(|a|), 2 * Number(rest));
  }

  /** Rotating a word: its low bits shifted up, and the bits that went over the top below. */
  lemma RotlMoves(a: Word, k: nat)
    requires k <= |a|
    ensures var d := Pow2(|a| - k);
      Number(Rotl(a, k)) == Number(a) % d * Pow2(k) + Number(a) / d
  {
    NumberCut(a, |a| - k);
    NumberSplit(a[k..], a[..k]);
  }

  /** Cutting down and extending are what they are for unsigned numbers. */
  lemma LowAndExtended(a: Word, width: nat)
    ensures width <= |a| ==> Number(Low(a, width)) == Number(a) % Pow2(width)
    ensures |a| <= width ==> Number(Extended(a, width)) == Number(a)
  {
    if width <= |a| {
      NumberCut(a, width);
    }
    if |a| <= width {
      NumberIsZero(Zero(width - |a|));
      NumberSplit(Zero(width - |a|), a);
      assert 0 * Pow2(|a|) == 0;
    }
  }

  // ---------------------------------------------------------------- laws

  lemma XorAssoc(a: Word, b: Word, c: Word)
    requires |a| == |b| == |c|
    ensures Xor(Xor(a, b), c) == Xor(a, Xor(b, c))
  {
  }

  lemma XorZero(a: Word)
    requires |a| > 0
    ensures Xor(Rotl(Zero(|a|), 1), a) == a == Xor(Rotl(a, 0), Zero(|a|))
  {
  }

  lemma RotlXor(a: Word, b: Word, k: nat)
    requires |a| == |b| && k <= |a|
    ensures Rotl(Xor(a, b), k) == Xor(Rotl(a, k), Rotl(b, k))
  {
  }

  lemma RotlSmall(a: Word)
    requires |a| == 64 || |a| == 32
    ensures Rotl(a, 0 % |a|) == a && Rotl(a, 1 % |a|) == Rotl(a, 1)
  {
  }

  /** Rotation counts add up modulo the width. */
  lemma RotlOne(a: Word, k: nat)
    requires |a| == 64 || |a| == 32
    ensures Rotl(Rotl(a, k % |a|), 1) == Rotl(a, (k + 1) % |a|)
  {
    ModSucc(k, |a|);
  }

  lemma RotlOneFirst(a: Word, k: nat)
    requires |a| == 64 || |a| == 32
    ensures Rotl(Rotl(a, 1), k % |a|) == Rotl(a, (k + 1) % |a|)
  {
    ModSucc(k, |a|);
    var r := k % |a|;
    if r + 1 < |a| {
      assert Rotl(a, 1)[r..] == a[r + 1..] + [a[0]];
      assert Rotl(a, 1)[..r] == a[1..r + 1];
    } else {
      assert Rotl(a, 1)[r..] == [a[0]];
    }
  }

  lemma ModSucc(k: nat, m: nat)
    requires m == 64 || m == 32
    ensures (k + 1) % m == if k % m + 1 == m then 0 else k % m + 1
  {
  }
}

/** Byte sequences, the common vocabulary of every other module. */
module Bytes {

  type byte = x: int | 0 <= x < 256

  type bytes = seq<byte>

  datatype Option<+T> = None | Some(value: T)

  function Min(a: int, b: int): (m: int)
    ensures m <= a && m <= b && (m == a || m == b)
  {
    if a < b then a else b
  }

  /** The pieces one after the other: what a reader of the pieces sees. */
  function Concat<T>(pieces: seq<seq<T>>): (s: seq<T>)
  {
    if pieces == [] then [] else pieces[0] + Concat(pieces[1..])
  }

  lemma {:induction false} ConcatAppend<T>(a: seq<seq<T>>, b: seq<seq<T>>)
    ensures Concat(a + b) == Concat(a) + Concat(b)
  {
    if a == [] {
      assert a + b == b;
    } else {
      assert (a + b)[0] == a[0] && (a + b)[1..] == a[1..] + b;
      ConcatAppend(a[1..], b);
    }
  }

  lemma ConcatSnoc<T>(a: seq<seq<T>>, last: seq<T>)
    ensures Concat(a + [last]) == Concat(a) + last
  {
    ConcatAppend(a, [last]);
    assert Concat([last]) == last + Concat<T>([]);
  }

  ghost predicate AllZero(data: bytes) {
    forall k :: 0 <= k < |data| ==> data[k] == 0
  }

  function Zeros(n: nat): (z: bytes)
    ensures |z| == n && AllZero(z)
  {
    seq(n, _ => 0)
  }

  lemma AllZeroIsZeros(data: bytes)
    requires AllZero(data)
    ensures data == Zeros(|data|)
  {
  }

  lemma Regroup<T>(a: seq<T>, b: seq<T>, c: seq<T>)
    ensures a + (b + c) == (a + b) + c
  {
  }

  /** What comes before an outcome, if there is one. */
  function Prepend<T>(a: seq<T>, o: Option<seq<T>>): Option<seq<T>> {
    match o
    case None => None
    case Some(rest) => Some(a + rest)
  }

  lemma PrependLaws<T>(a: seq<T>, b: seq<T>, o: Option<seq<T>>)
    ensures Prepend([], o) == o && Prepend(a, Prepend(b, o)) == Prepend(a + b, o)
  {
    if o.Some? {
      assert [] + o.value == o.value && a + (b + o.value) == (a + b) + o.value;
    }
  }

  // ---------------------------------------------------------------- fixed-width numbers

  function Pow256(k: nat): (p: nat)
    ensures 0 < p
  {
    if k == 0 then 1 else 256 * Pow256(k - 1)
  }

  /** n as `width` bytes, least significant first. */
  function LittleEndian(n: nat, width: nat): (s: bytes)
    ensures |s| == width
  {
    if width == 0 then [] else [n % 256] + LittleEndian(n / 256, width - 1)
  }

  function FromLittleEndian(s: bytes): nat {
    if s == [] then 0 else s[0] + 256 * FromLittleEndian(s[1..])
  }

  lemma {:induction false} LittleEndianBack(n: nat, width: nat)
    requires n < Pow256(width)
    ensures FromLittleEndian(LittleEndian(n, width)) == n
  {
    if width > 0 {
      LittleEndianBack(n / 256, width - 1);
    }
  }
}

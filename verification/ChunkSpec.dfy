/** Where the content-defined chunkers cut, stated on a whole remaining stream and
    without any buffer: the reference that the buffered loops of module Driver refine. */
module ChunkSpec {
  import opened Bytes
  import opened Words

  type Mask = w: Word | |w| == 64 witness Zero(64)

  /** The parameters both cut loops rest on. */
  datatype Config = Config(
    minSize: nat, maxSize: nat, maskS: Mask, maskL: Mask, ncLevel: nat, normalSize: int)
  {
    predicate Valid() {
      0 < minSize && minSize + 1 <= maxSize
    }

    /** Which mask ends a chunk of `len` bytes so far: the strict one below the normal size,
        the loose one from there on. */
    function MaskFor(len: nat): Mask {
      if ncLevel != 0 && len < normalSize then maskS else maskL
    }
  }

  datatype Params = Params(chunkMinExp: int, chunkMaxExp: int, hashMaskBits: int, ncLevel: int, normalSize: int)

  /** The highest, or the lowest, `bits` bits set and no others. */
  function MaskBits(bits: int, high: bool): Mask {
    seq(64, i => if high then i < bits else 64 - bits <= i)
  }


  /** Checks the parameters and derives the masks. */
  function NewConfig(p: Params, high: bool): Option<Config> {
    if p.chunkMinExp < 0 || p.chunkMaxExp < 0 || p.chunkMaxExp > 31 then None
    else if Pow2(p.chunkMinExp) + 1 > Pow2(p.chunkMaxExp) then None
    else if p.ncLevel < 0 || p.hashMaskBits - p.ncLevel < 1 || p.hashMaskBits + p.ncLevel > 48 then None
    else if p.ncLevel == 0 then
      var mask := MaskBits(p.hashMaskBits, high);
      Some(Config(Pow2(p.chunkMinExp), Pow2(p.chunkMaxExp), mask, mask, 0, 0))
    else
      Some(Config(
        Pow2(p.chunkMinExp), Pow2(p.chunkMaxExp),
        MaskBits(p.hashMaskBits + p.ncLevel, high), MaskBits(p.hashMaskBits - p.ncLevel, high), p.ncLevel,
        if p.normalSize != 0 then p.normalSize
        else Pow2(p.hashMaskBits) - Pow2(p.hashMaskBits - p.ncLevel)))
  }

  /** Accepted parameters suit the cut loops, and the strict mask is strict: whatever
      digest would end a chunk at some length would end it at every greater length. */
  lemma NewConfigIsSound(p: Params, high: bool, digest: Word, len: nat, longer: nat)
    requires NewConfig(p, high).Some? && |digest| == 64 && len <= longer
    ensures var cfg := NewConfig(p, high).value;
      cfg.Valid() && (Disjoint(digest, cfg.MaskFor(len)) ==> Disjoint(digest, cfg.MaskFor(longer)))
  {
    var cfg := NewConfig(p, high).value;
    forall i | 0 <= i < 64 && cfg.MaskFor(longer)[i]
      ensures cfg.MaskFor(len)[i]
    {
    }
  }

  /** What it takes to meet a mask: the low bits of the digest are zero, or the high ones. */
  lemma MeetsMask(digest: Word, bits: nat, high: bool)
    requires |digest| == 64 && bits <= 64
    ensures Disjoint(digest, MaskBits(bits, high)) <==>
      if high then Number(digest) < Pow2(64 - bits) else Number(digest) % Pow2(bits) == 0
  {
    var part := if high then digest[..bits] else digest[64 - bits..];
    NumberIsZero(part);
    var mask, from := MaskBits(bits, high), if high then 0 else 64 - bits;
    forall i | 0 <= i < bits
      ensures mask[from + i] && digest[from + i] == part[i]
    {
    }
    assert Disjoint(digest, mask) <==> forall i :: 0 <= i < bits ==> !part[i];
    NumberCut(digest, if high then 64 - bits else bits);
    if high {
      Quotient(Number(digest), Pow2(64 - bits));
    }
  }

  lemma Quotient(n: nat, d: nat)
    requires d > 0
    ensures n / d == 0 <==> n < d
  {
  }

  lemma PowLess(a: nat, b: nat)
    ensures Pow2(a) + 1 <= Pow2(b) <==> a < b
  {
    if a < b {
      PowGrows(a + 1, b);
    } else {
      PowGrows(b, a);
    }
  }

  /** Which parameters are accepted, and what they then mean: powers of two for the sizes,
      and for how many bits of a digest have to be zero to end a chunk of some length. */
  lemma ConfigMeans(p: Params, high: bool, digest: Word, len: nat)
    requires |digest| == 64
    ensures NewConfig(p, high).Some? <==>
      && 0 <= p.chunkMinExp < p.chunkMaxExp <= 31
      && 0 <= p.ncLevel < p.hashMaskBits <= 48 - p.ncLevel
    ensures NewConfig(p, high).Some? ==>
      var cfg, bits := NewConfig(p, high).value, BitsFor(p, len);
      && cfg.minSize == Pow2(p.chunkMinExp) && cfg.maxSize == Pow2(p.chunkMaxExp)
      && (Disjoint(digest, cfg.MaskFor(len)) <==>
        if high then Number(digest) < Pow2(64 - bits) else Number(digest) % Pow2(bits) == 0)
  {
    if p.chunkMinExp >= 0 && p.chunkMaxExp >= 0 {
      PowLess(p.chunkMinExp, p.chunkMaxExp);
    }
    if NewConfig(p, high).Some? {
      MeetsMask(digest, BitsFor(p, len), high);
    }
  }

  /** Below the normal size more bits have to be zero than from there on. Unless it is
      given, the normal size is what the bits make the mean, less the tail the loose phase
      is expected to add. */
  function BitsFor(p: Params, len: nat): int {
    var normalSize := if p.normalSize != 0 then p.normalSize else Pow2(p.hashMaskBits) - Pow2(p.hashMaskBits - p.ncLevel);
    if p.ncLevel == 0 then p.hashMaskBits
    else if len < normalSize then p.hashMaskBits + p.ncLevel
    else p.hashMaskBits - p.ncLevel
  }

  /** What a cut loop is handed by its chunker: how a digest takes in a byte, or how a
      whole window is hashed and rolled by one byte out and one in; and when a digest
      meets a mask. */
  datatype Algo<!D> =
    | WindowLess(hit: (D, Mask) -> bool, restart: D, step: (D, byte) -> D)
    | Windowed(hit: (D, Mask) -> bool, hash: bytes -> D, roll: (D, byte, byte) -> D, window: nat)

  datatype Chunker<!D> = Chunker(cfg: Config, algo: Algo<D>)
  {
    predicate Valid() {
      cfg.Valid() && (algo.Windowed? ==> 0 < algo.window && algo.window + cfg.minSize + 1 <= cfg.maxSize)
    }
  }

  /** The digest of `s` from a given one. */
  function Fold<D>(step: (D, byte) -> D, digest: D, s: bytes): D {
    if s == [] then digest else step(Fold(step, digest, s[..|s| - 1]), s[|s| - 1])
  }

  lemma {:induction false} FoldAppend<D>(step: (D, byte) -> D, digest: D, a: bytes, b: bytes)
    ensures Fold(step, digest, a + b) == Fold(step, Fold(step, digest, a), b)
  {
    if b == [] {
      assert a + b == a;
    } else {
      assert (a + b)[..|a + b| - 1] == a + b[..|b| - 1];
      FoldAppend(step, digest, a, b[..|b| - 1]);
    }
  }

  // ---------------------------------------------------------------- one cut

  /** How many bytes of `rem` a chunk may span at most. */
  function Limit<D>(ch: Chunker<D>, rem: bytes): nat {
    Min(ch.cfg.maxSize, |rem|)
  }

  /** A remainder this short becomes the last chunk without looking for a cut. */
  function Floor<D>(ch: Chunker<D>): nat {
    if ch.algo.WindowLess? then ch.cfg.minSize else ch.cfg.minSize + ch.algo.window
  }

  /** The chunk lengths at which the content alone can end a chunk of `rem`. */
  ghost predicate Candidate<D>(ch: Chunker<D>, rem: bytes, p: nat)
    requires ch.Valid()
  {
    if ch.algo.WindowLess? then ch.cfg.minSize < p <= Limit(ch, rem)
    else ch.cfg.minSize <= p < Limit(ch, rem) - ch.algo.window
  }

  /** Whether the content ends a chunk of `rem` after `p` bytes. A window-less hash cuts
      behind the byte that completes the match; a window starts at the cut. */
  ghost predicate ContentCut<D>(ch: Chunker<D>, rem: bytes, p: nat)
    requires ch.Valid() && Candidate(ch, rem, p)
  {
    match ch.algo
    case WindowLess(hit, restart, step) => hit(Fold(step, restart, rem[ch.cfg.minSize..p]), ch.cfg.MaskFor(p - 1))
    case Windowed(hit, hash, _, window) => hit(hash(rem[p..p + window]), ch.cfg.MaskFor(p))
  }

  /** `p` is where the next chunk of `rem` ends: at the least candidate the content cuts
      at, or at the limit when there is none. */
  ghost predicate IsCut<D>(ch: Chunker<D>, rem: bytes, p: nat)
    requires ch.Valid()
  {
    if |rem| <= Floor(ch) then
      p == |rem|
    else
      && p <= |rem|
      && (forall q: nat :: q < p && Candidate(ch, rem, q) ==> !ContentCut(ch, rem, q))
      && (p == Limit(ch, rem) || (Candidate(ch, rem, p) && ContentCut(ch, rem, p)))
  }

  lemma CutIsUnique<D>(ch: Chunker<D>, rem: bytes, p: nat, q: nat)
    requires ch.Valid() && IsCut(ch, rem, p) && IsCut(ch, rem, q)
    ensures p == q
  {
  }

  lemma {:induction false} CutExists<D>(ch: Chunker<D>, rem: bytes, from: nat) returns (p: nat)
    requires ch.Valid() && Floor(ch) < |rem| && from <= Limit(ch, rem)
    requires forall q: nat :: q < from && Candidate(ch, rem, q) ==> !ContentCut(ch, rem, q)
    ensures IsCut(ch, rem, p)
    decreases Limit(ch, rem) - from
  {
    if from == Limit(ch, rem) || (Candidate(ch, rem, from) && ContentCut(ch, rem, from)) {
      p := from;
    } else {
      p := CutExists(ch, rem, from + 1);
    }
  }

  lemma SomeCut<D>(ch: Chunker<D>, rem: bytes)
    requires ch.Valid()
    ensures exists p: nat :: IsCut(ch, rem, p)
  {
    if |rem| <= Floor(ch) {
      assert IsCut(ch, rem, |rem|);
    } else {
      var p := CutExists(ch, rem, 0);
    }
  }

  ghost function CutPos<D>(ch: Chunker<D>, rem: bytes): (p: nat)
    requires ch.Valid()
    ensures IsCut(ch, rem, p)
  {
    SomeCut(ch, rem);
    var p: nat :| IsCut(ch, rem, p);
    p
  }

  /** Every chunk is within bounds, and only the last one may be shorter than minSize. */
  lemma CutBounds<D>(ch: Chunker<D>, rem: bytes)
    requires ch.Valid() && rem != []
    ensures 0 < CutPos(ch, rem) <= Limit(ch, rem)
    ensures CutPos(ch, rem) < |rem| ==> ch.cfg.minSize <= CutPos(ch, rem)
  {
  }

  // ---------------------------------------------------------------- a whole stream

  ghost function Chunks<D>(ch: Chunker<D>, rem: bytes): (cs: seq<bytes>)
    requires ch.Valid()
    decreases |rem|
  {
    if rem == [] then [] else
      CutBounds(ch, rem);
      [rem[..CutPos(ch, rem)]] + Chunks(ch, rem[CutPos(ch, rem)..])
  }

  lemma {:induction false} ChunksPartition<D>(ch: Chunker<D>, rem: bytes)
    requires ch.Valid()
    ensures Concat(Chunks(ch, rem)) == rem
    ensures forall k :: 0 <= k < |Chunks(ch, rem)| ==> 0 < |Chunks(ch, rem)[k]| <= ch.cfg.maxSize
    ensures forall k :: 0 <= k < |Chunks(ch, rem)| - 1 ==> ch.cfg.minSize <= |Chunks(ch, rem)[k]|
    decreases |rem|
  {
    if rem != [] {
      CutBounds(ch, rem);
      var p := CutPos(ch, rem);
      ChunksPartition(ch, rem[p..]);
      assert rem == rem[..p] + rem[p..];
    }
  }

  /** A cut that is not the end of the data stays where it is when more data arrives. */
  lemma CutIsStable<D>(ch: Chunker<D>, rem: bytes, more: bytes)
    requires ch.Valid() && CutPos(ch, rem) < |rem|
    ensures CutPos(ch, rem + more) == CutPos(ch, rem)
  {
    var p, all := CutPos(ch, rem), rem + more;
    forall q: nat | q <= p && Candidate(ch, rem, q)
      ensures Candidate(ch, all, q) && (ContentCut(ch, all, q) <==> ContentCut(ch, rem, q))
    {
      if ch.algo.WindowLess? {
        assert all[ch.cfg.minSize..q] == rem[ch.cfg.minSize..q];
      } else {
        assert all[q..q + ch.algo.window] == rem[q..q + ch.algo.window];
      }
    }
    assert IsCut(ch, all, p);
    CutIsUnique(ch, all, p, CutPos(ch, all));
  }

  lemma ChunksStep<D>(ch: Chunker<D>, s: bytes, p: nat)
    requires ch.Valid() && s != [] && IsCut(ch, s, p)
    ensures 0 < p <= |s| && Chunks(ch, s) == [s[..p]] + Chunks(ch, s[p..])
  {
    CutIsUnique(ch, s, p, CutPos(ch, s));
    CutBounds(ch, s);
  }

  lemma ChunksStepExtended<D>(ch: Chunker<D>, s: bytes, more: bytes)
    requires ch.Valid() && CutPos(ch, s) < |s|
    ensures var p := CutPos(ch, s); Chunks(ch, s + more) == [s[..p]] + Chunks(ch, s[p..] + more)
  {
    var p := CutPos(ch, s);
    CutIsStable(ch, s, more);
    ChunksStep(ch, s + more, p);
    assert (s + more)[..p] == s[..p] && (s + more)[p..] == s[p..] + more;
  }

  /** Chunking a longer stream starts with all chunks of the shorter one but the last,
      and goes on as if the last had been put back in front of what is new. */
  lemma {:induction false} ChunksExtend<D>(ch: Chunker<D>, s: bytes, more: bytes)
    requires ch.Valid() && |Chunks(ch, s)| > 0
    ensures var cs := Chunks(ch, s);
      Chunks(ch, s + more) == cs[..|cs| - 1] + Chunks(ch, cs[|cs| - 1] + more)
    decreases |s|
  {
    var p := CutPos(ch, s);
    ChunksStep(ch, s, p);
    var head, tail := [s[..p]], Chunks(ch, s[p..]);
    if p == |s| {
      assert s[p..] == [] && s[..p] == s;
      assert Chunks(ch, s) == [s];
    } else {
      ChunksStepExtended(ch, s, more);
      ChunksStep(ch, s[p..], CutPos(ch, s[p..]));
      ChunksExtend(ch, s[p..], more);
      SnocSplit(head, tail, Chunks(ch, tail[|tail| - 1] + more));
    }
  }

  lemma SnocSplit<T>(head: seq<T>, tail: seq<T>, rest: seq<T>)
    requires |tail| > 0
    ensures var all := head + tail;
      all[|all| - 1] == tail[|tail| - 1] && head + (tail[..|tail| - 1] + rest) == all[..|all| - 1] + rest
  {
  }

  lemma ChunksAreMany<D>(ch: Chunker<D>, s: bytes)
    requires ch.Valid() && |s| > ch.cfg.maxSize
    ensures |Chunks(ch, s)| > 1
  {
    CutBounds(ch, s);
    CutBounds(ch, s[CutPos(ch, s)..]);
  }
}

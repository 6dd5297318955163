/** Where the two families of chunkers cut, in numbers and straight from the parameters. */
module Cuts {
  import opened Bytes
  import opened Words
  import opened ChunkSpec
  import opened Buzhash

  /** The least q in [from, to) at which a chunk can end, or `otherwise` if there is none. */
  ghost predicate FirstEnd(ends: nat -> bool, from: int, to: int, otherwise: int, len: nat) {
    && (forall q: nat :: from <= q < to && q < len ==> !ends(q))
    && (len == otherwise || (from <= len < to && ends(len)))
  }

  ghost predicate Decides<D>(ch: Chunker<D>, rem: bytes, ends: nat -> bool)
    requires ch.Valid()
  {
    forall q: nat :: Candidate(ch, rem, q) ==> (ContentCut(ch, rem, q) <==> ends(q))
  }

  lemma CutIsFirstEnd<D>(ch: Chunker<D>, rem: bytes, ends: nat -> bool, len: nat)
    requires ch.Valid() && Decides(ch, rem, ends)
    ensures var min, max := ch.cfg.minSize, Limit(ch, rem);
      IsCut(ch, rem, len) <==>
      if |rem| <= Floor(ch) then len == |rem|
      else if ch.algo.WindowLess? then FirstEnd(ends, min + 1, max, max, len)
      else FirstEnd(ends, min, max - ch.algo.window, max, len)
  {
  }

  /** How many bytes a chunk spans at least, and at most. */
  function MinSize(p: Params): nat {
    Pow2(p.chunkMinExp)
  }

  function MaxSize(p: Params, rem: bytes): nat {
    if Pow2(p.chunkMaxExp) < |rem| then Pow2(p.chunkMaxExp) else |rem|
  }

  /** The bits of a digest that have to be zero for a chunk of some length. */
  predicate Zeroed(p: Params, high: bool, digest: nat, len: nat) {
    if high then digest < Pow2(64 - BitsFor(p, len)) else digest % Pow2(BitsFor(p, len)) == 0
  }

  ghost predicate Means(p: Params, high: bool, cfg: Config) {
    && cfg.Valid() && cfg.minSize == Pow2(p.chunkMinExp) && cfg.maxSize == Pow2(p.chunkMaxExp)
    && forall digest: Mask, len: nat :: Disjoint(digest, cfg.MaskFor(len)) <==> Zeroed(p, high, Number(digest), len)
  }

  lemma ConfigIs(p: Params, high: bool)
    requires NewConfig(p, high).Some?
    ensures Means(p, high, NewConfig(p, high).value)
  {
    var cfg := NewConfig(p, high).value;
    NewConfigIsSound(p, high, Zero(64), 0, 0);
    ConfigMeans(p, high, Zero(64), 0);
    forall digest: Mask, len: nat
      ensures Disjoint(digest, cfg.MaskFor(len)) <==> Zeroed(p, high, Number(digest), len)
    {
      ConfigMeans(p, high, digest, len);
    }
  }

  // ---------------------------------------------------------------- Gear

  /** The table entries of the bytes, each doubled once for every byte behind it, added up
      modulo 2^64. */
  function GearNumber(gear: GearTable, s: bytes): nat {
    if s == [] then 0
    else (2 * GearNumber(gear, s[..|s| - 1]) + Number(gear[s[|s| - 1]])) % Pow2(64)
  }

  lemma {:induction false} GearNumberIs(gear: GearTable, s: bytes)
    ensures var algo := FastCdc(gear); Number(Fold(algo.step, algo.restart, s)) == GearNumber(gear, s)
  {
    if s == [] {
      NumberIsZero(Zero(64));
    } else {
      var algo := FastCdc(gear);
      GearNumberIs(gear, s[..|s| - 1]);
      GearStepIs(gear, Fold(algo.step, algo.restart, s[..|s| - 1]), s[|s| - 1]);
    }
  }

  /** A chunk can end behind q bytes if the topmost bits of the digest of those from the
      minimum size on are zero, more of them while it is short. */
  predicate GearEnds(p: Params, gear: GearTable, rem: bytes, q: nat) {
    MinSize(p) < q <= |rem| && Zeroed(p, true, GearNumber(gear, rem[MinSize(p)..q]), q - 1)
  }

  lemma GearDecides(p: Params, gear: GearTable, rem: bytes, cfg: Config)
    requires Means(p, true, cfg)
    ensures Decides(Chunker(cfg, FastCdc(gear)), rem, (q: nat) => GearEnds(p, gear, rem, q))
  {
    var ch := Chunker(cfg, FastCdc(gear));
    forall q: nat | Candidate(ch, rem, q)
      ensures ContentCut(ch, rem, q) <==> GearEnds(p, gear, rem, q)
    {
      GearNumberIs(gear, rem[cfg.minSize..q]);
    }
  }

  lemma GearCutIs(p: Params, gear: GearTable, rem: bytes, len: nat)
    requires NewConfig(p, true).Some?
    ensures var ch, min, max := Chunker(NewConfig(p, true).value, FastCdc(gear)), MinSize(p), MaxSize(p, rem);
      ch.Valid() && (IsCut(ch, rem, len) <==>
        if |rem| <= min then len == |rem| else FirstEnd((q: nat) => GearEnds(p, gear, rem, q), min + 1, max, max, len))
  {
    var cfg := NewConfig(p, true).value;
    ConfigIs(p, true);
    GearDecides(p, gear, rem, cfg);
    CutIsFirstEnd(Chunker(cfg, FastCdc(gear)), rem, (q: nat) => GearEnds(p, gear, rem, q), len);
  }

  // ---------------------------------------------------------------- Buzhash

  /** A chunk can end behind q bytes if the lowest bits of the hash of the window there are
      zero. A whole window has to be left, and one byte behind it. */
  predicate BuzEnds(p: Params, t: Table, window: nat, rem: bytes, q: nat) {
    q + window <= |rem| && Zeroed(p, false, Number(BuzHash(t, rem[q..q + window])), q)
  }

  lemma SumMeets(p: Params, cfg: Config, sum: Word, len: nat)
    requires Means(p, false, cfg) && |sum| <= 64
    ensures SumHit(sum, cfg.MaskFor(len)) <==> Zeroed(p, false, Number(sum), len)
  {
    LowAndExtended(sum, 64);
  }

  lemma BuzDecidesAt(p: Params, t: Table, window: nat, rem: bytes, ch: Chunker<Word>, q: nat)
    requires Means(p, false, ch.cfg) && ch.algo == Buz(t, window) && ch.Valid() && Candidate(ch, rem, q)
    ensures ContentCut(ch, rem, q) <==> BuzEnds(p, t, window, rem, q)
  {
    var sum := BuzHash(t, rem[q..q + window]);
    assert ch.algo.hit(ch.algo.hash(rem[q..q + window]), ch.cfg.MaskFor(q)) == SumHit(sum, ch.cfg.MaskFor(q));
    SumMeets(p, ch.cfg, sum, q);
  }

  lemma BuzDecides(p: Params, t: Table, window: nat, rem: bytes, ch: Chunker<Word>)
    requires Means(p, false, ch.cfg) && ch.algo == Buz(t, window) && ch.Valid()
    ensures Decides(ch, rem, (q: nat) => BuzEnds(p, t, window, rem, q))
  {
    forall q: nat | Candidate(ch, rem, q)
      ensures ContentCut(ch, rem, q) <==> BuzEnds(p, t, window, rem, q)
    {
      BuzDecidesAt(p, t, window, rem, ch, q);
    }
  }

  lemma BuzCutIs(p: Params, t: Table, window: nat, rem: bytes, len: nat)
    requires NewConfig(p, false).Some? && 0 < window && window + Pow2(p.chunkMinExp) + 1 <= Pow2(p.chunkMaxExp)
    ensures var ch, min, max := Chunker(NewConfig(p, false).value, Buz(t, window)), MinSize(p), MaxSize(p, rem);
      ch.Valid() && (IsCut(ch, rem, len) <==>
        if |rem| <= min + window then len == |rem|
        else FirstEnd((q: nat) => BuzEnds(p, t, window, rem, q), min, max - window, max, len))
  {
    var cfg := NewConfig(p, false).value;
    ConfigIs(p, false);
    var ch := Chunker(cfg, Buz(t, window));
    BuzDecides(p, t, window, rem, ch);
    CutIsFirstEnd(ch, rem, (q: nat) => BuzEnds(p, t, window, rem, q), len);
  }
}

/** The buffered cut loops: one buffer of exactly maxSize bytes, two indices through it,
    lazy compaction and block-wise refills. Every method is stated on `Rem()`, the bytes
    of the stream not yet emitted, so no contract mentions how the reader cut its data
    into blocks. */
module Driver {
  import opened Bytes
  import opened ChunkSpec
  import opened Readers

  const READER_BLOCK_SIZE: nat := 1024 * 1024

  class Driver {
    const cfg: Config
    var r: Reader
    // Exactly maxSize bytes: a full buffer without a cut in it forces one.
    const backing: array<byte>
    var n: nat        // valid bytes in backing
    var pos: nat      // scan position within backing
    var pending: nat  // bytes of the previous chunk, not yet compacted away
    var eof: bool
    var done: bool
    var bytesRead: nat
    var bytesYielded: nat

    ghost predicate Valid()
      reads this, r
    {
      && backing.Length == cfg.maxSize
      && 0 < cfg.maxSize
      && pending <= n <= backing.Length
      && r.Valid() && (eof ==> r.rest == [] && r.ends)
      && (done ==> eof && pending == n)
      && bytesRead == bytesYielded + (n - pending)
    }

    /** The bytes of the stream not yet emitted. */
    ghost function Rem(): bytes
      requires Valid()
      reads this, r, backing
    {
      backing[pending..n] + r.rest
    }

    /** What is buffered is the front of what remains. */
    lemma Buffered(i: nat, j: nat)
      requires Valid() && pending == 0 && i <= j <= n
      ensures n <= |Rem()| && backing[i..j] == Rem()[i..j]
    {
    }

    constructor (cfg: Config, r: Reader)
      requires 0 < cfg.maxSize && r.Valid()
      ensures Valid() && Rem() == r.rest && !done && !eof
      ensures this.cfg == cfg && this.r == r && fresh(backing)
    {
      this.cfg := cfg;
      this.backing := new byte[cfg.maxSize](_ => 0);
      this.r := r;
      n, pos, pending := 0, 0, 0;
      eof, done := false, false;
      bytesRead, bytesYielded := 0, 0;
    }

    /** Starts on another stream. What the last one left in the buffer stays there: nothing
        below depends on it. */
    method Reset(r: Reader)
      requires backing.Length == cfg.maxSize && 0 < cfg.maxSize && r.Valid()
      modifies this
      ensures Valid() && Rem() == r.rest && !done && !eof && this.r == r
    {
      this.r := r;
      n, pos, pending := 0, 0, 0;
      eof, done := false, false;
      bytesRead, bytesYielded := 0, 0;
    }

    /** Moves what has not been handed out to the start of the buffer. */
    method Compact()
      requires Valid()
      modifies this`n, this`pending, backing
      ensures Valid() && pending == 0 && Rem() == old(Rem())
      ensures old(pending) == old(n) ==> n == 0
    {
      if pending == 0 {
        return;
      }
      ghost var live := backing[pending..n];
      forall k | 0 <= k < n - pending {
        backing[k] := backing[k + pending];
      }
      assert backing[..n - pending] == live;
      n := n - pending;
      pending := 0;
    }

    /** The first `at` bytes are a chunk; the next compaction takes them away. */
    method Emit(at: nat) returns (data: bytes)
      requires Valid() && pending == 0 && at <= n && !done
      modifies this`pending, this`bytesYielded
      ensures Valid()
      ensures data == backing[..pending] && |data| == at
      ensures old(Rem()) == data + Rem()
      ensures pending == at
    {
      pending := at;
      bytesYielded := bytesYielded + at;
      data := backing[..at];
      assert backing[..n] == backing[..at] + backing[at..n];
    }

    /** One block joins what is buffered. */
    method ReadBlock(want: nat) returns (got: nat, ok: bool)
      requires Valid() && pending == 0 && !eof && 0 < want <= backing.Length - n
      modifies this`n, this`bytesRead, r, backing
      ensures Valid() && Rem() == old(Rem()) && n == old(n) + got
      ensures backing[..old(n)] == old(backing[..n])
      ensures ok && got == 0 ==> r.rest == [] && r.ends
      ensures r.failed == (old(r.failed) || !ok)
    {
      ghost var had := backing[..n];
      var err;
      got, err := r.ReadFull(backing, n, want);
      assert backing[..n + got] == had + backing[n..n + got];
      n := n + got;
      bytesRead := bytesRead + got;
      ok := err != Failed;
    }

    /** Reads one block, never letting the buffer exceed maxSize. End of file is noted
        only on a read that returned nothing, never on a short one. */
    method Fill() returns (ok: bool)
      requires Valid() && pending == 0 && !done
      modifies this`n, this`eof, this`bytesRead, r, backing
      ensures Valid() && pending == 0 && Rem() == old(Rem())
      ensures old(n) <= n && backing[..old(n)] == old(backing[..n])
      ensures (old(eof) ==> eof && ok) && (!ok ==> !eof)
      ensures r.failed == (old(r.failed) || !ok)
      ensures ok && !old(eof) && old(n) < backing.Length ==> old(n) < n || eof
      ensures !old(eof) && eof ==> n == old(n)
    {
      ok := true;
      if eof {
        return;
      }
      var space := backing.Length - n;
      if space <= 0 {
        return;
      }
      var want := READER_BLOCK_SIZE;
      if want > space {
        want := space;
      }
      var got;
      got, ok := ReadBlock(want);
      if ok && got == 0 {
        eof := true;
      }
    }

    /** One refill on behalf of a scan that has used up what is buffered. Without progress
        the buffer is full or the stream has ended: the chunk can grow no further. */
    method Refill() returns (ok: bool, grew: bool)
      requires Valid() && pending == 0 && !done
      modifies this`n, this`eof, this`bytesRead, r, backing
      ensures Valid() && pending == 0 && Rem() == old(Rem())
      ensures old(n) <= n && n <= Min(cfg.maxSize, |Rem()|)
      ensures !ok ==> !eof
      ensures r.failed == (old(r.failed) || !ok)
      ensures ok && grew ==> old(n) < n && !eof
      ensures ok && !grew ==> n == old(n) == Min(cfg.maxSize, |Rem()|)
    {
      var before := n;
      ok := Fill();
      grew := n != before;
    }

    /** What is buffered of a stream that has ended is its last chunk, if it is anything. */
    method Last() returns (res: Next)
      requires Valid() && pending == 0 && eof && !done
      modifies this`pending, this`done, this`bytesYielded
      ensures Valid() && done && Rem() == []
      ensures if old(Rem()) == [] then res == EndOfStream else res == Cut(old(Rem()))
      ensures res.Cut? ==> res.data == backing[..pending]
    {
      assert Rem() == backing[..n];
      if n == 0 {
        done := true;
        if bytesRead != bytesYielded {
          return CountMismatch;
        }
        return EndOfStream;
      }
      var data := Emit(n);
      done := true;
      res := Cut(data);
    }

    /** Fills until `need` bytes are buffered or the stream is exhausted. */
    method Buffer(need: nat) returns (ok: bool)
      requires Valid() && pending == 0 && !done && need <= cfg.maxSize
      modifies this`n, this`eof, this`bytesRead, r, backing
      ensures Valid() && pending == 0 && Rem() == old(Rem())
      ensures if ok then need <= n || eof else !eof
      ensures r.failed == (old(r.failed) || !ok)
      ensures ok && need <= n && !old(eof) ==> !eof
    {
      ok := true;
      while n < need && !eof
        invariant Valid() && pending == 0 && !done && Rem() == old(Rem())
        invariant (!old(eof) && eof ==> n < need) && r.failed == old(r.failed)
        decreases need - n, !eof
      {
        ok := Fill();
        if !ok {
          return;
        }
      }
    }
  }

  datatype Next = Cut(data: bytes) | EndOfStream | ReadError | CountMismatch

  /** What one call of Next promises: the chunk the buffer-free specification names, and
      after a failed read nothing lost, so the call can be repeated. */
  ghost predicate Answers<D>(ch: Chunker<D>, before: bytes, res: Next, after: bytes)
    requires ch.Valid()
  {
    match res
    case Cut(data) =>
      before != [] && data == before[..CutPos(ch, before)] && after == before[CutPos(ch, before)..]
    case EndOfStream => before == [] && after == []
    case ReadError => after == before
    case CountMismatch => false
  }

  lemma DrainStep<D>(ch: Chunker<D>, all: seq<bytes>, chunks: seq<bytes>, before: bytes, data: bytes, after: bytes)
    requires ch.Valid() && all == chunks + Chunks(ch, before)
    requires Answers(ch, before, Cut(data), after)
    ensures all == (chunks + [data]) + Chunks(ch, after) && |after| < |before|
  {
    CutBounds(ch, before);
    ChunksStep(ch, before, CutPos(ch, before));
  }

  /** No candidate up to and including `upTo` is a cut. */
  ghost predicate Uncut<D>(ch: Chunker<D>, rem: bytes, upTo: int)
    requires ch.Valid()
  {
    forall q: nat :: q <= upTo && Candidate(ch, rem, q) ==> !ContentCut(ch, rem, q)
  }

  lemma AnswersCut<D>(ch: Chunker<D>, rem: bytes, p: nat, data: bytes, after: bytes)
    requires ch.Valid() && 0 < |rem| && IsCut(ch, rem, p)
    requires rem == data + after && |data| == p
    ensures Answers(ch, rem, Cut(data), after)
  {
    CutIsUnique(ch, rem, p, CutPos(ch, rem));
    assert data == rem[..p] && after == rem[p..];
  }

  /** The digest k bytes into a stretch is that of the chunk so far, and decides about a cut there. */
  ghost predicate StretchFolds<D>(ch: Chunker<D>, rem: bytes, pos: nat, p: bytes, digest: D, mask: Mask, k: nat)
    requires ch.Valid() && ch.algo.WindowLess? && ch.cfg.minSize <= pos && k <= |p| && pos + k <= |rem|
  {
    && Fold(ch.algo.step, digest, p[..k]) == Fold(ch.algo.step, ch.algo.restart, rem[ch.cfg.minSize..pos + k])
    && Candidate(ch, rem, pos + k)
    && (ContentCut(ch, rem, pos + k) <==> ch.algo.hit(Fold(ch.algo.step, digest, p[..k]), mask))
  }

  lemma StretchDigest<D>(ch: Chunker<D>, rem: bytes, pos: nat, p: bytes, digest: D, mask: Mask, k: nat)
    requires ch.Valid() && ch.algo.WindowLess? && 0 < k <= |p|
    requires ch.cfg.minSize <= pos && pos + |p| <= Limit(ch, rem) && p == rem[pos..pos + |p|]
    requires mask == ch.cfg.MaskFor(pos) && digest == Fold(ch.algo.step, ch.algo.restart, rem[ch.cfg.minSize..pos])
    requires ch.cfg.ncLevel != 0 && pos < ch.cfg.normalSize ==> pos + |p| <= ch.cfg.normalSize
    ensures StretchFolds(ch, rem, pos, p, digest, mask, k)
  {
    Longer(rem, ch.cfg.minSize, pos, |p|, k);
    FoldAppend(ch.algo.step, ch.algo.restart, rem[ch.cfg.minSize..pos], p[..k]);
  }

  lemma Longer<T>(s: seq<T>, from: nat, mid: nat, len: nat, k: nat)
    requires from <= mid && k <= len && mid + len <= |s|
    ensures s[from..mid] + s[mid..mid + len][..k] == s[from..mid + k]
  {
  }

  lemma SliceOfSlice<T>(s: seq<T>, from: nat, len: nat, i: nat, j: nat)
    requires i <= j <= len && from + len <= |s|
    ensures s[from..from + len][i..j] == s[from + i..from + j]
  {
    var a, b := s[from..from + len][i..j], s[from + i..from + j];
    assert |a| == |b| && forall k :: 0 <= k < |a| ==> a[k] == b[k];
  }

  lemma CutAtLimit<D>(ch: Chunker<D>, rem: bytes)
    requires ch.Valid() && Floor(ch) < |rem| && Uncut(ch, rem, Limit(ch, rem))
    ensures IsCut(ch, rem, Limit(ch, rem))
  {
  }

  // ---------------------------------------------------------------- window-less

  class WindowLessChunker<D(==)> {
    const algo: Algo<D>
    const d: Driver

    ghost predicate Valid()
      reads this, d, d.r
    {
      algo.WindowLess? && d.Valid() && d.cfg.Valid()
    }

    ghost function Spec(): (ch: Chunker<D>) {
      Chunker.Chunker(d.cfg, algo)
    }

    constructor (cfg: Config, algo: Algo<D>, r: Reader)
      requires cfg.Valid() && algo.WindowLess? && r.Valid()
      ensures Valid() && fresh(d) && fresh(d.backing) && d.r == r && d.Rem() == r.rest
      ensures Spec() == Chunker.Chunker(cfg, algo)
    {
      this.algo := algo;
      this.d := new Driver(cfg, r);
    }

    /** The tables stay; what is left of the previous stream does not show. */
    method Reset(r: Reader)
      requires algo.WindowLess? && d.cfg.Valid() && d.backing.Length == d.cfg.maxSize && r.Valid()
      modifies d
      ensures Valid() && d.r == r && d.Rem() == r.rest
    {
      d.Reset(r);
    }

    /** Looks for a cut in p; returns the index of the byte that completes the match. */
    method Scan(p: bytes, digest: D, mask: Mask) returns (found: int, fp: D)
      requires algo.WindowLess?
      ensures -1 <= found < |p|
      ensures found < 0 ==> fp == Fold(algo.step, digest, p)
      ensures forall k :: 0 < k <= (if found < 0 then |p| else found) ==> !algo.hit(Fold(algo.step, digest, p[..k]), mask)
      ensures 0 <= found ==> algo.hit(Fold(algo.step, digest, p[..found + 1]), mask)
    {
      fp := digest;
      for i := 0 to |p|
        invariant fp == Fold(algo.step, digest, p[..i])
        invariant forall k :: 0 < k <= i ==> !algo.hit(Fold(algo.step, digest, p[..k]), mask)
      {
        assert p[..i + 1][..i] == p[..i];
        fp := algo.step(fp, p[i]);
        if algo.hit(fp, mask) {
          return i, fp;
        }
      }
      assert p[..|p|] == p;
      found := -1;
    }

    /** One scan of what is buffered, up to the strict-to-loose transition at most. */
    method ScanBuffered(digest: D, ghost rem: bytes) returns (found: bool, fp: D)
      requires Valid() && d.pending == 0 && d.Rem() == rem
      requires d.cfg.minSize <= d.pos < d.n
      requires digest == Fold(algo.step, algo.restart, rem[d.cfg.minSize..d.pos]) && Uncut(Spec(), rem, d.pos)
      modifies d`pos
      ensures Valid() && d.Rem() == rem && old(d.pos) < d.pos <= d.n
      ensures found ==> IsCut(Spec(), rem, d.pos)
      ensures !found ==> Uncut(Spec(), rem, d.pos) && fp == Fold(algo.step, algo.restart, rem[d.cfg.minSize..d.pos])
    {
      var cfg := d.cfg;
      var mask := cfg.MaskFor(d.pos);
      var stop := d.n;
      if cfg.ncLevel != 0 && d.pos < cfg.normalSize {
        if cfg.normalSize < stop {
          stop := cfg.normalSize;
        }
      }
      d.Buffered(d.pos, stop);
      var at;
      at, fp := ScanStretch(d.backing[d.pos..stop], digest, mask, rem, d.pos);
      found := at >= 0;
      d.pos := if found then d.pos + at + 1 else stop;
    }

    /** Scan, stated on the remaining stream the stretch was taken from. */
    method ScanStretch(p: bytes, digest: D, mask: Mask, ghost rem: bytes, ghost pos: nat)
      returns (found: int, fp: D)
      requires algo.WindowLess? && d.cfg.Valid()
      requires d.cfg.minSize <= pos < pos + |p| <= Limit(Spec(), rem) && p == rem[pos..pos + |p|]
      requires mask == d.cfg.MaskFor(pos)
      requires digest == Fold(algo.step, algo.restart, rem[d.cfg.minSize..pos]) && Uncut(Spec(), rem, pos)
      requires d.cfg.ncLevel != 0 && pos < d.cfg.normalSize ==> pos + |p| <= d.cfg.normalSize
      ensures -1 <= found < |p|
      ensures found < 0 ==> Uncut(Spec(), rem, pos + |p|)
      ensures found < 0 ==> fp == Fold(algo.step, algo.restart, rem[d.cfg.minSize..pos + |p|])
      ensures 0 <= found ==> IsCut(Spec(), rem, pos + found + 1)
    {
      found, fp := Scan(p, digest, mask);
      forall k | 0 < k <= |p|
        ensures StretchFolds(Spec(), rem, pos, p, digest, mask, k)
      {
        StretchDigest(Spec(), rem, pos, p, digest, mask, k);
      }
      assert p[..|p|] == p;
      ghost var last := if found < 0 then |p| else found;
      assert StretchFolds(Spec(), rem, pos, p, digest, mask, if found < 0 then |p| else found + 1);
      forall q: nat | pos < q <= pos + last && Candidate(Spec(), rem, q)
        ensures !ContentCut(Spec(), rem, q)
      {
        var k := q - pos;
        assert StretchFolds(Spec(), rem, pos, p, digest, mask, k);
      }
    }

    method Next() returns (res: Next)
      requires Valid()
      modifies d, d.r, d.backing
      ensures Valid() && d.r == old(d.r) && (res.EndOfStream? ==> d.r.ends)
      ensures Answers(Spec(), old(d.Rem()), res, d.Rem())
      ensures d.r.failed == (old(d.r.failed) || res.ReadError?)
      ensures res.Cut? ==> res.data == d.backing[..d.pending]
    {
      var cfg := d.cfg;
      ghost var ch, rem := Spec(), d.Rem();
      d.Compact();

      if d.done {
        if d.bytesRead != d.bytesYielded {
          return CountMismatch;
        }
        return EndOfStream;
      }
      var ok := d.Buffer(cfg.minSize + 1);
      if !ok {
        return ReadError;
      }
      if d.eof && d.n < cfg.minSize + 1 {
        res := d.Last();
        if rem != [] {
          AnswersCut(ch, rem, |rem|, rem, []);
        }
        return;
      }

      res := NextCut(rem);
    }

    /** A chunk that ends before the end of the stream is known, or at a failed read. */
    method NextCut(ghost rem: bytes) returns (res: Next)
      requires Valid() && d.pending == 0 && !d.done && d.Rem() == rem && d.cfg.minSize < d.n
      modifies d, d.r, d.backing
      ensures Valid() && d.r == old(d.r) && !res.EndOfStream?
      ensures Answers(Spec(), rem, res, d.Rem())
      ensures d.r.failed == (old(d.r.failed) || res.ReadError?)
      ensures res.Cut? ==> res.data == d.backing[..d.pending]
    {
      var ok := Seek(rem);
      if !ok {
        return ReadError;
      }
      var data := d.Emit(d.pos);
      AnswersCut(Spec(), rem, d.pos, data, d.Rem());
      return Cut(data);
    }

    /** Next until the stream ends: all the chunks of the stream, or those cut before a
        read failed. */
    method Drain() returns (chunks: seq<bytes>, ok: bool)
      requires Valid()
      modifies d, d.r, d.backing
      ensures Valid() && d.r == old(d.r) && (ok ==> d.r.ends)
      ensures Chunks(Spec(), old(d.Rem())) == chunks + Chunks(Spec(), d.Rem())
      ensures d.r.failed == (old(d.r.failed) || !ok)
      ensures ok ==> chunks == Chunks(Spec(), old(d.Rem())) && d.Rem() == []
    {
      ghost var all := Chunks(Spec(), d.Rem());
      chunks := [];
      while true
        invariant Valid() && d.r == old(d.r) && d.r.failed == old(d.r.failed)
        invariant all == chunks + Chunks(Spec(), d.Rem())
        decreases |d.Rem()|
      {
        ghost var before := d.Rem();
        var res := Next();
        match res {
          case Cut(data) =>
            DrainStep(Spec(), all, chunks, before, data, d.Rem());
            chunks := chunks + [data];
          case EndOfStream => return chunks, true;
          case ReadError => return chunks, false;
          case CountMismatch => assert false;
        }
      }
    }

    /** The scan itself: moves d.pos to where the chunk ends. */
    method Seek(ghost rem: bytes) returns (ok: bool)
      requires Valid() && d.pending == 0 && !d.done && d.Rem() == rem && d.cfg.minSize < d.n
      modifies d`pos, d`n, d`eof, d`bytesRead, d.r, d.backing
      ensures Valid() && d.pending == 0 && d.Rem() == rem && d.r.failed == (old(d.r.failed) || !ok)
      ensures ok ==> d.pos <= d.n && IsCut(Spec(), rem, d.pos)
    {
      var cfg := d.cfg;
      ghost var ch := Spec();
      ok := true;
      d.pos := cfg.minSize;
      var digest := algo.restart;
      assert rem[cfg.minSize..cfg.minSize] == [];
      while true
        invariant Valid() && d.pending == 0 && !d.done && d.Rem() == rem && d.r.failed == old(d.r.failed)
        invariant cfg.minSize <= d.pos <= d.n && cfg.minSize < |rem|
        invariant digest == Fold(algo.step, algo.restart, rem[cfg.minSize..d.pos])
        invariant Uncut(ch, rem, d.pos)
        decreases cfg.maxSize - d.pos, cfg.maxSize - d.n, !d.eof
      {
        if d.pos >= d.n {
          if d.eof {
            break;
          }
          var grew;
          ok, grew := d.Refill();
          if !ok {
            return;
          }
          if !grew {
            break;
          }
          continue;
        }
        var found: bool;
        found, digest := ScanBuffered(digest, rem);
        if found {
          return;
        }
      }
      CutAtLimit(ch, rem);
      ok := true;
    }
  }

  // ---------------------------------------------------------------- windowed

  /** Rolling a window forward by one byte gives the hash of the window now under it. */
  ghost predicate Rolls<D(!new)>(algo: Algo<D>)
    requires algo.Windowed?
  {
    forall w: bytes, b: byte :: |w| == algo.window && 0 < algo.window ==>
      algo.roll(algo.hash(w), w[0], b) == algo.hash(w[1..] + [b])
  }

  /** Where the windowed loop stops: at a match, or with the whole buffer when fewer bytes
      than a window are left behind the scan position and no more can be read. */
  lemma WindowedEnd<D>(ch: Chunker<D>, rem: bytes, pos: nat, n: nat)
    requires ch.Valid() && ch.algo.Windowed? && Floor(ch) < |rem|
    requires ch.cfg.minSize <= pos && pos + ch.algo.window <= n <= Limit(ch, rem)
    requires Uncut(ch, rem, pos - 1)
    requires if n - pos <= ch.algo.window then n == Limit(ch, rem)
      else ch.algo.hit(ch.algo.hash(rem[pos..pos + ch.algo.window]), ch.cfg.MaskFor(pos))
    ensures IsCut(ch, rem, if n - pos <= ch.algo.window then n else pos)
  {
    if n - pos <= ch.algo.window {
      assert Uncut(ch, rem, n);
    } else {
      assert Candidate(ch, rem, pos) && ContentCut(ch, rem, pos);
    }
  }

  class WindowedChunker<D(==,!new)> {
    const algo: Algo<D>
    const d: Driver

    ghost predicate Live()
      reads this, d, d.r
    {
      algo.Windowed? && Spec().Valid() && d.Valid() && Rolls(algo)
    }

    /** Between calls, the end of the stream has been seen only when nothing is left:
        that is why the loop may emit all it holds as soon as it sees it. */
    ghost predicate Valid()
      reads this, d, d.r
    {
      Live() && (d.eof ==> d.pending == d.n)
    }

    ghost function Spec(): (ch: Chunker<D>) {
      Chunker.Chunker(d.cfg, algo)
    }

    constructor (cfg: Config, algo: Algo<D>, r: Reader)
      requires algo.Windowed? && Chunker.Chunker(cfg, algo).Valid() && Rolls(algo) && r.Valid()
      ensures Valid() && fresh(d) && fresh(d.backing) && d.r == r && d.Rem() == r.rest
      ensures Spec() == Chunker.Chunker(cfg, algo)
    {
      this.algo := algo;
      this.d := new Driver(cfg, r);
    }

    method Reset(r: Reader)
      requires algo.Windowed? && Spec().Valid() && Rolls(algo) && d.backing.Length == d.cfg.maxSize && r.Valid()
      modifies d
      ensures Valid() && d.r == r && d.Rem() == r.rest
    {
      d.Reset(r);
    }

    /** The window rolled over p until its digest meets the mask or n positions are done. */
    method Scan(p: bytes, n: nat, sum: D, mask: Mask) returns (did: nat, s: D)
      requires algo.Windowed? && 0 < algo.window && Rolls(algo)
      requires n + algo.window <= |p| && sum == algo.hash(p[..algo.window])
      ensures did <= n && s == algo.hash(p[did..did + algo.window])
      ensures forall k :: 0 <= k < did ==> Misses(p, k, mask)
      ensures did < n ==> algo.hit(s, mask)
    {
      var w := algo.window;
      s, did := sum, 0;
      assert p[0..w] == p[..w];
      while did < n && !algo.hit(s, mask)
        invariant did <= n && s == algo.hash(p[did..did + w])
        invariant forall k :: 0 <= k < did ==> Misses(p, k, mask)
      {
        assert p[did..did + w][1..] + [p[did + w]] == p[did + 1..did + 1 + w];
        s := algo.roll(s, p[did], p[did + w]);
        did := did + 1;
      }
    }

    /** The window at position k of p does not meet the mask. */
    ghost predicate Misses(p: bytes, k: nat, mask: Mask)
      requires algo.Windowed? && k + algo.window <= |p|
    {
      !algo.hit(algo.hash(p[k..k + algo.window]), mask)
    }

    /** Scan, stated on the remaining stream the stretch was taken from. */
    method ScanStretch(p: bytes, n: nat, sum: D, mask: Mask, ghost rem: bytes, ghost pos: nat)
      returns (did: nat, s: D)
      requires Spec().Valid() && algo.Windowed? && Rolls(algo) && n + algo.window <= |p|
      requires d.cfg.minSize <= pos && pos + |p| <= Limit(Spec(), rem) && p == rem[pos..pos + |p|]
      requires sum == algo.hash(p[..algo.window]) && mask == d.cfg.MaskFor(pos)
      requires d.cfg.ncLevel != 0 && pos < d.cfg.normalSize ==> pos + n <= d.cfg.normalSize
      requires Uncut(Spec(), rem, pos - 1)
      ensures did <= n && s == algo.hash(rem[pos + did..pos + did + algo.window])
      ensures Uncut(Spec(), rem, pos + did - 1)
      ensures 0 < n && !algo.hit(sum, mask) ==> 0 < did
    {
      did, s := Scan(p, n, sum, mask);
      SliceOfSlice(rem, pos, |p|, did, did + algo.window);
      assert p[0..algo.window] == p[..algo.window];
      forall q: nat | pos <= q < pos + did && Candidate(Spec(), rem, q)
        ensures !ContentCut(Spec(), rem, q)
      {
        var k := q - pos;
        assert Misses(p, k, mask);
        SliceOfSlice(rem, pos, |p|, k, k + algo.window);
      }
    }

    /** One scan of what is buffered, up to the strict-to-loose transition at most. */
    method ScanBuffered(sum: D, mask: Mask, ghost rem: bytes) returns (s: D)
      requires Live() && d.pending == 0 && d.Rem() == rem && d.cfg.minSize <= d.pos && d.pos + algo.window < d.n
      requires sum == algo.hash(rem[d.pos..d.pos + algo.window]) && mask == d.cfg.MaskFor(d.pos)
      requires !algo.hit(sum, mask) && Uncut(Spec(), rem, d.pos - 1)
      modifies d`pos
      ensures Live() && d.Rem() == rem && old(d.pos) < d.pos && d.pos + algo.window <= d.n
      ensures s == algo.hash(rem[d.pos..d.pos + algo.window]) && Uncut(Spec(), rem, d.pos - 1)
    {
      var stop := d.n - algo.window;
      if d.cfg.ncLevel != 0 && d.pos < d.cfg.normalSize && d.cfg.normalSize < stop {
        stop := d.cfg.normalSize;
      }
      d.Buffered(d.pos, d.n);
      SliceOfSlice(rem, d.pos, d.n - d.pos, 0, algo.window);
      var did;
      did, s := ScanStretch(d.backing[d.pos..d.n], stop - d.pos, sum, mask, rem, d.pos);
      d.pos := d.pos + did;
    }

    method Next() returns (res: Next)
      requires Valid()
      modifies d, d.r, d.backing
      ensures Valid() && d.r == old(d.r) && (res.EndOfStream? ==> d.r.ends)
      ensures Answers(Spec(), old(d.Rem()), res, d.Rem())
      ensures d.r.failed == (old(d.r.failed) || res.ReadError?)
      ensures res.Cut? ==> res.data == d.backing[..d.pending]
    {
      var cfg := d.cfg;
      ghost var ch, rem := Spec(), d.Rem();
      d.Compact();

      if d.done {
        if d.bytesRead != d.bytesYielded {
          return CountMismatch;
        }
        return EndOfStream;
      }
      var ok := d.Buffer(cfg.minSize + algo.window + 1);
      if !ok {
        return ReadError;
      }
      // At the end of the stream all that is buffered is one chunk, however long.
      if d.eof {
        res := d.Last();
        if rem != [] {
          AnswersCut(ch, rem, |rem|, rem, []);
        }
        return;
      }

      res := NextCut(rem);
    }

    /** A chunk that ends before the end of the stream is known, or at a failed read. */
    method NextCut(ghost rem: bytes) returns (res: Next)
      requires Live() && d.pending == 0 && !d.done && !d.eof && d.Rem() == rem
      requires d.cfg.minSize + algo.window < d.n
      modifies d, d.r, d.backing
      ensures Valid() && d.r == old(d.r) && !res.EndOfStream?
      ensures Answers(Spec(), rem, res, d.Rem())
      ensures d.r.failed == (old(d.r.failed) || res.ReadError?)
      ensures res.Cut? ==> res.data == d.backing[..d.pending]
    {
      var ok := Seek(rem);
      if !ok {
        return ReadError;
      }
      var data := d.Emit(d.pos);
      AnswersCut(Spec(), rem, d.pos, data, d.Rem());
      return Cut(data);
    }

    /** Next until the stream ends: all the chunks of the stream, or those cut before a
        read failed. */
    method Drain() returns (chunks: seq<bytes>, ok: bool)
      requires Valid()
      modifies d, d.r, d.backing
      ensures Valid() && d.r == old(d.r) && (ok ==> d.r.ends)
      ensures Chunks(Spec(), old(d.Rem())) == chunks + Chunks(Spec(), d.Rem())
      ensures d.r.failed == (old(d.r.failed) || !ok)
      ensures ok ==> chunks == Chunks(Spec(), old(d.Rem())) && d.Rem() == []
    {
      ghost var all := Chunks(Spec(), d.Rem());
      chunks := [];
      while true
        invariant Valid() && d.r == old(d.r) && d.r.failed == old(d.r.failed)
        invariant all == chunks + Chunks(Spec(), d.Rem())
        decreases |d.Rem()|
      {
        ghost var before := d.Rem();
        var res := Next();
        match res {
          case Cut(data) =>
            DrainStep(Spec(), all, chunks, before, data, d.Rem());
            chunks := chunks + [data];
          case EndOfStream => return chunks, true;
          case ReadError => return chunks, false;
          case CountMismatch => assert false;
        }
      }
    }

    /** The scan has come to d.pos without a match, and sum is that of the window there. */
    ghost predicate Scanning(rem: bytes, sum: D)
      reads this, d, d.r, d.backing
    {
      && Live() && d.pending == 0 && !d.done && d.Rem() == rem
      && d.cfg.minSize <= d.pos && d.pos + algo.window <= d.n && d.cfg.minSize + algo.window < |rem|
      && sum == algo.hash(rem[d.pos..d.pos + algo.window]) && Uncut(Spec(), rem, d.pos - 1)
      && (d.n - d.pos <= algo.window ==> d.n == Limit(Spec(), rem))
      && (d.eof ==> d.n - d.pos <= algo.window)
    }

    /** A scan, and a refill when fewer bytes than a window are left behind it. */
    method Advance(sum: D, mask: Mask, ghost rem: bytes) returns (ok: bool, s: D)
      requires Scanning(rem, sum) && !d.eof && d.pos + algo.window < d.n
      requires mask == d.cfg.MaskFor(d.pos) && !algo.hit(sum, mask)
      modifies d`pos, d`n, d`eof, d`bytesRead, d.r, d.backing
      ensures Live() && d.pending == 0 && d.Rem() == rem && old(d.pos) < d.pos && d.pos + algo.window <= d.n
      ensures if ok then Scanning(rem, s) else !d.eof
      ensures d.r.failed == (old(d.r.failed) || !ok)
    {
      ok := true;
      s := ScanBuffered(sum, mask, rem);
      if d.n - d.pos <= algo.window {
        var grew;
        ok, grew := d.Refill();
      }
    }

    /** The scan begins. */
    method FirstWindow(ghost rem: bytes) returns (sum: D)
      requires Live() && d.pending == 0 && !d.done && !d.eof && d.Rem() == rem
      requires d.cfg.minSize + algo.window < d.n
      modifies d`pos
      ensures Scanning(rem, sum)
    {
      d.pos := d.cfg.minSize;
      d.Buffered(d.pos, d.pos + algo.window);
      sum := algo.hash(d.backing[d.pos..d.pos + algo.window]);
    }

    /** Scans and refills until a match, or until fewer bytes than a window are left and no
        more can come. */
    method Roll(sum: D, ghost rem: bytes) returns (ok: bool, s: D)
      requires Scanning(rem, sum)
      modifies d`pos, d`n, d`eof, d`bytesRead, d.r, d.backing
      ensures d.r.failed == (old(d.r.failed) || !ok)
      ensures !ok ==> Live() && d.pending == 0 && d.Rem() == rem && !d.eof
      ensures ok ==> Scanning(rem, s) && (d.n - d.pos <= algo.window || algo.hit(s, d.cfg.MaskFor(d.pos)))
    {
      var cfg, w := d.cfg, algo.window;
      ok, s := true, sum;
      while true
        invariant Scanning(rem, s) && ok && d.r.failed == old(d.r.failed)
        decreases cfg.maxSize - d.pos
      {
        var mask := cfg.MaskFor(d.pos);
        var remaining := d.n - d.pos;
        if !(remaining > w && !algo.hit(s, mask) && !(d.eof && remaining <= w)) {
          return;
        }
        ok, s := Advance(s, mask, rem);
        if !ok {
          return;
        }
      }
    }

    /** The chunk ends where the scan stopped, or with all that is buffered. */
    method Stop(ghost sum: D, ghost rem: bytes)
      requires Scanning(rem, sum) && (d.n - d.pos <= algo.window || algo.hit(sum, d.cfg.MaskFor(d.pos)))
      modifies d`pos
      ensures Live() && d.pending == 0 && d.Rem() == rem
      ensures d.pos <= d.n && IsCut(Spec(), rem, d.pos) && (d.eof ==> d.pos == d.n)
    {
      WindowedEnd(Spec(), rem, d.pos, d.n);
      if d.n - d.pos <= algo.window {
        d.pos := d.n;
      }
    }

    method Seek(ghost rem: bytes) returns (ok: bool)
      requires Live() && d.pending == 0 && !d.done && !d.eof && d.Rem() == rem
      requires d.cfg.minSize + algo.window < d.n
      modifies d`pos, d`n, d`eof, d`bytesRead, d.r, d.backing
      ensures Live() && d.pending == 0 && d.Rem() == rem && d.r.failed == (old(d.r.failed) || !ok)
      ensures ok ==> d.pos <= d.n && IsCut(Spec(), rem, d.pos) && (d.eof ==> d.pos == d.n)
      ensures !ok ==> !d.eof
    {
      var sum := FirstWindow(rem);
      ok, sum := Roll(sum, rem);
      if ok {
        Stop(sum, rem);
      }
    }
  }
}

/** File contents end to end: read with holes skipped, chunked, written back with or
    without holes, and chunked again. */
module Sparse {
  import opened Bytes
  import opened ChunkSpec
  import opened Readers
  import opened Driver
  import opened Store
  import opened ArchiveBuilder

  // ---------------------------------------------------------------- writing a file

  predicate IsAllZero(b: bytes) {
    b != [] && forall k :: 0 <= k < |b| ==> b[k] == 0
  }

  /** A file being written: what it holds, where the next write goes, how much was meant to
      be written and whether that ended in a hole. */
  datatype Output = Output(content: bytes, offset: nat, written: nat, trailingHole: bool)

  /** A write past the end fills the gap with zeros; an empty one changes nothing. */
  function Overwrite(content: bytes, offset: nat, data: bytes): bytes {
    if data == [] then content
    else
      var base := if |content| < offset then content + Zeros(offset - |content|) else content;
      base[..offset] + data + if offset + |data| < |base| then base[offset + |data|..] else []
  }

  function WriteChunk(o: Output, data: bytes, sparse: bool): Output {
    if sparse && IsAllZero(data) then Output(o.content, o.offset + |data|, o.written + |data|, true)
    else Output(Overwrite(o.content, o.offset, data), o.offset + |data|, o.written + |data|, false)
  }

  function WriteChunks(chunks: seq<bytes>, sparse: bool): Output {
    if chunks == [] then Output([], 0, 0, false)
    else WriteChunk(WriteChunks(chunks[..|chunks| - 1], sparse), chunks[|chunks| - 1], sparse)
  }

  function Truncate(content: bytes, size: nat): (c: bytes)
    ensures |c| == size
  {
    if size <= |content| then content[..size] else content + Zeros(size - |content|)
  }

  /** A hole at the end counts only through the truncation. */
  function Restored(chunks: seq<bytes>, sparse: bool): bytes {
    var o := WriteChunks(chunks, sparse);
    if o.trailingHole || o.written == 0 then Truncate(o.content, o.written) else o.content
  }

  method WriteFile(chunks: seq<bytes>, sparse: bool) returns (content: bytes, written: nat)
    ensures content == Restored(chunks, sparse) && written == |Concat(chunks)|
  {
    content, written := [], 0;
    var offset: nat, trailingHole := 0, false;
    for i := 0 to |chunks|
      invariant WriteChunks(chunks[..i], sparse) == Output(content, offset, written, trailingHole)
    {
      assert chunks[..i + 1][..i] == chunks[..i];
      var data := chunks[i];
      if sparse && IsAllZero(data) {
        offset := offset + |data|;
        trailingHole := true;
      } else {
        content := Overwrite(content, offset, data);
        offset := offset + |data|;
        trailingHole := false;
      }
      written := written + |data|;
    }
    assert chunks[..|chunks|] == chunks;
    WrittenSoFar(chunks, sparse);
    if trailingHole || written == 0 {
      content := Truncate(content, written);
    }
  }

  /** All that was written is there, but for zeros at the end. */
  lemma {:induction false} WrittenSoFar(chunks: seq<bytes>, sparse: bool)
    ensures var o, all := WriteChunks(chunks, sparse), Concat(chunks);
      && o.offset == o.written == |all| && |o.content| <= |all|
      && all == o.content + Zeros(|all| - |o.content|)
      && (o.trailingHole ==> 0 < |all|)
  {
    if chunks != [] {
      var init, data := chunks[..|chunks| - 1], chunks[|chunks| - 1];
      WrittenSoFar(init, sparse);
      assert init + [data] == chunks;
      ConcatSnoc(init, data);
      WriteStep(WriteChunks(init, sparse), Concat(init), data, sparse);
    }
  }

  lemma WriteStep(o: Output, all: bytes, data: bytes, sparse: bool)
    requires o.offset == o.written == |all| && |o.content| <= |all|
    requires all == o.content + Zeros(|all| - |o.content|)
    ensures var o', all' := WriteChunk(o, data, sparse), all + data;
      && o'.offset == o'.written == |all'| && |o'.content| <= |all'|
      && all' == o'.content + Zeros(|all'| - |o'.content|)
      && (o'.trailingHole ==> 0 < |all'|)
      && (!o'.trailingHole && data != [] ==> o'.content == all')
      && (data == [] ==> o'.content == o.content)
  {
    if sparse && IsAllZero(data) {
      AllZeroIsZeros(data);
    }
  }

  ghost predicate EndsInHole(chunks: seq<bytes>) {
    chunks != [] && IsAllZero(chunks[|chunks| - 1])
  }

  /** A hole at the end with nothing but empty chunks, at least one, behind it. */
  ghost predicate EndsInCoveredHole(chunks: seq<bytes>) {
    && chunks != [] && chunks[|chunks| - 1] == []
    && (EndsInHole(chunks[..|chunks| - 1]) || EndsInCoveredHole(chunks[..|chunks| - 1]))
  }

  lemma CoveredNext(init: seq<bytes>, data: bytes)
    ensures EndsInHole(init + [data]) <==> IsAllZero(data)
    ensures EndsInCoveredHole(init + [data]) <==> data == [] && (EndsInHole(init) || EndsInCoveredHole(init))
  {
    assert (init + [data])[..|init|] == init;
  }

  /** The file is shorter than what was written: by a hole still to be truncated to, or
      by one that will not be. */
  ghost predicate Short(o: Output, all: nat, openHole: bool, lostHole: bool) {
    && (o.trailingHole <==> openHole)
    && (o.trailingHole ==> |o.content| < all)
    && (!o.trailingHole && |o.content| < all <==> lostHole)
  }

  lemma ShortStep(o: Output, all: bytes, data: bytes, sparse: bool, openHole: bool, lostHole: bool)
    requires o.offset == o.written == |all| && |o.content| <= |all|
    requires all == o.content + Zeros(|all| - |o.content|)
    requires Short(o, |all|, openHole, lostHole)
    ensures Short(WriteChunk(o, data, sparse), |all + data|,
                  sparse && IsAllZero(data), data == [] && (openHole || lostHole))
  {
    WriteStep(o, all, data, sparse);
  }

  /** A short file is one whose last hole is covered up by an empty chunk. */
  lemma {:induction false} ShortIff(chunks: seq<bytes>, sparse: bool)
    ensures Short(WriteChunks(chunks, sparse), |Concat(chunks)|,
                  sparse && EndsInHole(chunks), sparse && EndsInCoveredHole(chunks))
  {
    if chunks != [] {
      var init, data := chunks[..|chunks| - 1], chunks[|chunks| - 1];
      ShortIff(init, sparse);
      WrittenSoFar(init, sparse);
      assert init + [data] == chunks;
      ConcatSnoc(init, data);
      CoveredNext(init, data);
      ShortStep(WriteChunks(init, sparse), Concat(init), data, sparse,
                sparse && EndsInHole(init), sparse && EndsInCoveredHole(init));
    }
  }

  /** Written back, sparse or not, a file is what its chunks hold, in every case but one:
      when sparse, an empty chunk behind a hole at the end leaves the hole off. */
  lemma RestoredIff(chunks: seq<bytes>, sparse: bool)
    ensures Restored(chunks, sparse) == Concat(chunks) <==> !(sparse && EndsInCoveredHole(chunks))
  {
    WrittenSoFar(chunks, sparse);
    ShortIff(chunks, sparse);
    var o, all := WriteChunks(chunks, sparse), Concat(chunks);
    if |o.content| == |all| {
      assert o.content + Zeros(0) == o.content;
    }
  }

  /** A file of one block of zeros and an empty chunk comes back empty. */
  lemma EmptyChunkLosesHole()
    ensures Restored([[0], []], true) != Concat([[0], []])
  {
    var chunks: seq<bytes> := [[0], []];
    assert chunks[..1] == [[0]];
    assert EndsInHole(chunks[..1]);
    assert EndsInCoveredHole(chunks);
    RestoredIff(chunks, true);
  }

  // ---------------------------------------------------------------- chunking again

  /** The chunks the store holds under a list of ids. */
  ghost predicate Holds(store: map<Id, bytes>, ids: seq<Id>, pieces: seq<bytes>) {
    |ids| == |pieces| && forall k :: 0 <= k < |ids| ==> ids[k] in store && store[ids[k]] == pieces[k]
  }

  lemma {:induction false} ContentIsConcat(store: map<Id, bytes>, ids: seq<Id>, pieces: seq<bytes>, skip: bool)
    requires Holds(store, ids, pieces)
    ensures Content(store, ids, skip) == (Concat(pieces), true)
  {
    if ids != [] {
      ContentIsConcat(store, ids[1..], pieces[1..], skip);
    }
  }

  /** Whatever the chunker parameters, the chunks of a content, written back sparse or not,
      are that content; so are the chunks of the stream that its stored chunks make, cut under
      other parameters. */
  lemma ContentSurvives<D, E>(
      content: bytes, ch: Chunker<D>, again: Chunker<E>, store: map<Id, bytes>, ids: seq<Id>, sparse: bool, skip: bool)
    requires ch.Valid() && again.Valid() && Holds(store, ids, Chunks(ch, content))
    ensures Restored(Chunks(ch, content), sparse) == content
    ensures Restored(Chunks(again, Content(store, ids, skip).0), sparse) == content
  {
    ContentIsConcat(store, ids, Chunks(ch, content), skip);
    ChunksPartition(ch, content);
    ChunksPartition(again, content);
    RestoredIff(Chunks(ch, content), sparse);
    RestoredIff(Chunks(again, content), sparse);
  }

  // ---------------------------------------------------------------- from disk to repository, and again

  function Ids(entries: seq<Entry>): (ids: seq<Id>)
    ensures |ids| == |entries|
  {
    seq(|entries|, i requires 0 <= i < |entries| => entries[i].id)
  }

  /** The entries stand for a content: their chunks are read back as one stream that is that
      content, with nothing missing, and written to a file, sparse or not, they restore it. */
  ghost predicate StandsFor(store: map<Id, bytes>, entries: seq<Entry>, pieces: seq<bytes>, content: bytes) {
    && Holds(store, Ids(entries), pieces)
    && (forall skip :: Content(store, Ids(entries), skip) == (content, true))
    && (forall sparse :: Restored(pieces, sparse) == content)
  }

  /** No hash collision in what the repository holds and the chunks it is handed. */
  ghost predicate Clean(env: Env, b: Repo, pieces: seq<bytes>) {
    ContentAddressed(env, b) && NoCollision(env, b.store.Values + set x | x in pieces)
  }

  lemma AddedStandsFor(env: Env, b: Repo, ch: ContentChunker, content: bytes, out: Option<seq<Entry>>, b': Repo)
    requires ch.Specified() && Clean(env, b, ch.Cuts(content)) && out.Some?
    requires AddAll(env, b, ch.Cuts(content), true) == Listed(out, b')
    ensures StandsFor(b'.store, out.value, ch.Cuts(content), content)
  {
    var pieces := ch.Cuts(content);
    AddAllFiles(env, b, pieces, true, b.store.Values + set x | x in pieces);
    var ids := Ids(out.value);
    forall skip
      ensures Content(b'.store, ids, skip) == (Concat(pieces), true)
    {
      ContentIsConcat(b'.store, ids, pieces, skip);
    }
    match ch {
      case WithoutWindow(c) => ChunksPartition(c.Spec(), content);
      case WithWindow(c) => ChunksPartition(c.Spec(), content);
    }
    forall sparse
      ensures Restored(pieces, sparse) == content
    {
      RestoredIff(pieces, sparse);
    }
  }

  /** A file is read with its holes skipped, cut and stored: this ends, well or not, as
      adding its specified chunks does. */
  method BackUp(b: Builder, ch: ContentChunker, disk: Disk) returns (out: Option<seq<Entry>>)
    requires b.Valid() && ch.Reusable() && IsDisk(disk)
    modifies b, ch.Loop(), ch.Loop().backing
    ensures b.Valid()
    ensures out.Some? && Clean(b.env, old(b.repo), ch.Cuts(disk.content)) ==>
      StandsFor(b.repo.store, out.value, ch.Cuts(disk.content), disk.content)
    ensures AddAll(b.env, old(b.repo), ch.Cuts(disk.content), true) == Listed(out, b.repo)
  {
    var r := new Reader.Over(SparseFile(Place(disk, 0, 0, 0)));
    assert r.rest == disk.content;
    out := b.ChunkFileSerial(ch, r);
    if out.Some? {
      ghost var b0, b1 := old(b.repo), b.repo;
      if Clean(b.env, b0, ch.Cuts(disk.content)) {
        AddedStandsFor(b.env, b0, ch, disk.content, out, b1);
      }
    }
  }

  /** A file's stored chunks are read as one stream, cut under other parameters and stored
      again. It fails if a chunk is missing, unless missing ones are skipped. */
  method Rewrite(b: Builder, ch: ContentChunker, store: map<Id, bytes>, ids: seq<Id>, skipMissing: bool)
    returns (out: Option<seq<Entry>>)
    requires b.Valid() && ch.Reusable()
    modifies b, ch.Loop(), ch.Loop().backing
    ensures b.Valid()
    ensures !Content(store, ids, skipMissing).1 ==> out.None?
    ensures Content(store, ids, skipMissing).1 ==>
      AddAll(b.env, old(b.repo), ch.Cuts(Content(store, ids, skipMissing).0), true) == Listed(out, b.repo)
    ensures var content := Content(store, ids, skipMissing).0;
      out.Some? && Clean(b.env, old(b.repo), ch.Cuts(content)) ==>
      StandsFor(b.repo.store, out.value, ch.Cuts(content), content)
  {
    ghost var content := Content(store, ids, skipMissing).0;
    var r := new Reader.Over(ChunkList(Unread(store, ids, skipMissing, 0, [])));
    assert ids[0..] == ids && r.rest == [] + content == content;
    out := b.ChunkFileSerial(ch, r);
    if out.Some? {
      ghost var b0, b1 := old(b.repo), b.repo;
      if Clean(b.env, b0, ch.Cuts(content)) {
        AddedStandsFor(b.env, b0, ch, content, out, b1);
      }
    }
  }
}

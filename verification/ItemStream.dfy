/** The item metadata stream: written by repeated, partial flushes that must leave the same
    chunks as one pass over the whole stream, and read back through its pointer blocks. */
module ItemStream {
  import opened Bytes
  import opened ChunkSpec
  import opened Readers
  import opened Driver
  import opened Buzhash
  import opened Store
  import opened Streaming
  import opened Msgpack
  import opened Unpacker
  import opened ArchiveBuilder

  // ---------------------------------------------------------------- incremental chunking

  /** `stored` and what is still in `buf` chunk like the whole stream, whatever follows. */
  ghost predicate Splits<D>(ch: Chunker<D>, total: bytes, stored: seq<bytes>, buf: bytes)
    requires ch.Valid()
  {
    forall more :: Continues(ch, total, stored, buf, more)
  }

  ghost predicate Continues<D>(ch: Chunker<D>, total: bytes, stored: seq<bytes>, buf: bytes, more: bytes)
    requires ch.Valid()
  {
    Chunks(ch, total + more) == stored + Chunks(ch, buf + more)
  }

  lemma SplitsStart<D>(ch: Chunker<D>)
    requires ch.Valid()
    ensures Splits(ch, [], [], [])
  {
    forall more
      ensures Continues(ch, [], [], [], more)
    {
      assert [] + Chunks(ch, [] + more) == Chunks(ch, [] + more);
    }
  }

  lemma SplitsGrow<D>(ch: Chunker<D>, total: bytes, stored: seq<bytes>, buf: bytes, packed: bytes)
    requires ch.Valid() && Splits(ch, total, stored, buf)
    ensures Splits(ch, total + packed, stored, buf + packed)
  {
    forall more
      ensures Continues(ch, total + packed, stored, buf + packed, more)
    {
      assert Continues(ch, total, stored, buf, packed + more);
      Regroup(total, packed, more);
      Regroup(buf, packed, more);
    }
  }

  /** Storing all pieces but the last, and putting the last back, keeps the split: the
      last is the only one whose end could still move. */
  lemma SplitsFlush<D>(ch: Chunker<D>, total: bytes, stored: seq<bytes>, buf: bytes)
    requires ch.Valid() && Splits(ch, total, stored, buf) && |Chunks(ch, buf)| > 0
    ensures var cs := Chunks(ch, buf); Splits(ch, total, stored + cs[..|cs| - 1], cs[|cs| - 1])
  {
    var cs := Chunks(ch, buf);
    var last := cs[|cs| - 1];
    var kept := stored + cs[..|cs| - 1];
    forall more
      ensures Continues(ch, total, kept, last, more)
    {
      assert Continues(ch, total, stored, buf, more);
      ChunksExtend(ch, buf, more);
      assert stored + (cs[..|cs| - 1] + Chunks(ch, last + more)) == kept + Chunks(ch, last + more);
    }
  }

  lemma SplitsEnd<D>(ch: Chunker<D>, total: bytes, stored: seq<bytes>, buf: bytes)
    requires ch.Valid() && Splits(ch, total, stored, buf)
    ensures Chunks(ch, total) == stored + Chunks(ch, buf)
  {
    assert Continues(ch, total, stored, buf, []);
    assert total + [] == total && buf + [] == buf;
  }

  // ---------------------------------------------------------------- the stream

  /** What a flush stores: all chunks of the buffer, and all but the last unless it is final. */
  ghost function Due(ch: Chunker<Mask>, buf: bytes, final: bool): seq<bytes>
    requires ch.Valid()
  {
    var cs := Chunks(ch, buf);
    if final || |cs| <= 1 then cs else cs[..|cs| - 1]
  }

  function AddPiece(env: Env, b: Repo, piece: bytes): Stored {
    Add(env, b, piece, false)
  }

  class ItemStream {
    const builder: Builder
    const cfg: Config
    const gear: GearTable
    var buf: bytes
    var chunks: seq<Id>
    // Built once and reset for every flush.
    var chunker: WindowLessChunker?<Mask>
    ghost var scratch: set<object>
    // The items added so far, their encodings, and the pieces these were stored as.
    ghost var items: seq<Value>
    ghost var encoded: seq<bytes>
    ghost var stored: seq<bytes>

    ghost function Spec(): Chunker<Mask> {
      Chunker.Chunker(cfg, FastCdc(gear))
    }

    ghost predicate Core()
      reads this, builder
    {
      && this !in scratch && builder !in scratch
      && builder.Valid() && cfg.Valid() && cfg.maxSize <= ITEM_STREAM_BUFFER_SIZE
      && (chunker != null ==>
            && chunker.algo == FastCdc(gear) && chunker.d.cfg == cfg && chunker.d.backing.Length == cfg.maxSize
            && {chunker.d, chunker.d.backing} <= scratch)
      && EncodesAll(Msg(), items, encoded)
      && Ids(builder.env, stored, chunks) && forall k :: 0 <= k < |stored| ==> stored[k] in builder.added
    }

    ghost predicate Valid()
      reads this, builder
    {
      Core() && Splits(Spec(), Concat(encoded), stored, buf)
    }

    /** After the final flush: the pieces are the chunks of one pass over everything. */
    ghost predicate Written()
      reads this, builder
    {
      Core() && stored == Chunks(Spec(), Concat(encoded))
    }

    constructor (builder: Builder, cfg: Config, gear: GearTable)
      requires builder.Valid() && cfg.Valid() && cfg.maxSize <= ITEM_STREAM_BUFFER_SIZE
      ensures Valid() && this.builder == builder && items == [] && scratch == {}
      ensures this.cfg == cfg && this.gear == gear
    {
      this.builder, this.cfg, this.gear := builder, cfg, gear;
      buf, chunks, chunker := [], [], null;
      items, encoded, stored, scratch := [], [], [], {};
      new;
      SplitsStart(Spec());
    }

    method Add(it: Value) returns (ok: bool)
      requires Valid() && Encodable(it, 0)
      modifies this, builder, scratch
      ensures ok ==> Valid() && items == old(items) + [it]
      ensures ok <==>
        |old(buf)| + |Encode(it, 0)| <= 8_388_608
        || AddAll(builder.env, old(builder.repo), Due(Spec(), old(buf) + Encode(it, 0), false), false).entries.Some?
      ensures fresh(scratch - old(scratch))
    {
      var packed := Encode(it, 0);
      ReadsBack(it);
      EncodesSnoc(Msg(), items, encoded, it, packed);
      ConcatSnoc(encoded, packed);
      SplitsGrow(Spec(), Concat(encoded), stored, buf, packed);
      buf := buf + packed;
      items, encoded := items + [it], encoded + [packed];
      ok := true;
      if |buf| > ITEM_STREAM_BUFFER_SIZE {
        ok := Flush(false);
      }
    }

    /** Chunks what is buffered. Unless this is the final flush the last piece goes back
        into the buffer. */
    method Flush(final: bool) returns (ok: bool)
      requires Valid() && (final || |buf| > ITEM_STREAM_BUFFER_SIZE)
      modifies this, builder, scratch
      ensures items == old(items) && fresh(scratch - old(scratch))
      ensures var l := AddAll(builder.env, old(builder.repo), Due(Spec(), old(buf), final), false);
        builder.repo == l.repo && (ok <==> l.entries.Some?)
      ensures ok ==> if final then Written() && buf == [] else Valid()
    {
      ghost var ch, total, was := Spec(), Concat(encoded), stored;
      SplitsEnd(ch, total, stored, buf);
      if |buf| == 0 {
        assert stored + [] == stored;
        return true;
      }
      var pieces := Pieces();
      assert pieces[..|pieces|] == pieces;
      if !final {
        ChunksAreMany(ch, buf);
        SplitsFlush(ch, total, stored, buf);
      }
      buf := [];
      var end := |pieces|;
      if !final && |pieces| > 1 {
        end := |pieces| - 1;
      }
      ok := Store(pieces[..end]);
      if end < |pieces| {
        buf := pieces[|pieces| - 1];
      }
    }

    /** The chunker, made or reset, at the start of r. */
    method Rewind(r: Reader)
      requires Core() && r !in scratch && r.Valid()
      modifies this`chunker, this`scratch, scratch
      ensures Core() && fresh(scratch - old(scratch)) && r.rest == old(r.rest) && r.failed == old(r.failed)
      ensures chunker != null && chunker.Valid() && chunker.d.r == r && chunker.d.Rem() == r.rest
    {
      if chunker == null {
        chunker := new WindowLessChunker<Mask>(cfg, FastCdc(gear), r);
        scratch := scratch + {chunker.d, chunker.d.backing};
      } else {
        chunker.Reset(r);
      }
    }

    /** The chunks of what is buffered. Reading from memory does not fail. */
    method Pieces() returns (pieces: seq<bytes>)
      requires Core()
      modifies this`chunker, this`scratch, scratch
      ensures Core() && fresh(scratch - old(scratch))
      ensures pieces == Chunks(Spec(), buf)
    {
      var r := new Reader(buf);
      Rewind(r);
      assert chunker.Spec() == Spec();
      var ok;
      pieces, ok := chunker.Drain();
      assert ok;
    }

    method StoreOne(piece: bytes) returns (ok: bool)
      requires Core()
      modifies this`chunks, this`stored, builder
      ensures Core() && stored == if ok then old(stored) + [piece] else old(stored)
      ensures var r := AddPiece(builder.env, old(builder.repo), piece); builder.repo == r.repo && (ok <==> r.entry.Some?)
    {
      var entry := builder.AddChunk(piece, false);
      ok := entry.Some?;
      if ok {
        chunks := chunks + [entry.value.id];
        stored := stored + [piece];
      }
    }

    method Store(pieces: seq<bytes>) returns (ok: bool)
      requires Core()
      modifies this`chunks, this`stored, builder
      ensures Core() && (ok ==> stored == old(stored) + pieces)
      ensures var l := AddAll(builder.env, old(builder.repo), pieces, false);
        builder.repo == l.repo && (ok <==> l.entries.Some?)
    {
      ghost var b0 := builder.repo;
      for i := 0 to |pieces|
        invariant Core() && stored == old(stored) + pieces[..i]
        invariant StoredSome(builder.env, b0, pieces[..i], builder.repo)
      {
        StoresNext(builder.env, b0, pieces, i, builder.repo);
        ok := StoreOne(pieces[i]);
        if !ok {
          return;
        }
        assert pieces[..i + 1] == pieces[..i] + [pieces[i]];
      }
      assert pieces[..|pieces|] == pieces;
      ok := true;
    }
  }

  /** The first pieces have been added. */
  ghost predicate StoredSome(env: Env, b: Repo, pieces: seq<bytes>, b': Repo) {
    AddAll(env, b, pieces, false).entries.Some? && AddAll(env, b, pieces, false).repo == b'
  }

  lemma StoresNext(env: Env, b: Repo, pieces: seq<bytes>, i: nat, b': Repo)
    requires i < |pieces| && StoredSome(env, b, pieces[..i], b')
    ensures var s := Add(env, b', pieces[i], false);
      if s.entry.Some? then StoredSome(env, b, pieces[..i + 1], s.repo) else AddAll(env, b, pieces, false) == Listed(None, s.repo)
  {
    AddAllSnoc(env, b, pieces[..i], pieces[i], false);
    assert pieces[..i + 1] == pieces[..i] + [pieces[i]];
    if Add(env, b', pieces[i], false).entry.None? {
      assert pieces == pieces[..i + 1] + pieces[i + 1..];
      AddAllFails(env, b, pieces[..i + 1], pieces[i + 1..], false);
    }
  }

  /** The id of every piece, in order. */
  ghost predicate Ids(env: Env, pieces: seq<bytes>, ids: seq<Id>) {
    |ids| == |pieces| && forall k :: 0 <= k < |ids| ==> ids[k] == env.idHash(pieces[k])
  }

  // ---------------------------------------------------------------- pointer blocks

  /** The ids as the values of one pointer block. */
  function IdValues(ids: seq<Id>): (vs: seq<Value>)
    ensures |vs| == |ids|
  {
    if ids == [] then [] else [Bin(ids[0])] + IdValues(ids[1..])
  }

  ghost predicate Short32(ids: seq<Id>) {
    forall k :: 0 <= k < |ids| ==> |ids[k]| <= MAX_UINT32
  }

  lemma {:induction false} IdValuesEncodable(ids: seq<Id>)
    requires Short32(ids)
    ensures EncodableAll(IdValues(ids), 1)
  {
    if ids != [] {
      IdValuesEncodable(ids[1..]);
    }
  }

  function Block(ids: seq<Id>): bytes
    requires |ids| <= IDS_PER_CHUNK && EncodableAll(IdValues(ids), 1)
  {
    Encode(Arr(IdValues(ids)), 0)
  }

  /** The ids a pointer block lists, if that is what it is. */
  function IdsOf(vs: seq<Value>): Option<seq<Id>> {
    if vs == [] then Some([])
    else if !vs[0].Bin? then None
    else
      match IdsOf(vs[1..])
      case None => None
      case Some(rest) => Some([vs[0].data] + rest)
  }

  function ParseBlock(data: bytes): Option<seq<Id>> {
    match Unmarshal(data)
    case None => None
    case Some(v) => if v.Arr? then IdsOf(v.elems) else None
  }

  lemma {:induction false} IdsOfIdValues(ids: seq<Id>)
    ensures IdsOf(IdValues(ids)) == Some(ids)
  {
    if ids != [] {
      IdsOfIdValues(ids[1..]);
      assert [ids[0]] + ids[1..] == ids;
    }
  }

  lemma BlockRoundTrip(ids: seq<Id>)
    requires |ids| <= IDS_PER_CHUNK && EncodableAll(IdValues(ids), 1)
    ensures ParseBlock(Block(ids)) == Some(ids)
  {
    UnmarshalRoundTrip(Arr(IdValues(ids)));
    IdsOfIdValues(ids);
  }

  /** `blocks` are the pointer blocks of `ids`: full ones and one last, which is there even
      when there are no ids at all. */
  ghost predicate BlocksOf(ids: seq<Id>, blocks: seq<seq<Id>>) {
    && blocks != [] && Concat(blocks) == ids
    && (forall k :: 0 <= k < |blocks| - 1 ==> |blocks[k]| == 524_286)
    && |blocks[|blocks| - 1]| <= 524_286
    && (ids != [] ==> blocks[|blocks| - 1] != [])
  }

  /** Pointer k leads to the encoding of block k. */
  ghost predicate Points(store: map<Id, bytes>, ptrs: seq<Id>, blocks: seq<seq<Id>>) {
    |ptrs| == |blocks| && forall k :: 0 <= k < |ptrs| ==>
      ptrs[k] in store && ParseBlock(store[ptrs[k]]) == Some(blocks[k])
  }

  /** What is stored for a list of ids: the encodings of its pointer blocks. */
  function PointerBlocks(ids: seq<Id>): seq<bytes>
    requires Short32(ids)
  {
    var n := Min(|ids|, IDS_PER_CHUNK);
    IdValuesEncodable(ids[..n]);
    [Block(ids[..n])] + if n == |ids| then [] else PointerBlocks(ids[n..])
  }

  /** Stores one pointer block. */
  method WriteBlock(b: Builder, part: seq<Id>) returns (id: Id, ok: bool, ghost data: bytes)
    requires b.Valid() && Short32(part) && |part| <= IDS_PER_CHUNK
    modifies b
    ensures b.Valid() && old(b.added) <= b.added && old(b.universe) <= b.universe
    ensures EncodableAll(IdValues(part), 1) && data == Block(part)
    ensures var s := Store.Add(b.env, old(b.repo), data, true); b.repo == s.repo && (ok <==> s.entry.Some?)
    ensures ok ==> data in b.added && id == b.env.idHash(data) && ParseBlock(data) == Some(part)
  {
    IdValuesEncodable(part);
    var packed := Encode(Arr(IdValues(part)), 0);
    BlockRoundTrip(part);
    var entry := b.AddChunk(packed, true);
    ok, data := entry.Some?, packed;
    id := if ok then entry.value.id else [];
  }

  /** The first blocks have been added. */
  ghost predicate WroteSome(env: Env, b: Repo, datas: seq<bytes>, b': Repo) {
    AddAll(env, b, datas, true).entries.Some? && AddAll(env, b, datas, true).repo == b'
  }

  lemma WritesNext(env: Env, b: Repo, datas: seq<bytes>, next: bytes, rest: seq<bytes>, b': Repo)
    requires WroteSome(env, b, datas, b')
    ensures var s := Store.Add(env, b', next, true);
      if s.entry.Some? then WroteSome(env, b, datas + [next], s.repo)
      else AddAll(env, b, datas + ([next] + rest), true) == Listed(None, s.repo)
  {
    AddAllSnoc(env, b, datas, next, true);
    if Store.Add(env, b', next, true).entry.None? {
      Regroup(datas, [next], rest);
      AddAllFails(env, b, datas + [next], rest, true);
    }
  }

  /** The blocks from some id on, the first apart. */
  lemma BlocksFrom(ids: seq<Id>, start: nat, end: nat)
    requires Short32(ids) && start <= end <= |ids| && end - start == Min(|ids| - start, IDS_PER_CHUNK)
    ensures EncodableAll(IdValues(ids[start..end]), 1)
    ensures PointerBlocks(ids[start..])
      == [Block(ids[start..end])] + if end == |ids| then [] else PointerBlocks(ids[end..])
  {
    IdValuesEncodable(ids[start..end]);
    assert ids[start..][..end - start] == ids[start..end];
    assert ids[start..][end - start..] == ids[end..];
  }

  /** The blocks of the first ids have been stored, and nothing else. */
  ghost predicate Wrote(
      env: Env, b0: Repo, b: Repo, added: set<bytes>, ids: seq<Id>, start: nat, datas: seq<bytes>, ptrs: seq<Id>,
      blocks: seq<seq<Id>>)
  {
    && Short32(ids) && start <= |ids| && (0 < start ==> start < |ids|)
    && FullBlocks(ids[..start], blocks) && Filed(env, added, datas, ptrs, blocks)
    && WroteSome(env, b0, datas, b) && PointerBlocks(ids) == datas + PointerBlocks(ids[start..])
  }

  lemma FiledMore(
      env: Env, added: set<bytes>, datas: seq<bytes>, ptrs: seq<Id>, blocks: seq<seq<Id>>, data: bytes, id: Id, block: seq<Id>)
    requires Filed(env, added, datas, ptrs, blocks)
    requires data in added && id == env.idHash(data) && ParseBlock(data) == Some(block)
    ensures Filed(env, added, datas + [data], ptrs + [id], blocks + [block])
  {
  }

  lemma BlocksGoOn(ids: seq<Id>, start: nat, end: nat, datas: seq<bytes>)
    requires Short32(ids) && start <= end <= |ids| && end - start == Min(|ids| - start, IDS_PER_CHUNK)
    requires PointerBlocks(ids) == datas + PointerBlocks(ids[start..]) && EncodableAll(IdValues(ids[start..end]), 1)
    ensures PointerBlocks(ids) == datas + [Block(ids[start..end])] + if end == |ids| then [] else PointerBlocks(ids[end..])
  {
    BlocksFrom(ids, start, end);
    Regroup(datas, [Block(ids[start..end])], if end == |ids| then [] else PointerBlocks(ids[end..]));
  }

  /** The blocks of all ids have been stored, and nothing else. */
  ghost predicate WroteAll(
      env: Env, b0: Repo, b: Repo, added: set<bytes>, ids: seq<Id>, datas: seq<bytes>, ptrs: seq<Id>, blocks: seq<seq<Id>>)
  {
    && Short32(ids) && BlocksOf(ids, blocks) && Filed(env, added, datas, ptrs, blocks)
    && WroteSome(env, b0, datas, b) && datas == PointerBlocks(ids)
  }

  lemma WroteStart(env: Env, b0: Repo, added: set<bytes>, ids: seq<Id>)
    requires Short32(ids)
    ensures Wrote(env, b0, b0, added, ids, 0, [], [], [])
  {
    assert ids[0..] == ids && ids[..0] == [];
  }

  lemma LastBlock(ids: seq<Id>, start: nat, blocks: seq<seq<Id>>)
    requires start <= |ids| && |ids| - start <= IDS_PER_CHUNK && (0 < start ==> start < |ids|)
    requires FullBlocks(ids[..start], blocks)
    ensures BlocksOf(ids, blocks + [ids[start..|ids|]])
  {
    NextBlock(ids, start, |ids|, blocks);
    assert ids[..|ids|] == ids;
  }

  /** One more block. */
  lemma WroteNext(
      env: Env, b0: Repo, b1: Repo, b2: Repo, added: set<bytes>, ids: seq<Id>, start: nat, end: nat, datas: seq<bytes>,
      ptrs: seq<Id>, blocks: seq<seq<Id>>, data: bytes, id: Id)
    requires Wrote(env, b0, b1, added, ids, start, datas, ptrs, blocks)
    requires start <= end <= |ids| && end - start == Min(|ids| - start, IDS_PER_CHUNK)
    requires EncodableAll(IdValues(ids[start..end]), 1) && data == Block(ids[start..end])
    requires data in added && id == env.idHash(data) && ParseBlock(data) == Some(ids[start..end])
    requires Store.Add(env, b1, data, true).entry.Some? && b2 == Store.Add(env, b1, data, true).repo
    ensures var d, p, k := datas + [data], ptrs + [id], blocks + [ids[start..end]];
      if end < |ids| then Wrote(env, b0, b2, added, ids, end, d, p, k) else WroteAll(env, b0, b2, added, ids, d, p, k)
  {
    WritesNext(env, b0, datas, data, [], b1);
    FiledMore(env, added, datas, ptrs, blocks, data, id, ids[start..end]);
    BlocksGoOn(ids, start, end, datas);
    if end == |ids| {
      LastBlock(ids, start, blocks);
      assert datas + [data] + [] == datas + [data];
    } else {
      NextBlock(ids, start, end, blocks);
    }
  }

  lemma WriteFails(
      env: Env, b0: Repo, b1: Repo, ids: seq<Id>, start: nat, end: nat, datas: seq<bytes>, data: bytes)
    requires Short32(ids) && start <= end <= |ids| && end - start == Min(|ids| - start, IDS_PER_CHUNK)
    requires WroteSome(env, b0, datas, b1) && PointerBlocks(ids) == datas + PointerBlocks(ids[start..])
    requires EncodableAll(IdValues(ids[start..end]), 1) && data == Block(ids[start..end])
    requires Store.Add(env, b1, data, true).entry.None?
    ensures AddAll(env, b0, PointerBlocks(ids), true) == Listed(None, Store.Add(env, b1, data, true).repo)
  {
    BlocksFrom(ids, start, end);
    WritesNext(env, b0, datas, data, if end == |ids| then [] else PointerBlocks(ids[end..]), b1);
  }

  lemma AllWritten(b: Builder, b0: Repo, ids: seq<Id>, datas: seq<bytes>, ptrs: seq<Id>, blocks: seq<seq<Id>>)
    requires b.Valid() && WroteAll(b.env, b0, b.repo, b.added, ids, datas, ptrs, blocks)
    ensures BlocksOf(ids, blocks) && (NoCollision(b.env, b.universe) ==> Points(b.repo.store, ptrs, blocks))
    ensures Short32(ids) && WroteSome(b.env, b0, PointerBlocks(ids), b.repo)
  {
    FiledPoints(b, datas, ptrs, blocks);
  }

  method WriteItemPointers(b: Builder, ids: seq<Id>) returns (ptrs: seq<Id>, ok: bool, ghost blocks: seq<seq<Id>>)
    requires b.Valid() && Short32(ids)
    modifies b
    ensures b.Valid() && old(b.added) <= b.added && old(b.universe) <= b.universe
    ensures var l := AddAll(b.env, old(b.repo), PointerBlocks(ids), true);
      b.repo == l.repo && (ok <==> l.entries.Some?)
    ensures ok ==> BlocksOf(ids, blocks) && (NoCollision(b.env, b.universe) ==> Points(b.repo.store, ptrs, blocks))
  {
    ptrs, ok, blocks := [], true, [];
    ghost var datas: seq<bytes>, b0 := [], b.repo;
    WroteStart(b.env, b0, b.added, ids);
    var start := 0;
    while start < |ids| || start == 0
      invariant b.Valid() && old(b.added) <= b.added && old(b.universe) <= b.universe
      invariant Wrote(b.env, b0, b.repo, b.added, ids, start, datas, ptrs, blocks)
      decreases |ids| - start
    {
      var end := start + IDS_PER_CHUNK;
      if end > |ids| {
        end := |ids|;
      }
      ghost var b1 := b.repo;
      var id;
      ghost var data;
      id, ok, data := WriteBlock(b, ids[start..end]);
      if !ok {
        WriteFails(b.env, b0, b1, ids, start, end, datas, data);
        return;
      }
      WroteNext(b.env, b0, b1, b.repo, b.added, ids, start, end, datas, ptrs, blocks, data, id);
      blocks, datas, ptrs := blocks + [ids[start..end]], datas + [data], ptrs + [id];
      if end >= |ids| {
        AllWritten(b, b0, ids, datas, ptrs, blocks);
        return;
      }
      start := start + IDS_PER_CHUNK;
    }
  }

  ghost predicate FullBlocks(ids: seq<Id>, blocks: seq<seq<Id>>) {
    Concat(blocks) == ids && forall k :: 0 <= k < |blocks| ==> |blocks[k]| == IDS_PER_CHUNK
  }

  lemma NextBlock(ids: seq<Id>, start: nat, end: nat, blocks: seq<seq<Id>>)
    requires start <= end <= |ids| && end - start <= IDS_PER_CHUNK && FullBlocks(ids[..start], blocks)
    ensures end - start == IDS_PER_CHUNK ==> FullBlocks(ids[..end], blocks + [ids[start..end]])
    ensures (start < end || end == 0) ==> BlocksOf(ids[..end], blocks + [ids[start..end]])
  {
    ConcatSnoc(blocks, ids[start..end]);
    assert ids[..end] == ids[..start] + ids[start..end];
  }

  ghost predicate Filed(env: Env, added: set<bytes>, datas: seq<bytes>, ptrs: seq<Id>, blocks: seq<seq<Id>>) {
    && |ptrs| == |datas| == |blocks|
    && forall k :: 0 <= k < |ptrs| ==>
         datas[k] in added && ptrs[k] == env.idHash(datas[k]) && ParseBlock(datas[k]) == Some(blocks[k])
  }

  lemma FiledPoints(b: Builder, datas: seq<bytes>, ptrs: seq<Id>, blocks: seq<seq<Id>>)
    requires b.Valid() && Filed(b.env, b.added, datas, ptrs, blocks)
    ensures NoCollision(b.env, b.universe) ==> Points(b.repo.store, ptrs, blocks)
  {
  }

  // ---------------------------------------------------------------- reading

  /** The part of the archive metadata that leads to the items. */
  datatype Meta = Meta(itemPtrs: Option<seq<Id>>, items: Option<seq<Id>>)

  /** The ids the pointer blocks list, one block after the other. */
  function Resolve(store: map<Id, bytes>, ptrs: seq<Id>): Option<seq<Id>> {
    if ptrs == [] then Some([])
    else if ptrs[0] !in store then None
    else
      match ParseBlock(store[ptrs[0]])
      case None => None
      case Some(ids) =>
        match Resolve(store, ptrs[1..])
        case None => None
        case Some(rest) => Some(ids + rest)
  }

  /** Metadata with both lists, or with neither, is not an archive either tool writes. */
  function StreamIds(store: map<Id, bytes>, meta: Meta): Option<seq<Id>> {
    if meta.itemPtrs.Some? then if meta.items.Some? then None else Resolve(store, meta.itemPtrs.value)
    else meta.items
  }

  ghost function Fetch(store: map<Id, bytes>, ids: seq<Id>): Option<bytes> {
    if ids == [] then Some([])
    else if ids[0] !in store then None
    else
      match Fetch(store, ids[1..])
      case None => None
      case Some(rest) => Some(store[ids[0]] + rest)
  }

  /** All the values of the stream, if it can be read to its end and ends with a value. */
  ghost function ReadStream(store: map<Id, bytes>, ids: seq<Id>): Option<seq<Value>>
    requires Streams(Msg())
  {
    match Fetch(store, ids)
    case None => None
    case Some(data) =>
      var d := Drain(Msg(), data);
      if d.corrupt || d.rest != [] then None else Some(d.values)
  }

  class Archive {
    const store: map<Id, bytes>
    const meta: Meta
    // The resolved ids, once they have been asked for.
    var itemIDs: Option<seq<Id>>

    ghost predicate Valid()
      reads this
    {
      Streams(Msg()) && (itemIDs.Some? ==> itemIDs == StreamIds(store, meta))
    }

    constructor (store: map<Id, bytes>, meta: Meta)
      ensures Valid() && this.store == store && this.meta == meta
    {
      this.store, this.meta, itemIDs := store, meta, None;
      MsgStreams();
    }

    method ItemStreamIDs() returns (ids: Option<seq<Id>>)
      requires Valid()
      modifies this
      ensures Valid() && ids == StreamIds(store, meta)
    {
      if itemIDs.Some? {
        return itemIDs;
      }
      if meta.itemPtrs.Some? {
        if meta.items.Some? {
          return None;
        }
        var ptrs, all := meta.itemPtrs.value, [];
        assert ptrs[0..] == ptrs;
        PrependLaws(all, [], Resolve(store, ptrs));
        for i := 0 to |ptrs|
          invariant itemIDs == None
          invariant Resolve(store, ptrs) == Prepend(all, Resolve(store, ptrs[i..]))
        {
          assert ptrs[i..][0] == ptrs[i] && ptrs[i..][1..] == ptrs[i + 1..];
          if ptrs[i] !in store {
            return None;
          }
          var block := ParseBlock(store[ptrs[i]]);
          if block.None? {
            return None;
          }
          assert Resolve(store, ptrs[i..]) == Prepend(block.value, Resolve(store, ptrs[i + 1..]));
          PrependLaws(all, block.value, Resolve(store, ptrs[i + 1..]));
          all := all + block.value;
        }
        assert ptrs[|ptrs|..] == [] && all + [] == all;
        itemIDs := Some(all);
      } else {
        itemIDs := meta.items;
      }
      ids := itemIDs;
    }

    /** The items in stream order, fetched chunk by chunk. */
    method RawItems() returns (vs: Option<seq<Value>>)
      requires Valid()
      modifies this
      ensures Valid()
      ensures vs == match StreamIds(store, meta) case None => None case Some(ids) => ReadStream(store, ids)
    {
      var got := ItemStreamIDs();
      if got.None? {
        return None;
      }
      vs := ReadChunks(got.value);
    }

    method ReadChunks(ids: seq<Id>) returns (vs: Option<seq<Value>>)
      requires Streams(Msg())
      ensures vs == ReadStream(store, ids)
    {
      var u := new StreamUnpacker();
      var out: seq<Value> := [];
      ghost var seen: bytes, all := [], Fetch(store, ids);
      assert ids[0..] == ids;
      PrependLaws(seen, [], all);
      for i := 0 to |ids|
        invariant u.Valid() && fresh(u)
        invariant all == Prepend(seen, Fetch(store, ids[i..]))
        invariant Drain(Msg(), seen) == Drained(out, u.Pending(), false)
      {
        ghost var rest := Fetch(store, ids[i + 1..]);
        assert ids[i..][1..] == ids[i + 1..];
        if ids[i] !in store {
          return None;
        }
        var data := store[ids[i]];
        assert Fetch(store, ids[i..]) == Prepend(data, rest);
        PrependLaws(seen, data, rest);
        DrainSplit(Msg(), seen, data);
        u.Feed(data);
        var more, corrupt := u.Values();
        if corrupt {
          if rest.Some? {
            StaysCorrupt(seen + data, rest);
          }
          return None;
        }
        seen, out := seen + data, out + more;
      }
      assert all == Some(seen) by {
        assert seen + [] == seen;
      }
      if |u.buf| - u.off > 0 {
        return None;
      }
      vs := Some(out);
    }
  }

  lemma StaysCorrupt(seen: bytes, rest: Option<bytes>)
    requires Streams(Msg()) && Drain(Msg(), seen).corrupt && rest.Some?
    ensures Drain(Msg(), seen + rest.value).corrupt
  {
    DrainSplit(Msg(), seen, rest.value);
  }

  // ---------------------------------------------------------------- round trip

  lemma {:induction false} ResolvePoints(store: map<Id, bytes>, ptrs: seq<Id>, blocks: seq<seq<Id>>)
    requires Points(store, ptrs, blocks)
    ensures Resolve(store, ptrs) == Some(Concat(blocks))
    decreases |ptrs|
  {
    if ptrs != [] {
      ResolvePoints(store, ptrs[1..], blocks[1..]);
    }
  }

  lemma {:induction false} FetchPieces(env: Env, store: map<Id, bytes>, pieces: seq<bytes>, ids: seq<Id>)
    requires Ids(env, pieces, ids)
    requires forall k :: 0 <= k < |pieces| ==> ids[k] in store && store[ids[k]] == pieces[k]
    ensures Fetch(store, ids) == Some(Concat(pieces))
    decreases |ids|
  {
    if ids != [] {
      FetchPieces(env, store, pieces[1..], ids[1..]);
    }
  }

  /** Items stored as the chunks of their stream, and found through pointer blocks. */
  lemma ReadsBackAll(
      env: Env, store: map<Id, bytes>, ch: Chunker<Mask>, items: seq<Value>, encoded: seq<bytes>, stored: seq<bytes>,
      chunks: seq<Id>, ptrs: seq<Id>, blocks: seq<seq<Id>>)
    requires Streams(Msg()) && ch.Valid() && EncodesAll(Msg(), items, encoded)
    requires stored == Chunks(ch, Concat(encoded)) && Ids(env, stored, chunks)
    requires forall k :: 0 <= k < |stored| ==> chunks[k] in store && store[chunks[k]] == stored[k]
    requires BlocksOf(chunks, blocks) && Points(store, ptrs, blocks)
    ensures StreamIds(store, Meta(Some(ptrs), None)) == Some(chunks) && ReadStream(store, chunks) == Some(items)
  {
    var total := Concat(encoded);
    ResolvePoints(store, ptrs, blocks);
    FetchPieces(env, store, stored, chunks);
    ChunksPartition(ch, total);
    DrainEncodings(Msg(), items, encoded, []);
    assert total + [] == total && items + [] == items;
    assert Drain(Msg(), []) == Drained([], [], false);
  }

  /** Whatever is saved reads back: the same items in the same order with nothing left
      over, wherever item boundaries fall against chunk boundaries, for any number of
      items; unless two different objects share a hash. It fails only if what is still
      buffered, or a pointer block, cannot be stored. */
  method Save(s: ItemStream) returns (meta: Meta, ok: bool)
    requires s.Valid() && forall x :: |s.builder.env.idHash(x)| <= MAX_UINT32
    modifies s, s.builder, s.scratch
    ensures s.items == old(s.items) && Streams(Msg())
    ensures ok <==>
      var l := AddAll(s.builder.env, old(s.builder.repo), Due(s.Spec(), old(s.buf), true), false);
      && l.entries.Some? && Short32(s.chunks)
      && AddAll(s.builder.env, l.repo, PointerBlocks(s.chunks), true).entries.Some?
    ensures ok && NoCollision(s.builder.env, s.builder.universe) ==>
      var store := s.builder.repo.store;
      StreamIds(store, meta).Some? && ReadStream(store, StreamIds(store, meta).value) == Some(s.items)
  {
    MsgStreams();
    ok := s.Flush(true);
    if !ok {
      return Meta(None, None), false;
    }
    var ptrs;
    ghost var blocks;
    ptrs, ok, blocks := WriteItemPointers(s.builder, s.chunks);
    meta := Meta(Some(ptrs), None);
    if ok && NoCollision(s.builder.env, s.builder.universe) {
      ReadsBackAll(
        s.builder.env, s.builder.repo.store, s.Spec(), s.items, s.encoded, s.stored, s.chunks, ptrs, blocks);
    }
  }
}

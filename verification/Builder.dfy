/** Writing an archive: file contents through the chunker into the repository, and the
    item stream, chunked incrementally and found again through two levels of pointers. */
module ArchiveBuilder {
  import opened Bytes
  import Words
  import opened ChunkSpec
  import opened Readers
  import opened Driver
  import opened Buzhash
  import opened Store
  import opened Msgpack

  const ITEM_STREAM_BUFFER_SIZE: nat := 8 * 1024 * 1024
  const MAX_DATA_SIZE: nat := 20971479
  const IDS_PER_CHUNK: nat := MAX_DATA_SIZE / 40

  // ---------------------------------------------------------------- allocation

  /** A chunk as the chunker hands it out: an all-zero one is recorded by size alone. */
  datatype Chunk = Data(data: bytes) | Alloc(size: nat)

  method Classify(data: bytes) returns (c: Chunk)
    ensures c == if AllZero(data) then Alloc(|data|) else Data(data)
  {
    for i := 0 to |data|
      invariant forall j :: 0 <= j < i ==> data[j] == 0
    {
      if data[i] != 0 {
        return Data(data);
      }
    }
    c := Alloc(|data|);
  }

  /** A chunk's bytes, a hole expanded into zeros. */
  function ChunkData(c: Chunk): bytes {
    match c
    case Data(data) => data
    case Alloc(size) => Zeros(size)
  }

  // ---------------------------------------------------------------- the chunkers

  /** The chunkers the content of a file may go through. */
  datatype ContentChunker = WithoutWindow(gear: WindowLessChunker<Mask>) | WithWindow(buz: WindowedChunker<Words.Word>)
  {
    function Loop(): Driver {
      match this
      case WithoutWindow(c) => c.d
      case WithWindow(c) => c.d
    }

    ghost predicate Specified() {
      match this
      case WithoutWindow(c) => c.Spec().Valid()
      case WithWindow(c) => c.Spec().Valid()
    }

    /** It may have been through another stream before. */
    ghost predicate Reusable() {
      && Specified() && Loop().backing.Length == Loop().cfg.maxSize
      && match this
         case WithoutWindow(c) => c.algo.WindowLess? && c.d.cfg.Valid()
         case WithWindow(c) => c.algo.Windowed? && Rolls(c.algo)
    }

    method Reset(r: Reader)
      requires Reusable() && r.Valid()
      modifies Loop()
      ensures Valid() && Loop().r == r && Loop().Rem() == r.rest
    {
      match this {
        case WithoutWindow(c) => c.Reset(r);
        case WithWindow(c) => c.Reset(r);
      }
    }

    ghost predicate Valid()
      reads match this case WithoutWindow(c) => {c as object} case WithWindow(c) => {c}
      reads Loop(), Loop().r
    {
      && Specified()
      && match this
         case WithoutWindow(c) => c.Valid()
         case WithWindow(c) => c.Valid()
    }

    /** The chunks of a content, as specified. */
    ghost function Cuts(content: bytes): seq<bytes>
      requires Specified()
    {
      match this
      case WithoutWindow(c) => Chunks(c.Spec(), content)
      case WithWindow(c) => Chunks(c.Spec(), content)
    }

    /** The next chunk joins those before it; at the end there is no more. */
    method Next(ghost all: seq<bytes>, ghost cut: seq<bytes>) returns (res: Next)
      requires Valid() && all == cut + Cuts(Loop().Rem())
      modifies Loop(), Loop().r, Loop().backing
      ensures Valid() && Loop().r == old(Loop().r)
      ensures !res.CountMismatch? && Loop().r.failed == (old(Loop().r.failed) || res.ReadError?)
      ensures res.Cut? ==> |Loop().Rem()| < old(|Loop().Rem()|) && all == cut + [res.data] + Cuts(Loop().Rem())
      ensures res.EndOfStream? ==> all == cut && Loop().Rem() == [] && Loop().r.ends
      ensures res.ReadError? ==> all == cut + Cuts(Loop().Rem())
    {
      ghost var before := Loop().Rem();
      match this {
        case WithoutWindow(c) =>
          res := c.Next();
          if res.Cut? {
            DrainStep(c.Spec(), all, cut, before, res.data, c.d.Rem());
          }
        case WithWindow(c) =>
          res := c.Next();
          if res.Cut? {
            DrainStep(c.Spec(), all, cut, before, res.data, c.d.Rem());
          }
      }
      assert res.EndOfStream? ==> before == [] && cut + [] == cut;
    }
  }

  // ---------------------------------------------------------------- the builder

  /** Some of the chunks at the beginning have been added, and nothing else. */
  ghost predicate BeginningAdded(env: Env, b: Repo, datas: seq<bytes>, b': Repo) {
    exists k: nat :: k <= |datas| && AddAll(env, b, datas[..k], true).repo == b'
  }

  lemma BeginningIs(env: Env, b: Repo, datas: seq<bytes>, first: seq<bytes>, rest: seq<bytes>)
    requires datas == first + rest
    ensures BeginningAdded(env, b, datas, AddAll(env, b, first, true).repo)
  {
    assert datas[..|first|] == first;
  }

  lemma FailsInAll(env: Env, b: Repo, datas: seq<bytes>, first: seq<bytes>, rest: seq<bytes>)
    requires datas == first + rest && AddAll(env, b, first, true).entries.None?
    ensures AddAll(env, b, datas, true) == AddAll(env, b, first, true)
    ensures BeginningAdded(env, b, datas, AddAll(env, b, first, true).repo)
  {
    BeginningIs(env, b, datas, first, rest);
    AddAllFails(env, b, first, rest, true);
  }

  class Builder {
    const env: Env
    var repo: Repo
    // The data handed to the repository since the builder was made, and what it held then.
    ghost var universe: set<bytes>
    // The data of the chunks stored or found.
    ghost var added: set<bytes>

    ghost predicate Valid()
      reads this
    {
      added <= universe && (NoCollision(env, universe) ==> Holds(env, repo, universe, added))
    }

    constructor (env: Env, repo: Repo)
      requires ContentAddressed(env, repo)
      ensures Valid() && this.env == env && this.repo == repo
      ensures universe == repo.store.Values && added == {}
    {
      this.env := env;
      this.repo := repo;
      universe, added := repo.store.Values, {};
    }

    method AddChunk(data: bytes, counted: bool) returns (entry: Option<Entry>)
      requires Valid()
      modifies this
      ensures Valid() && Add(env, old(repo), data, counted) == Stored(entry, repo)
      ensures universe == old(universe) + {data}
      ensures added == if entry.Some? then old(added) + {data} else old(added)
      ensures entry.Some? ==> entry.value == Entry(env.idHash(data), |data|)
    {
      universe := universe + {data};
      HoldsMore(env, repo, old(universe), universe, added, data, counted);
      var id, size := env.idHash(data), |data|;
      repo := Count(repo, size, counted);
      if id in repo.index {
        added := added + {data};
        return Some(Entry(id, size));
      }
      if !env.formats(data) {
        return None;
      }
      if !env.puts(id, repo.store) {
        return None;
      }
      repo := repo.(store := repo.store[id := data]);
      if size > MAX_CHUNK {
        return None;
      }
      repo := Record(repo, id, data);
      added := added + {data};
      entry := Some(Entry(id, size));
    }

    /** One more chunk, and its entry behind those before it. */
    method AddCut(data: bytes, entries: seq<Entry>, ghost start: Repo, ghost cut: seq<bytes>)
      returns (out: Option<seq<Entry>>)
      requires Valid() && AddAll(env, start, cut, true) == Listed(Some(entries), repo)
      modifies this
      ensures Valid() && AddAll(env, start, cut + [data], true) == Listed(out, repo)
    {
      var c := Classify(data);
      ChunkDataIsData(data, c);
      AddAllSnoc(env, start, cut, data, true);
      var entry := AddChunk(ChunkData(c), true);
      out := if entry.None? then None else Some(entries + [entry.value]);
    }

    /** The first chunks have been added. */
    ghost predicate Adding(start: Repo, cut: seq<bytes>, out: Option<seq<Entry>>)
      reads this
    {
      Valid() && out.Some? && AddAll(env, start, cut, true) == Listed(out, repo)
    }

    /** The next chunk, if there is one, is cut and added. */
    method AddNext(ch: ContentChunker, sofar: Option<seq<Entry>>, ghost start: Repo, ghost all: seq<bytes>, ghost cut: seq<bytes>)
      returns (res: Next, out: Option<seq<Entry>>)
      requires ch.Valid() && Adding(start, cut, sofar) && all == cut + ch.Cuts(ch.Loop().Rem())
      modifies this, ch.Loop(), ch.Loop().r, ch.Loop().backing
      ensures ch.Valid() && ch.Loop().r == old(ch.Loop().r) && Valid() && !res.CountMismatch?
      ensures ch.Loop().r.failed == (old(ch.Loop().r.failed) || res.ReadError?)
      ensures res.Cut? ==>
        && |ch.Loop().Rem()| < old(|ch.Loop().Rem()|) && all == cut + [res.data] + ch.Cuts(ch.Loop().Rem())
        && AddAll(env, start, cut + [res.data], true) == Listed(out, repo)
      ensures !res.Cut? ==> out == sofar && Adding(start, cut, out)
      ensures res.EndOfStream? ==> all == cut && ch.Loop().r.ends
      ensures res.ReadError? ==> all == cut + ch.Cuts(ch.Loop().Rem())
    {
      out := sofar;
      res := ch.Next(all, cut);
      if res.Cut? {
        ghost var d, rem := ch.Loop(), ch.Loop().Rem();
        out := AddCut(res.data, out.value, start, cut);
        assert ch.Valid() && d.Rem() == rem;
      }
    }

    /** Cut and store, chunk by chunk, until the stream ends or something fails. */
    method AddCuts(ch: ContentChunker) returns (out: Option<seq<Entry>>)
      requires Valid() && ch.Valid()
      modifies this, ch.Loop(), ch.Loop().r, ch.Loop().backing
      ensures Valid() && ch.Loop().r == old(ch.Loop().r) && ch.Loop().r.Valid()
      ensures out.Some? ==> ch.Loop().r.ends && ch.Loop().r.failed == old(ch.Loop().r.failed)
      ensures out.Some? || !ch.Loop().r.failed ==>
        AddAll(env, old(repo), old(ch.Cuts(ch.Loop().Rem())), true) == Listed(out, repo)
      ensures out.None? ==> BeginningAdded(env, old(repo), old(ch.Cuts(ch.Loop().Rem())), repo)
    {
      ghost var d, before := ch.Loop(), repo;
      ghost var all, cut := ch.Cuts(d.Rem()), [];
      out := Some([]);
      while true
        invariant Adding(before, cut, out) && ch.Valid() && d.r == old(d.r) && d.r.failed == old(d.r.failed)
        invariant all == cut + ch.Cuts(d.Rem())
        decreases |d.Rem()|
      {
        var res;
        res, out := AddNext(ch, out, before, all, cut);
        ghost var tail := ch.Cuts(d.Rem());
        match res {
          case Cut(data) =>
            cut := cut + [data];
            if out.None? {
              FailsInAll(env, before, all, cut, tail);
              return;
            }
          case EndOfStream => return;
          case ReadError =>
            BeginningIs(env, before, all, cut, tail);
            return None;
          case CountMismatch => assert false;
        }
      }
    }

    /** The one-goroutine path: the chunker is reset to the reader, then cut and store. Unless
        a read fails it ends as adding the specified chunks does; if one does, the first of
        them have been added. */
    method ChunkFileSerial(ch: ContentChunker, r: Reader) returns (out: Option<seq<Entry>>)
      requires Valid() && ch.Reusable() && r.Valid()
      modifies this, r, ch.Loop(), ch.Loop().backing
      ensures Valid() && r.Valid()
      ensures out.Some? ==> r.ends && r.failed == old(r.failed)
      ensures out.Some? || !r.failed ==> AddAll(env, old(repo), ch.Cuts(old(r.rest)), true) == Listed(out, repo)
      ensures out.None? ==> BeginningAdded(env, old(repo), ch.Cuts(old(r.rest)), repo)
    {
      ch.Reset(r);
      out := AddCuts(ch);
    }
  }

  lemma ChunkDataIsData(data: bytes, c: Chunk)
    requires c == if AllZero(data) then Alloc(|data|) else Data(data)
    ensures ChunkData(c) == data
  {
    if AllZero(data) {
      AllZeroIsZeros(data);
    }
  }

  /** The repository is content-addressed, holds nothing but members of u, and holds all
      of `added`, each under its own hash. */
  ghost predicate Holds(env: Env, b: Repo, u: set<bytes>, added: set<bytes>) {
    && ContentAddressed(env, b) && b.store.Values <= u
    && forall d :: d in added ==> env.idHash(d) in b.store && b.store[env.idHash(d)] == d
  }

  lemma HoldsMore(env: Env, b: Repo, u0: set<bytes>, u: set<bytes>, added: set<bytes>, data: bytes, counted: bool)
    requires u0 <= u && data in u && (NoCollision(env, u0) ==> Holds(env, b, u0, added))
    ensures NoCollision(env, u) ==>
      var s := Add(env, b, data, counted);
      Holds(env, s.repo, u, if s.entry.Some? then added + {data} else added)
  {
    if NoCollision(env, u) {
      AddKeeps(env, b, data, counted, u);
      if Add(env, b, data, counted).entry.Some? {
        AddFiles(env, b, data, counted, u);
      }
    }
  }
}

/** The repository as one backup sees it: the chunk index, the stored objects and the
    running counts, with the serial and the pipelined way of storing a chunk. */
module Store {
  import opened Bytes
  import opened Sums

  type Id = bytes

  const MAX_CHUNK: nat := 0xffff_ffff

  /** What lies outside: the id hash, whether an object can be built from data, and whether
      the repository takes it, which may depend on what it already holds. */
  datatype Env = Env(idHash: bytes -> Id, formats: bytes -> bool, puts: (Id, map<Id, bytes>) -> bool)

  datatype Stats = Stats(chunks: nat, newChunks: nat, originalSize: nat, dedupedSize: nat)

  /** The index knows a chunk's plaintext size; the store holds its object, kept here as the
      plaintext a lossless Format and Parse lead back to. */
  datatype Repo = Repo(index: map<Id, nat>, store: map<Id, bytes>, stats: Stats)

  datatype Entry = Entry(id: Id, size: nat)

  datatype Stored = Stored(entry: Option<Entry>, repo: Repo)

  function Count(b: Repo, size: nat, counted: bool): Repo {
    b.(stats := b.stats.(
      chunks := b.stats.chunks + 1,
      originalSize := b.stats.originalSize + if counted then size else 0))
  }

  function Record(b: Repo, id: Id, data: bytes): Repo {
    b.(
      index := b.index[id := |data|],
      stats := b.stats.(newChunks := b.stats.newChunks + 1, dedupedSize := b.stats.dedupedSize + |data|))
  }

  /** Stores one chunk unless the index knows it already. The size is checked only after
      the object has been put. */
  function Add(env: Env, b: Repo, data: bytes, counted: bool): Stored {
    var id, b1 := env.idHash(data), Count(b, |data|, counted);
    if id in b.index then Stored(Some(Entry(id, |data|)), b1)
    else if !env.formats(data) || !env.puts(id, b.store) then Stored(None, b1)
    else
      var b2 := b1.(store := b1.store[id := data]);
      if |data| > MAX_CHUNK then Stored(None, b2)
      else Stored(Some(Entry(id, |data|)), Record(b2, id, data))
  }

  /** One chunk after the parallel stage: hashed, and formatted or not. */
  datatype Formatted = Formatted(data: bytes, id: Id, ok: bool)

  function Format(env: Env, data: bytes): Formatted {
    Formatted(data, env.idHash(data), env.formats(data))
  }

  /** The serial tail of the pipeline. The size is checked before the object is put. */
  function Commit(env: Env, b: Repo, res: Formatted): Stored {
    var b1 := Count(b, |res.data|, true);
    if res.id in b.index then Stored(Some(Entry(res.id, |res.data|)), b1)
    else if |res.data| > MAX_CHUNK then Stored(None, b1)
    else if !env.puts(res.id, b.store) then Stored(None, b1)
    else
      var b2 := b1.(store := b1.store[res.id := res.data]);
      Stored(Some(Entry(res.id, |res.data|)), Record(b2, res.id, res.data))
  }

  /** Where both ways succeed they do the same. They differ in when they fail: the pipeline
      formats a chunk even when it turns out to be a duplicate. */
  lemma CommitIsAdd(env: Env, b: Repo, data: bytes)
    ensures var c, a := Commit(env, b, Format(env, data)), Add(env, b, data, true);
      env.formats(data) ==> c.entry == a.entry && (a.entry.Some? ==> c == a)
  {
  }

  // ---------------------------------------------------------------- several chunks

  datatype Listed = Listed(entries: Option<seq<Entry>>, repo: Repo)

  /** Storing the chunks one after the other, stopping at the first failure. */
  function AddAll(env: Env, b: Repo, datas: seq<bytes>, counted: bool): (l: Listed)
    ensures l.entries.Some? ==> |l.entries.value| == |datas|
    decreases |datas|
  {
    if datas == [] then Listed(Some([]), b)
    else
      var s := Add(env, b, datas[0], counted);
      if s.entry.None? then Listed(None, s.repo)
      else
        var rest := AddAll(env, s.repo, datas[1..], counted);
        if rest.entries.None? then rest
        else Listed(Some([s.entry.value] + rest.entries.value), rest.repo)
  }

  lemma {:induction false} AddAllSnoc(env: Env, b: Repo, datas: seq<bytes>, last: bytes, counted: bool)
    ensures var l := AddAll(env, b, datas, counted);
      AddAll(env, b, datas + [last], counted) ==
        if l.entries.None? then l
        else
          var s := Add(env, l.repo, last, counted);
          Listed(if s.entry.None? then None else Some(l.entries.value + [s.entry.value]), s.repo)
    decreases |datas|
  {
    var all := datas + [last];
    if datas == [] {
      assert all == [last] && all[1..] == [];
      var s := Add(env, b, last, counted);
      if s.entry.Some? {
        assert AddAll(env, s.repo, [], counted) == Listed(Some([]), s.repo);
        assert [s.entry.value] + [] == [] + [s.entry.value];
      }
    } else {
      var s := Add(env, b, datas[0], counted);
      assert all[0] == datas[0] && all[1..] == datas[1..] + [last];
      if s.entry.Some? {
        AddAllSnoc(env, s.repo, datas[1..], last, counted);
        var l := AddAll(env, s.repo, datas[1..], counted);
        if l.entries.Some? {
          var t := Add(env, l.repo, last, counted);
          if t.entry.Some? {
            assert [s.entry.value] + (l.entries.value + [t.entry.value])
              == ([s.entry.value] + l.entries.value) + [t.entry.value];
          }
        }
      }
    }
  }

  /** After a failure no more chunks are added. */
  lemma {:induction false} AddAllFails(env: Env, b: Repo, datas: seq<bytes>, more: seq<bytes>, counted: bool)
    requires AddAll(env, b, datas, counted).entries.None?
    ensures AddAll(env, b, datas + more, counted) == AddAll(env, b, datas, counted)
    decreases |datas|
  {
    assert (datas + more)[0] == datas[0] && (datas + more)[1..] == datas[1..] + more;
    var s := Add(env, b, datas[0], counted);
    if s.entry.Some? {
      AddAllFails(env, s.repo, datas[1..], more, counted);
    }
  }

  // ---------------------------------------------------------------- accounting

  ghost function SizeIn(m: map<Id, nat>): Id -> int {
    (id: Id) => if id in m then m[id] else 0
  }

  /** The plaintext size of everything the index knows. */
  ghost function TotalSize(m: map<Id, nat>): int {
    Sum(m.Keys, SizeIn(m))
  }

  /** New chunks and deduplicated bytes are exactly what the index has gained; every
      reference and all its bytes are counted, duplicate or not. */
  ghost predicate Accounts(b0: Repo, b1: Repo, refs: nat, size: nat) {
    && b0.index.Keys <= b1.index.Keys
    && b1.stats.chunks == b0.stats.chunks + refs
    && b1.stats.originalSize == b0.stats.originalSize + size
    && b1.stats.newChunks - b0.stats.newChunks == |b1.index| - |b0.index|
    && b1.stats.dedupedSize - b0.stats.dedupedSize == TotalSize(b1.index) - TotalSize(b0.index)
  }

  lemma TotalSizeInsert(m: map<Id, nat>, id: Id, size: nat)
    requires id !in m
    ensures TotalSize(m[id := size]) == TotalSize(m) + size && |m[id := size]| == |m| + 1
  {
    var m1 := m[id := size];
    assert m1.Keys == m.Keys + {id};
    SumAdd(m.Keys, SizeIn(m1), id);
    SumSame(m.Keys, SizeIn(m), SizeIn(m1));
  }

  lemma AddAccounts(env: Env, b: Repo, data: bytes, counted: bool)
    ensures Accounts(b, Add(env, b, data, counted).repo, 1, if counted then |data| else 0)
  {
    var id := env.idHash(data);
    if id !in b.index {
      TotalSizeInsert(b.index, id, |data|);
    }
  }

  function Lengths(datas: seq<bytes>): nat {
    if datas == [] then 0 else |datas[0]| + Lengths(datas[1..])
  }

  /** How many chunks were tried before the first failure, the failing one included. */
  function Tried(env: Env, b: Repo, datas: seq<bytes>, counted: bool): (k: nat)
    ensures k <= |datas|
    ensures AddAll(env, b, datas, counted).entries.Some? ==> k == |datas|
    decreases |datas|
  {
    if datas == [] then 0
    else
      var s := Add(env, b, datas[0], counted);
      1 + if s.entry.None? then 0 else Tried(env, s.repo, datas[1..], counted)
  }

  /** The books are right after a failure, too: a chunk that could not be stored has been
      counted as a reference, and as nothing else. Metadata counts as references, not as content. */
  lemma {:induction false} AddAllAccounts(env: Env, b: Repo, datas: seq<bytes>, counted: bool)
    ensures var k := Tried(env, b, datas, counted);
      Accounts(b, AddAll(env, b, datas, counted).repo, k, if counted then Lengths(datas[..k]) else 0)
    decreases |datas|
  {
    if datas != [] {
      AddAccounts(env, b, datas[0], counted);
      var s, k := Add(env, b, datas[0], counted), Tried(env, b, datas, counted);
      assert datas[..k][0] == datas[0];
      if s.entry.None? {
        assert datas[..1][1..] == [];
      } else {
        AddAllAccounts(env, s.repo, datas[1..], counted);
        assert datas[..k][1..] == datas[1..][..k - 1];
      }
    }
  }

  /** The index knows the chunk, or it can be formatted and put and its size can be indexed. */
  ghost predicate Storable(env: Env, b: Repo, data: bytes) {
    env.idHash(data) in b.index
    || (env.formats(data) && env.puts(env.idHash(data), b.store) && |data| <= 0xffff_ffff)
  }

  /** What a failed addition leaves behind: an object too large to be indexed has been put. */
  lemma FailedAddLeaves(env: Env, b: Repo, data: bytes, counted: bool)
    requires Add(env, b, data, counted).entry.None?
    ensures var r, id := Add(env, b, data, counted).repo, env.idHash(data);
      r.index == b.index && r.store == if env.formats(data) && env.puts(id, b.store) then b.store[id := data] else b.store
  {
  }

  /** All chunks are added exactly when each can be stored by the time it comes to it. */
  lemma {:induction false} AddAllSucceedsIff(env: Env, b: Repo, datas: seq<bytes>, counted: bool)
    ensures AddAll(env, b, datas, counted).entries.Some? <==>
      forall k :: 0 <= k < |datas| ==> Storable(env, AddAll(env, b, datas[..k], counted).repo, datas[k])
    decreases |datas|
  {
    if datas != [] {
      var s, rest := Add(env, b, datas[0], counted), datas[1..];
      assert datas[..0] == [];
      if s.entry.Some? {
        AddAllSucceedsIff(env, s.repo, rest, counted);
        forall k | 0 < k < |datas|
          ensures AddAll(env, b, datas[..k], counted).repo == AddAll(env, s.repo, rest[..k - 1], counted).repo
        {
          assert datas[..k][0] == datas[0] && datas[..k][1..] == rest[..k - 1];
        }
        if k :| 0 <= k < |rest| && !Storable(env, AddAll(env, s.repo, rest[..k], counted).repo, rest[k]) {
          assert !Storable(env, AddAll(env, b, datas[..k + 1], counted).repo, datas[k + 1]);
        }
      }
    }
  }

  // ---------------------------------------------------------------- content addressing

  /** Every stored object is filed under its own hash, and the index lists only what is
      stored, at its true size. */
  ghost predicate ContentAddressed(env: Env, b: Repo) {
    && (forall id :: id in b.store ==> env.idHash(b.store[id]) == id)
    && (forall id :: id in b.index ==> id in b.store && b.index[id] == |b.store[id]|)
  }

  /** No two members of u share a hash. */
  ghost predicate NoCollision(env: Env, u: set<bytes>) {
    forall x, y :: x in u && y in u && env.idHash(x) == env.idHash(y) ==> x == y
  }

  /** What was stored stays readable under the same id. */
  ghost predicate Keeps(b0: Repo, b1: Repo) {
    && (forall id :: id in b0.store ==> id in b1.store && b1.store[id] == b0.store[id])
    && b0.index.Keys <= b1.index.Keys
  }

  /** Putting data under its hash adds it and changes nothing, short of a collision. */
  lemma PutKeeps(env: Env, store: map<Id, bytes>, data: bytes, u: set<bytes>)
    requires (forall id :: id in store ==> env.idHash(store[id]) == id) && store.Values <= u
    requires data in u && NoCollision(env, u)
    ensures env.idHash(data) in store ==> store[env.idHash(data)] == data
    ensures store[env.idHash(data) := data].Values <= u
  {
    var id := env.idHash(data);
    if id in store {
      assert store[id] in store.Values;
    }
    forall v | v in store[id := data].Values
      ensures v in u
    {
      assert v == data || v in store.Values;
    }
  }

  /** An addition changes nothing, stores the data, or stores and indexes it. */
  ghost predicate Grows(id: Id, data: bytes, b0: Repo, b1: Repo) {
    && (b1.store == b0.store || b1.store == b0.store[id := data])
    && (b1.index == b0.index || (b1.index == b0.index[id := |data|] && b1.store == b0.store[id := data]))
  }

  lemma GrowsKeeps(env: Env, b0: Repo, b1: Repo, data: bytes, u: set<bytes>)
    requires ContentAddressed(env, b0) && b0.store.Values <= u && data in u && NoCollision(env, u)
    requires Grows(env.idHash(data), data, b0, b1)
    ensures ContentAddressed(env, b1) && b1.store.Values <= u && Keeps(b0, b1)
  {
    PutKeeps(env, b0.store, data, u);
  }

  lemma AddKeeps(env: Env, b: Repo, data: bytes, counted: bool, u: set<bytes>)
    requires ContentAddressed(env, b) && b.store.Values <= u && data in u && NoCollision(env, u)
    ensures var r := Add(env, b, data, counted).repo;
      ContentAddressed(env, r) && r.store.Values <= u && Keeps(b, r)
  {
    GrowsKeeps(env, b, Add(env, b, data, counted).repo, data, u);
  }

  /** What was added is found under its hash. */
  lemma AddFiles(env: Env, b: Repo, data: bytes, counted: bool, u: set<bytes>)
    requires ContentAddressed(env, b) && b.store.Values <= u && data in u && NoCollision(env, u)
    requires Add(env, b, data, counted).entry.Some?
    ensures var s, id := Add(env, b, data, counted), env.idHash(data);
      s.entry.value == Entry(id, |data|) && id in s.repo.store && s.repo.store[id] == data
  {
    PutKeeps(env, b.store, data, u);
  }

  /** The entries name chunks that are stored under their ids. */
  ghost predicate Lists(store: map<Id, bytes>, entries: seq<Entry>, datas: seq<bytes>) {
    && |entries| == |datas|
    && forall i :: 0 <= i < |entries| ==> entries[i].id in store && store[entries[i].id] == datas[i]
  }

  /** All chunks added are found under the ids of their entries. */
  lemma {:induction false} AddAllFiles(env: Env, b: Repo, datas: seq<bytes>, counted: bool, u: set<bytes>)
    requires ContentAddressed(env, b) && b.store.Values <= u && NoCollision(env, u)
    requires forall d :: d in datas ==> d in u
    requires AddAll(env, b, datas, counted).entries.Some?
    ensures var l := AddAll(env, b, datas, counted);
      Lists(l.repo.store, l.entries.value, datas) && Keeps(b, l.repo)
    decreases |datas|
  {
    if datas != [] {
      var s := Add(env, b, datas[0], counted);
      AddKeeps(env, b, datas[0], counted, u);
      AddFiles(env, b, datas[0], counted, u);
      AddAllFiles(env, s.repo, datas[1..], counted, u);
    }
  }
}

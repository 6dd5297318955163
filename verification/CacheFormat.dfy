/** The file of the files cache, told from the values it holds: what is written, and exactly
    which values are read back as entries. */
module CacheFormat {
  import opened Bytes
  import opened Msgpack
  import opened FilesCache

  /** The first value under a text key. */
  ghost predicate FirstUnder(m: seq<Value>, name: bytes, v: Value, i: nat) {
    2 * i + 1 < |m| && m[2 * i] == Str(name) && m[2 * i + 1] == v && forall j :: 0 <= j < i ==> m[2 * j] != Str(name)
  }

  ghost predicate Under(m: seq<Value>, name: bytes, v: Value) {
    exists i: nat :: FirstUnder(m, name, v, i)
  }

  lemma {:induction false} GetIff(m: seq<Value>, name: bytes, v: Value)
    ensures Get(m, name) == Some(v) <==> Under(m, name, v)
  {
    if |m| >= 2 && m[0] == Str(name) {
      assert Get(m, name) == Some(v) ==> FirstUnder(m, name, v, 0);
      assert forall i: nat :: FirstUnder(m, name, v, i) ==> i == 0 || m[2 * 0] != Str(name);
    } else if |m| >= 2 {
      GetIff(m[2..], name, v);
      if i: nat :| FirstUnder(m[2..], name, v, i) {
        NextUnder(m, name, v, i);
      }
      if i: nat :| FirstUnder(m, name, v, i) {
        assert i > 0;
        NextUnder(m, name, v, i - 1);
      }
    }
  }

  lemma NextUnder(m: seq<Value>, name: bytes, v: Value, i: nat)
    requires |m| >= 2 && m[0] != Str(name)
    ensures FirstUnder(m[2..], name, v, i) <==> FirstUnder(m, name, v, i + 1)
  {
    assert forall j :: 0 <= j && 2 * j < |m| - 2 ==> m[2..][2 * j] == m[2 * (j + 1)];
    if FirstUnder(m[2..], name, v, i) {
      forall j | 0 <= j < i + 1
        ensures m[2 * j] != Str(name)
      {
        assert j > 0 ==> m[2..][2 * (j - 1)] == m[2 * j];
      }
    }
  }

  /** A list of chunks: pairs of an id and a 64-bit size. */
  ghost predicate AreChunks(vs: seq<Value>, chunks: seq<ChunkRef>) {
    |vs| == |chunks| && forall i :: 0 <= i < |vs| ==>
      vs[i] == Arr([Bin(chunks[i].id), Int(chunks[i].size)]) && -0x8000_0000_0000_0000 <= chunks[i].size < 0x8000_0000_0000_0000
  }

  lemma ChunkIff(v: Value, c: ChunkRef)
    ensures DecodeChunk(v) == Some(c) <==> AreChunks([v], [c])
  {
    if DecodeChunk(v) == Some(c) {
      assert v.elems == [Bin(c.id), Int(c.size)];
    }
    if AreChunks([v], [c]) {
      assert [v][0] == Arr([Bin([c][0].id), Int([c][0].size)]);
    }
  }

  lemma {:induction false} ChunksIff(vs: seq<Value>, chunks: seq<ChunkRef>)
    ensures DecodeChunks(vs) == Some(chunks) <==> AreChunks(vs, chunks)
  {
    if vs != [] && chunks != [] {
      ChunkIff(vs[0], chunks[0]);
      ChunksIff(vs[1..], chunks[1..]);
      assert chunks == [chunks[0]] + chunks[1..];
      AreChunksCons(vs, chunks);
      if DecodeChunks(vs) == Some(chunks) {
        assert DecodeChunks(vs[1..]).value == chunks[1..];
      }
    }
  }

  lemma AreChunksCons(vs: seq<Value>, chunks: seq<ChunkRef>)
    requires vs != [] && chunks != []
    ensures AreChunks(vs, chunks) <==> AreChunks([vs[0]], [chunks[0]]) && AreChunks(vs[1..], chunks[1..])
  {
    if AreChunks([vs[0]], [chunks[0]]) && AreChunks(vs[1..], chunks[1..]) {
      assert [vs[0]][0] == vs[0];
      forall i | 0 <= i < |vs|
        ensures vs[i] == Arr([Bin(chunks[i].id), Int(chunks[i].size)])
          && -0x8000_0000_0000_0000 <= chunks[i].size < 0x8000_0000_0000_0000
      {
        assert i > 0 ==> vs[i] == vs[1..][i - 1] && chunks[i] == chunks[1..][i - 1];
      }
    }
  }

  /** Under a name there is a 64-bit number. */
  ghost predicate NumberUnder(m: seq<Value>, name: bytes, n: int) {
    Under(m, name, Int(n)) && -0x8000_0000_0000_0000 <= n < 0x8000_0000_0000_0000
  }

  lemma NumberIff(m: seq<Value>, name: bytes, n: int)
    ensures IntAt(m, name) == Some(n) <==> NumberUnder(m, name, n)
  {
    GetIff(m, name, Int(n));
  }

  /** A map that holds an entry, whatever the order of its fields and whatever else is in
      it: "k", "a", "i", "s", "c", "m" and "h". */
  ghost predicate IsEntry(m: seq<Value>, key: Key, e: Entry, list: seq<Value>) {
    && Under(m, [0x6b], Bin(key)) && NumberUnder(m, [0x61], e.age) && NumberUnder(m, [0x69], e.inode)
    && NumberUnder(m, [0x73], e.size) && NumberUnder(m, [0x63], e.ctime) && NumberUnder(m, [0x6d], e.mtime)
    && Under(m, [0x68], Arr(list)) && AreChunks(list, e.chunks)
  }

  lemma EntryIff(m: seq<Value>, key: Key, e: Entry)
    ensures DecodeEntry(Map(m)) == Some((key, e)) <==> exists list :: IsEntry(m, key, e, list)
  {
    GetIff(m, KEY, Bin(key));
    NumberIff(m, AGE, e.age);
    NumberIff(m, INODE, e.inode);
    NumberIff(m, SIZE, e.size);
    NumberIff(m, CTIME, e.ctime);
    NumberIff(m, MTIME, e.mtime);
    if DecodeEntry(Map(m)) == Some((key, e)) {
      var list := Get(m, CHUNKS).value.elems;
      GetIff(m, CHUNKS, Arr(list));
      ChunksIff(list, e.chunks);
      assert IsEntry(m, key, e, list);
    }
    if list :| IsEntry(m, key, e, list) {
      GetIff(m, CHUNKS, Arr(list));
      ChunksIff(list, e.chunks);
    }
  }

  /** Value i of a list holds the entry. */
  ghost predicate Holds(list: seq<Value>, i: nat, key: Key, e: Entry) {
    i < |list| && list[i].Map? && exists chunks :: IsEntry(list[i].entries, key, e, chunks)
  }

  lemma HoldsIff(list: seq<Value>, i: nat, key: Key, e: Entry)
    requires i < |list|
    ensures Holds(list, i, key, e) <==> DecodeEntry(list[i]) == Some((key, e))
  {
    if list[i].Map? {
      EntryIff(list[i].entries, key, e);
    }
  }

  ghost predicate NoneBehind(list: seq<Value>, i: nat, key: Key) {
    forall j: nat, o: Entry :: i < j ==> !Holds(list, j, key, o)
  }

  /** The last value that holds an entry for the key holds this one. */
  ghost predicate HeldLast(list: seq<Value>, key: Key, e: Entry) {
    exists i: nat :: Holds(list, i, key, e) && NoneBehind(list, i, key)
  }

  predicate Decoded(list: seq<Value>, i: nat, key: Key, e: Entry) {
    i < |list| && DecodeEntry(list[i]) == Some((key, e))
  }

  ghost predicate NoneDecoded(list: seq<Value>, i: nat, key: Key) {
    forall j: nat, o: Entry :: i < j ==> !Decoded(list, j, key, o)
  }

  ghost predicate DecodedLast(list: seq<Value>, key: Key, e: Entry) {
    exists i: nat :: Decoded(list, i, key, e) && NoneDecoded(list, i, key)
  }

  lemma HeldIsDecoded(list: seq<Value>, key: Key, e: Entry)
    ensures HeldLast(list, key, e) <==> DecodedLast(list, key, e)
  {
    forall i: nat, o: Entry
      ensures Holds(list, i, key, o) <==> Decoded(list, i, key, o)
    {
      if i < |list| {
        HoldsIff(list, i, key, o);
      }
    }
    assert forall i: nat :: NoneBehind(list, i, key) <==> NoneDecoded(list, i, key);
  }

  /** The last value decides if it holds an entry for the key. */
  lemma DecodedHere(list: seq<Value>, n: nat, key: Key, o: Entry, e: Entry)
    requires |list| == n + 1 && Decoded(list, n, key, o)
    ensures DecodedLast(list, key, e) <==> e == o
  {
    assert NoneDecoded(list, n, key);
    assert forall i: nat :: i < n ==> !NoneDecoded(list, i, key);
  }

  lemma DecodedBefore(list: seq<Value>, n: nat, key: Key, e: Entry)
    requires |list| == n + 1 && forall o: Entry :: !Decoded(list, n, key, o)
    ensures DecodedLast(list, key, e) <==> DecodedLast(list[..n], key, e)
  {
    var init := list[..n];
    assert forall i: nat, o: Entry :: Decoded(init, i, key, o) <==> Decoded(list, i, key, o);
    assert forall i: nat :: NoneDecoded(init, i, key) <==> NoneDecoded(list, i, key);
  }

  lemma {:induction false} LastIsIn(list: seq<Value>, key: Key, e: Entry)
    ensures EntryAt(EntriesIn(list), key) == Some(e) <==> DecodedLast(list, key, e)
  {
    if list != [] {
      var n := |list| - 1;
      LastIsIn(list[..n], key, e);
      var d := DecodeEntry(list[n]);
      if d.Some? && d.value.0 == key {
        assert Decoded(list, n, key, d.value.1);
        DecodedHere(list, n, key, d.value.1, e);
      } else {
        DecodedBefore(list, n, key, e);
      }
    }
  }

  lemma EntriesInIff(list: seq<Value>, key: Key, e: Entry)
    ensures EntryAt(EntriesIn(list), key) == Some(e) <==> HeldLast(list, key, e)
  {
    HeldIsDecoded(list, key, e);
    LastIsIn(list, key, e);
  }

  /** The file: a map with "BORGE_FILES_CACHE_1" under "magic" and the list under "entries".
      Anything else yields no entries. */
  ghost predicate IsCacheFile(m: seq<Value>, list: seq<Value>) {
    && Under(m, [0x6d, 0x61, 0x67, 0x69, 0x63], Str([
         0x42, 0x4f, 0x52, 0x47, 0x45, 0x5f, 0x46, 0x49, 0x4c, 0x45, 0x53, 0x5f, 0x43, 0x41, 0x43, 0x48, 0x45, 0x5f, 0x31]))
    && Under(m, [0x65, 0x6e, 0x74, 0x72, 0x69, 0x65, 0x73], Arr(list))
  }

  ghost predicate Stores(file: bytes, m: seq<Value>, list: seq<Value>) {
    Unmarshal(file) == Some(Map(m)) && IsCacheFile(m, list)
  }

  /** Exactly these entries are restored from a file. */
  lemma RestoredIff(file: bytes, key: Key, e: Entry)
    ensures EntryAt(Restored(file), key) == Some(e) <==> exists m, list :: Stores(file, m, list) && HeldLast(list, key, e)
  {
    if Unmarshal(file).Some? && Unmarshal(file).value.Map? {
      var m := Unmarshal(file).value.entries;
      GetIff(m, MAGIC, Str(CACHE_FILE_MAGIC));
      forall list
        ensures Get(m, ENTRIES) == Some(Arr(list)) <==> Under(m, ENTRIES, Arr(list))
      {
        GetIff(m, ENTRIES, Arr(list));
      }
      forall list
        ensures EntryAt(EntriesIn(list), key) == Some(e) <==> HeldLast(list, key, e)
      {
        EntriesInIff(list, key, e);
      }
      if EntryAt(Restored(file), key) == Some(e) {
        var list := Get(m, ENTRIES).value.elems;
        assert Stores(file, m, list) && HeldLast(list, key, e);
      }
    }
  }

  /** What is written is such a file, and its entries are one backup older. */
  lemma WrittenIs(key: Key, e: Entry, list: seq<Value>)
    requires Fits(key, e)
    ensures IsCacheFile(FileValue(list).entries, list)
    ensures var older := e.(age := e.age + 1);
      exists chunks :: IsEntry(EncodeEntry(key, e).entries, key, older, chunks)
  {
    var m := FileValue(list).entries;
    assert FirstUnder(m, MAGIC, Str(CACHE_FILE_MAGIC), 0) && m[2 * 0] == Str(MAGIC);
    assert FirstUnder(m, ENTRIES, Arr(list), 1);
    EntryRoundTrip(key, e);
    EntryIff(EncodeEntry(key, e).entries, key, e.(age := e.age + 1));
  }
}

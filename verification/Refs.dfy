/** Which objects archives refer to: the mark phase of a compaction, and the decomposition
    of the stored sizes by who refers to what. */
module Refs {
  import opened Bytes
  import opened Streaming
  import opened Msgpack
  import opened Unpacker
  import opened Store
  import opened ItemStream
  import opened Sums

  // ---------------------------------------------------------------- reading an archive

  /** How an archive object and an item are taken apart. */
  datatype Format = Format(open: bytes -> Option<Meta>, chunks: Value -> Option<seq<Entry>>)

  /** A reference as a walk reports it; sizes are cut to 32 bits, and are 0 for metadata. */
  datatype Ref = Ref(id: Id, size: nat)

  function Plain(ids: seq<Id>): (refs: seq<Ref>)
    ensures |refs| == |ids|
  {
    seq(|ids|, i requires 0 <= i < |ids| => Ref(ids[i], 0))
  }

  function Sized(entries: seq<Entry>): (refs: seq<Ref>)
    ensures |refs| == |entries|
  {
    seq(|entries|, i requires 0 <= i < |entries| => Ref(entries[i].id, entries[i].size % 0x1_0000_0000))
  }

  function AllChunks(f: Format, items: seq<Value>): Option<seq<Entry>> {
    if items == [] then Some([])
    else
      match f.chunks(items[0])
      case None => None
      case Some(es) => Prepend(es, AllChunks(f, items[1..]))
  }

  /** What opening an archive and reading its items leads through. */
  datatype Listing = Listing(meta: Meta, streamIds: seq<Id>, items: seq<Value>, chunks: seq<Entry>)

  ghost function List(f: Format, store: map<Id, bytes>, id: Id): Option<Listing>
    requires Streams(Msg())
  {
    if id !in store then None
    else
      match f.open(store[id])
      case None => None
      case Some(meta) =>
        match StreamIds(store, meta)
        case None => None
        case Some(ids) =>
          match ReadStream(store, ids)
          case None => None
          case Some(items) =>
            match AllChunks(f, items)
            case None => None
            case Some(es) => Some(Listing(meta, ids, items, es))
  }

  function Pointers(meta: Meta): seq<Id> {
    if meta.itemPtrs.Some? then meta.itemPtrs.value else []
  }

  /** The references of one archive; None when it cannot be read. */
  ghost function Walk(f: Format, store: map<Id, bytes>, id: Id): Option<seq<Ref>>
    requires Streams(Msg())
  {
    match List(f, store, id)
    case None => None
    case Some(l) => Some([Ref(id, 0)] + Plain(Pointers(l.meta)) + Plain(l.streamIds) + Sized(l.chunks))
  }

  /** The contents of the chunks, None for one that is not there or has another size. */
  function Contents(store: map<Id, bytes>, es: seq<Entry>): (c: seq<Option<bytes>>)
    ensures |c| == |es|
  {
    seq(|es|, i requires 0 <= i < |es| =>
      if es[i].id in store && |store[es[i].id]| == es[i].size then Some(store[es[i].id]) else None)
  }

  /** All that can be read of an archive: its items and the contents of its files. */
  ghost function Read(f: Format, store: map<Id, bytes>, id: Id): Option<(seq<Value>, seq<Option<bytes>>)>
    requires Streams(Msg())
  {
    match List(f, store, id)
    case None => None
    case Some(l) => Some((l.items, Contents(store, l.chunks)))
  }

  // ---------------------------------------------------------------- what a walk and a read consist of

  /** How many chunks an item has. */
  function Count(f: Format, it: Value): nat {
    if f.chunks(it).Some? then |f.chunks(it).value| else 0
  }

  /** How many chunks the first k items have. */
  function Before(f: Format, items: seq<Value>, k: nat): nat
    requires k <= |items|
    decreases k
  {
    if k == 0 then 0 else Count(f, items[0]) + Before(f, items[1..], k - 1)
  }

  lemma {:induction false} AllChunksAt(f: Format, items: seq<Value>)
    ensures AllChunks(f, items).Some? <==> forall k :: 0 <= k < |items| ==> f.chunks(items[k]).Some?
    ensures AllChunks(f, items).Some? ==> |AllChunks(f, items).value| == Before(f, items, |items|)
  {
    if items != [] {
      AllChunksAt(f, items[1..]);
      assert forall k :: 0 < k < |items| ==> items[k] == items[1..][k - 1];
      assert forall k :: 0 <= k < |items| - 1 ==> items[1..][k] == items[k + 1];
    }
  }

  lemma {:induction false} ChunkAt(f: Format, items: seq<Value>, k: nat, j: nat)
    requires AllChunks(f, items).Some? && k < |items| && f.chunks(items[k]).Some? && j < |f.chunks(items[k]).value|
    ensures var es, i := AllChunks(f, items).value, Before(f, items, k) + j;
      i < |es| && es[i] == f.chunks(items[k]).value[j]
    decreases k
  {
    if k > 0 {
      ChunkAt(f, items[1..], k - 1, j);
    }
  }

  /** The archive can be opened, its pointers lead to its stream, and that can be read. */
  ghost predicate Opens(f: Format, store: map<Id, bytes>, id: Id, meta: Meta, ids: seq<Id>, items: seq<Value>)
    requires Streams(Msg())
  {
    id in store && f.open(store[id]) == Some(meta) && StreamIds(store, meta) == Some(ids) && ReadStream(store, ids) == Some(items)
  }

  /** An archive can be walked exactly if it can be opened and read, and the chunks of every
      item can be told. */
  lemma WalkIff(f: Format, store: map<Id, bytes>, id: Id)
    requires Streams(Msg())
    ensures Walk(f, store, id).Some? <==>
      exists meta, ids, items ::
        Opens(f, store, id, meta, ids, items) && forall k :: 0 <= k < |items| ==> f.chunks(items[k]).Some?
    ensures Read(f, store, id).Some? <==> Walk(f, store, id).Some?
  {
    if id in store && f.open(store[id]).Some? {
      var meta := f.open(store[id]).value;
      if StreamIds(store, meta).Some? && ReadStream(store, StreamIds(store, meta).value).Some? {
        var items := ReadStream(store, StreamIds(store, meta).value).value;
        assert Opens(f, store, id, meta, StreamIds(store, meta).value, items);
        AllChunksAt(f, items);
      }
    }
  }

  /** Behind the first `base` references comes chunk j of item k, at its place. */
  ghost predicate RefersTo(f: Format, items: seq<Value>, refs: seq<Ref>, base: nat, k: nat, j: nat) {
    k < |items| && f.chunks(items[k]).Some? && j < |f.chunks(items[k]).value| ==>
      var e, i := f.chunks(items[k]).value[j], base + Before(f, items, k) + j;
      i < |refs| && refs[i] == Ref(e.id, e.size % 4294967296)
  }

  lemma SizedRefers(f: Format, items: seq<Value>, head: seq<Ref>, es: seq<Entry>, k: nat, j: nat)
    requires AllChunks(f, items) == Some(es)
    ensures RefersTo(f, items, head + Sized(es), |head|, k, j)
  {
    if k < |items| && f.chunks(items[k]).Some? && j < |f.chunks(items[k]).value| {
      ChunkAt(f, items, k, j);
      assert (head + Sized(es))[|head| + (Before(f, items, k) + j)] == Sized(es)[Before(f, items, k) + j];
    }
  }

  ghost predicate StartsWith(refs: seq<Ref>, id: Id, ptrs: seq<Id>, ids: seq<Id>) {
    && 1 + |ptrs| + |ids| <= |refs| && refs[0] == Ref(id, 0)
    && (forall i :: 0 <= i < |ptrs| ==> refs[1 + i] == Ref(ptrs[i], 0))
    && (forall i :: 0 <= i < |ids| ==> refs[1 + |ptrs| + i] == Ref(ids[i], 0))
  }

  lemma HeadStarts(id: Id, ptrs: seq<Id>, ids: seq<Id>, more: seq<Ref>)
    ensures StartsWith([Ref(id, 0)] + Plain(ptrs) + Plain(ids) + more, id, ptrs, ids)
  {
  }

  /** Its references are the archive itself, its pointers, the chunks of its stream, and the
      chunks of every item in order, with the size an item gives them; and no others. */
  lemma WalkIs(
      f: Format, store: map<Id, bytes>, id: Id, meta: Meta, ids: seq<Id>, items: seq<Value>, refs: seq<Ref>, ptrs: seq<Id>, base: nat)
    requires Streams(Msg()) && Opens(f, store, id, meta, ids, items) && Walk(f, store, id) == Some(refs)
    requires ptrs == (if meta.itemPtrs.Some? then meta.itemPtrs.value else []) && base == 1 + |ptrs| + |ids|
    ensures StartsWith(refs, id, ptrs, ids) && |refs| == base + Before(f, items, |items|)
    ensures forall k: nat, j: nat :: RefersTo(f, items, refs, base, k, j)
  {
    AllChunksAt(f, items);
    ListedAs(f, id, ptrs, ids, items, AllChunks(f, items).value, refs, base);
  }

  lemma ListedAs(
      f: Format, id: Id, ptrs: seq<Id>, ids: seq<Id>, items: seq<Value>, es: seq<Entry>, refs: seq<Ref>, base: nat)
    requires AllChunks(f, items) == Some(es) && base == 1 + |ptrs| + |ids|
    requires refs == [Ref(id, 0)] + Plain(ptrs) + Plain(ids) + Sized(es)
    ensures StartsWith(refs, id, ptrs, ids) && |refs| == base + |es|
    ensures forall k: nat, j: nat :: RefersTo(f, items, refs, base, k, j)
  {
    HeadStarts(id, ptrs, ids, Sized(es));
    forall k: nat, j: nat
      ensures RefersTo(f, items, refs, base, k, j)
    {
      SizedRefers(f, items, [Ref(id, 0)] + Plain(ptrs) + Plain(ids), es, k, j);
    }
  }

  /** What is stored under the id of chunk j of item k is read at its place, if it is there
      and has the size the item gives. */
  ghost predicate ReadsChunk(f: Format, items: seq<Value>, store: map<Id, bytes>, got: seq<Option<bytes>>, k: nat, j: nat) {
    k < |items| && f.chunks(items[k]).Some? && j < |f.chunks(items[k]).value| ==>
      var e, i := f.chunks(items[k]).value[j], Before(f, items, k) + j;
      i < |got| && got[i] == if e.id in store && |store[e.id]| == e.size then Some(store[e.id]) else None
  }

  lemma ContentsRead(f: Format, items: seq<Value>, store: map<Id, bytes>, es: seq<Entry>, k: nat, j: nat)
    requires AllChunks(f, items) == Some(es)
    ensures ReadsChunk(f, items, store, Contents(store, es), k, j)
  {
    if k < |items| && f.chunks(items[k]).Some? && j < |f.chunks(items[k]).value| {
      ChunkAt(f, items, k, j);
    }
  }

  /** What is read of it: its items, and all their chunks. */
  lemma ReadIs(
      f: Format, store: map<Id, bytes>, id: Id, meta: Meta, ids: seq<Id>, items: seq<Value>, got: seq<Option<bytes>>,
      vs: seq<Value>)
    requires Streams(Msg()) && Opens(f, store, id, meta, ids, items) && Read(f, store, id) == Some((vs, got))
    ensures vs == items && |got| == Before(f, items, |items|)
    ensures forall k: nat, j: nat :: ReadsChunk(f, items, store, got, k, j)
  {
    AllChunksAt(f, items);
    forall k: nat, j: nat
      ensures ReadsChunk(f, items, store, got, k, j)
    {
      ContentsRead(f, items, store, AllChunks(f, items).value, k, j);
    }
  }

  // ---------------------------------------------------------------- the references are all that is read

  ghost predicate SameAt(a: map<Id, bytes>, b: map<Id, bytes>, ids: set<Id>) {
    forall id :: id in ids ==> (id in a <==> id in b) && (id in a ==> a[id] == b[id])
  }

  function Ids(refs: seq<Ref>): set<Id> {
    set r | r in refs :: r.id
  }

  lemma {:induction false} ResolveReads(a: map<Id, bytes>, b: map<Id, bytes>, ptrs: seq<Id>, ids: set<Id>)
    requires SameAt(a, b, ids) && forall k :: 0 <= k < |ptrs| ==> ptrs[k] in ids
    ensures Resolve(a, ptrs) == Resolve(b, ptrs)
  {
    if ptrs != [] {
      assert ptrs[0] in ids;
      ResolveReads(a, b, ptrs[1..], ids);
    }
  }

  lemma {:induction false} FetchReads(a: map<Id, bytes>, b: map<Id, bytes>, chunks: seq<Id>, ids: set<Id>)
    requires SameAt(a, b, ids) && forall k :: 0 <= k < |chunks| ==> chunks[k] in ids
    ensures Fetch(a, chunks) == Fetch(b, chunks)
  {
    if chunks != [] {
      assert chunks[0] in ids;
      FetchReads(a, b, chunks[1..], ids);
    }
  }

  lemma PlainIn(before: seq<Ref>, ids: seq<Id>, after: seq<Ref>, k: nat)
    requires k < |ids|
    ensures ids[k] in Ids(before + Plain(ids) + after)
  {
    assert (before + Plain(ids) + after)[|before| + k] == Ref(ids[k], 0);
  }

  lemma SizedIn(before: seq<Ref>, es: seq<Entry>, k: nat)
    requires k < |es|
    ensures es[k].id in Ids(before + Sized(es))
  {
    assert (before + Sized(es))[|before| + k].id == es[k].id;
  }

  lemma WalkHas(f: Format, store: map<Id, bytes>, id: Id)
    requires Streams(Msg()) && Walk(f, store, id).Some?
    ensures var l, ids := List(f, store, id).value, Ids(Walk(f, store, id).value);
      && id in ids
      && (forall k :: 0 <= k < |Pointers(l.meta)| ==> Pointers(l.meta)[k] in ids)
      && (forall k :: 0 <= k < |l.streamIds| ==> l.streamIds[k] in ids)
      && (forall k :: 0 <= k < |l.chunks| ==> l.chunks[k].id in ids)
  {
    var l, refs := List(f, store, id).value, Walk(f, store, id).value;
    RefsHave(id, Pointers(l.meta), l.streamIds, l.chunks, refs);
  }

  lemma RefsHave(id: Id, ptrs: seq<Id>, ids: seq<Id>, es: seq<Entry>, refs: seq<Ref>)
    requires refs == [Ref(id, 0)] + Plain(ptrs) + Plain(ids) + Sized(es)
    ensures id in Ids(refs)
    ensures forall k :: 0 <= k < |ptrs| ==> ptrs[k] in Ids(refs)
    ensures forall k :: 0 <= k < |ids| ==> ids[k] in Ids(refs)
    ensures forall k :: 0 <= k < |es| ==> es[k].id in Ids(refs)
  {
    assert refs[0] == Ref(id, 0);
    forall k | 0 <= k < |ptrs|
      ensures ptrs[k] in Ids(refs)
    {
      PlainIn([Ref(id, 0)], ptrs, Plain(ids) + Sized(es), k);
      assert refs == [Ref(id, 0)] + Plain(ptrs) + (Plain(ids) + Sized(es));
    }
    forall k | 0 <= k < |ids|
      ensures ids[k] in Ids(refs)
    {
      PlainIn([Ref(id, 0)] + Plain(ptrs), ids, Sized(es), k);
    }
    forall k | 0 <= k < |es|
      ensures es[k].id in Ids(refs)
    {
      SizedIn([Ref(id, 0)] + Plain(ptrs) + Plain(ids), es, k);
    }
  }

  /** An archive that can be read lists every object reading it touches: its items, its
      files and its references stay the same whatever happens to all other objects. */
  lemma ReadTouchesOnlyReferences(f: Format, a: map<Id, bytes>, b: map<Id, bytes>, id: Id)
    requires Streams(Msg()) && Walk(f, a, id).Some? && SameAt(a, b, Ids(Walk(f, a, id).value))
    ensures Walk(f, b, id) == Walk(f, a, id) && Read(f, b, id) == Read(f, a, id)
  {
    var l, ids := List(f, a, id).value, Ids(Walk(f, a, id).value);
    WalkHas(f, a, id);
    if l.meta.itemPtrs.Some? {
      ResolveReads(a, b, l.meta.itemPtrs.value, ids);
    }
    FetchReads(a, b, l.streamIds, ids);
    assert List(f, b, id) == List(f, a, id);
    forall k | 0 <= k < |l.chunks|
      ensures Contents(a, l.chunks)[k] == Contents(b, l.chunks)[k]
    {
      assert l.chunks[k].id in ids;
    }
    assert Contents(a, l.chunks) == Contents(b, l.chunks);
  }

  // ---------------------------------------------------------------- the mark phase

  datatype Info = Info(id: Id, name: string, exists_: bool)

  type Walker = Id -> Option<seq<Ref>>

  /** The walks of all archives of a store. */
  ghost predicate Walks(w: Walker, f: Format, store: map<Id, bytes>)
    requires Streams(Msg())
  {
    forall id {:trigger Walk(f, store, id)} :: w(id) == Walk(f, store, id)
  }

  ghost predicate Readable(w: Walker, info: Info) {
    info.exists_ && w(info.id).Some?
  }

  /** Everything the archives that can be read refer to. */
  ghost function Covered(w: Walker, infos: seq<Info>): set<Id> {
    if infos == [] then {}
    else
      var rest, info := Covered(w, infos[..|infos| - 1]), infos[|infos| - 1];
      if Readable(w, info) then rest + Ids(w(info.id).value) else rest
  }

  method CollectOne(f: Format, store: map<Id, bytes>, info: Info, ghost w: Walker) returns (ids: Option<set<Id>>)
    requires Streams(Msg()) && Walks(w, f, store)
    ensures ids.Some? <==> Readable(w, info)
    ensures ids.Some? ==> ids.value == Ids(w(info.id).value)
  {
    if !info.exists_ {
      return None;
    }
    var refs := WalkArchive(f, store, info.id);
    return if refs.Some? then Some(Ids(refs.value)) else None;
  }

  /** One archive after the other; the first that cannot be read ends it. */
  method CollectReferences(f: Format, store: map<Id, bytes>, infos: seq<Info>, ghost w: Walker)
      returns (used: Option<set<Id>>, live: nat)
    requires Streams(Msg()) && Walks(w, f, store)
    ensures used.Some? <==> forall i :: 0 <= i < |infos| ==> Readable(w, infos[i])
    ensures used.Some? ==> used.value == Covered(w, infos) && live == |infos|
  {
    var all: set<Id> := {};
    for i := 0 to |infos|
      invariant all == Covered(w, infos[..i])
      invariant forall k :: 0 <= k < i ==> Readable(w, infos[k])
    {
      assert infos[..i + 1][..i] == infos[..i];
      var ids := CollectOne(f, store, infos[i], w);
      if ids.None? {
        return None, 0;
      }
      all := all + ids.value;
    }
    assert infos[..|infos|] == infos;
    return Some(all), |infos|;
  }

  /** The references of one archive, in the order the walk comes upon them. */
  method WalkArchive(f: Format, store: map<Id, bytes>, id: Id) returns (refs: Option<seq<Ref>>)
    requires Streams(Msg())
    ensures refs == Walk(f, store, id)
  {
    if id !in store {
      return None;
    }
    var meta := f.open(store[id]);
    if meta.None? {
      return None;
    }
    var a := new Archive(store, meta.value);
    var ids := a.ItemStreamIDs();
    if ids.None? {
      return None;
    }
    var items := a.RawItems();
    if items.None? {
      return None;
    }
    var es := ItemChunks(f, items.value);
    if es.None? {
      return None;
    }
    return Some([Ref(id, 0)] + Plain(Pointers(meta.value)) + Plain(ids.value) + Sized(es.value));
  }

  method ItemChunks(f: Format, items: seq<Value>) returns (es: Option<seq<Entry>>)
    ensures es == AllChunks(f, items)
  {
    var all: seq<Entry> := [];
    assert items[0..] == items;
    PrependLaws(all, [], AllChunks(f, items));
    for i := 0 to |items|
      invariant AllChunks(f, items) == Prepend(all, AllChunks(f, items[i..]))
    {
      assert items[i..][0] == items[i] && items[i..][1..] == items[i + 1..];
      var some := f.chunks(items[i]);
      if some.None? {
        return None;
      }
      PrependLaws(all, some.value, AllChunks(f, items[i + 1..]));
      all := all + some.value;
    }
    assert items[|items|..] == [] && all + [] == all;
    return Some(all);
  }

  /** The store with everything else deleted. */
  function Swept(store: map<Id, bytes>, used: set<Id>): map<Id, bytes> {
    map id | id in store && id in used :: store[id]
  }

  lemma {:induction false} CoversEach(w: Walker, infos: seq<Info>, i: nat)
    requires i < |infos| && Readable(w, infos[i])
    ensures Ids(w(infos[i].id).value) <= Covered(w, infos)
  {
    if i < |infos| - 1 {
      CoversEach(w, infos[..|infos| - 1], i);
    }
  }

  /** The id is that of reference k of archive i, which can be read. */
  ghost predicate Mentions(w: Walker, infos: seq<Info>, i: nat, k: nat, id: Id) {
    i < |infos| && infos[i].exists_ && w(infos[i].id).Some? && k < |w(infos[i].id).value| && w(infos[i].id).value[k].id == id
  }

  lemma {:induction false} MentionedIsCovered(w: Walker, infos: seq<Info>, i: nat, k: nat, id: Id)
    requires Mentions(w, infos, i, k, id)
    ensures id in Covered(w, infos)
  {
    CoversEach(w, infos, i);
    assert w(infos[i].id).value[k] in w(infos[i].id).value;
  }

  lemma {:induction false} CoveredIsMentioned(w: Walker, infos: seq<Info>, id: Id) returns (i: nat, k: nat)
    requires id in Covered(w, infos)
    ensures Mentions(w, infos, i, k, id)
  {
    var n := |infos| - 1;
    if id in Covered(w, infos[..n]) {
      i, k := CoveredIsMentioned(w, infos[..n], id);
    } else {
      var refs := w(infos[n].id).value;
      i := n;
      var r :| r in refs && r.id == id;
      k :| k < |refs| && refs[k] == r;
    }
  }

  /** A sweep leaves what was stored and is a reference of some archive, and nothing else. */
  lemma SweepLeaves(w: Walker, infos: seq<Info>, store: map<Id, bytes>, id: Id)
    ensures var swept := Swept(store, Covered(w, infos));
      && (id in swept <==> id in store && exists i, k :: Mentions(w, infos, i, k, id))
      && (id in swept ==> swept[id] == store[id])
  {
    if i, k :| Mentions(w, infos, i, k, id) {
      MentionedIsCovered(w, infos, i, k, id);
    }
    if id in Covered(w, infos) {
      var i, k := CoveredIsMentioned(w, infos, id);
    }
  }

  /** Deleting every object that was not collected changes no read of any archive, of its
      items or its files. */
  lemma SweepKeepsReads(f: Format, store: map<Id, bytes>, infos: seq<Info>, w: Walker, i: nat)
    requires Streams(Msg()) && Walks(w, f, store)
    requires i < |infos| && forall k :: 0 <= k < |infos| ==> Readable(w, infos[k])
    ensures var swept := Swept(store, Covered(w, infos));
      && Walk(f, swept, infos[i].id) == Walk(f, store, infos[i].id)
      && Read(f, swept, infos[i].id) == Read(f, store, infos[i].id)
  {
    assert Readable(w, infos[i]) && w(infos[i].id) == Walk(f, store, infos[i].id);
    CoversEach(w, infos, i);
    ReadTouchesOnlyReferences(f, store, Swept(store, Covered(w, infos)), infos[i].id);
  }
}

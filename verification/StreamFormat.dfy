/** When an archive's item stream can be read, and as what, told from what is stored. */
module StreamFormat {
  import opened Bytes
  import opened Store
  import opened Streaming
  import opened Msgpack
  import opened Unpacker
  import opened Wire
  import opened ItemStream

  // ---------------------------------------------------------------- pointer blocks

  /** The values are byte strings, these ids. */
  ghost predicate AreIds(vs: seq<Value>, ids: seq<Id>) {
    |vs| == |ids| && forall k :: 0 <= k < |vs| ==> vs[k] == Bin(ids[k])
  }

  lemma {:induction false} IdsOfIff(vs: seq<Value>, ids: seq<Id>)
    ensures IdsOf(vs) == Some(ids) <==> AreIds(vs, ids)
  {
    if vs != [] && ids != [] {
      IdsOfIff(vs[1..], ids[1..]);
      if AreIds(vs, ids) {
        assert AreIds(vs[1..], ids[1..]) && [ids[0]] + ids[1..] == ids;
      }
      if IdsOf(vs) == Some(ids) {
        assert IdsOf(vs[1..]).value == ids[1..];
        assert forall k :: 0 < k < |vs| ==> vs[k] == vs[1..][k - 1] && ids[k] == ids[1..][k - 1];
      }
    }
  }

  /** A block of pointers is one msgpack array of byte strings, and nothing behind it. */
  ghost predicate IsBlock(data: bytes, ids: seq<Id>, vs: seq<Value>) {
    Stands(data, Arr(vs)) && Shallow(Arr(vs), 0) && AreIds(vs, ids)
  }

  lemma BlockIff(data: bytes, ids: seq<Id>)
    ensures ParseBlock(data) == Some(ids) <==> exists vs :: IsBlock(data, ids, vs)
  {
    if ParseBlock(data) == Some(ids) {
      var vs := Unmarshal(data).value.elems;
      DecodeIff(data, Arr(vs));
      IdsOfIff(vs, ids);
      assert IsBlock(data, ids, vs);
    }
    if vs :| IsBlock(data, ids, vs) {
      DecodeIff(data, Arr(vs));
      IdsOfIff(vs, ids);
    }
  }

  /** The pointers lead to exactly these ids. */
  ghost predicate LeadsTo(store: map<Id, bytes>, ptrs: seq<Id>, blocks: seq<seq<Id>>, ids: seq<Id>) {
    Points(store, ptrs, blocks) && Concat(blocks) == ids
  }

  lemma {:induction false} ResolveIff(store: map<Id, bytes>, ptrs: seq<Id>, ids: seq<Id>)
    ensures Resolve(store, ptrs) == Some(ids) <==> exists blocks :: LeadsTo(store, ptrs, blocks, ids)
  {
    if blocks :| LeadsTo(store, ptrs, blocks, ids) {
      ResolvePoints(store, ptrs, blocks);
    }
    if Resolve(store, ptrs) == Some(ids) {
      var blocks := BlocksLedTo(store, ptrs);
      assert LeadsTo(store, ptrs, blocks, ids);
    }
  }

  lemma {:induction false} BlocksLedTo(store: map<Id, bytes>, ptrs: seq<Id>) returns (blocks: seq<seq<Id>>)
    requires Resolve(store, ptrs).Some?
    ensures LeadsTo(store, ptrs, blocks, Resolve(store, ptrs).value)
  {
    if ptrs == [] {
      blocks := [];
    } else {
      var rest := BlocksLedTo(store, ptrs[1..]);
      var first := ParseBlock(store[ptrs[0]]).value;
      blocks := [first] + rest;
      assert blocks[1..] == rest;
      assert forall k :: 0 < k < |ptrs| ==> ptrs[k] == ptrs[1..][k - 1] && blocks[k] == rest[k - 1];
    }
  }

  /** An archive has either a list of pointers, or in the older form the ids themselves.
      With both or neither its stream is not to be found. */
  lemma StreamIdsIff(store: map<Id, bytes>, meta: Meta, ids: seq<Id>)
    ensures StreamIds(store, meta) == Some(ids) <==>
      || (meta.itemPtrs.None? && meta.items == Some(ids))
      || (meta.items.None? && meta.itemPtrs.Some? && exists blocks :: LeadsTo(store, meta.itemPtrs.value, blocks, ids))
  {
    if meta.itemPtrs.Some? {
      ResolveIff(store, meta.itemPtrs.value, ids);
    }
  }

  // ---------------------------------------------------------------- the stream

  /** All chunks are there, and one after the other they are the data. */
  ghost predicate Fetched(store: map<Id, bytes>, ids: seq<Id>, pieces: seq<bytes>, data: bytes) {
    && |pieces| == |ids| && Concat(pieces) == data
    && forall k :: 0 <= k < |ids| ==> ids[k] in store && store[ids[k]] == pieces[k]
  }

  lemma {:induction false} FetchIs(store: map<Id, bytes>, ids: seq<Id>, pieces: seq<bytes>, data: bytes)
    requires Fetched(store, ids, pieces, data)
    ensures Fetch(store, ids) == Some(data)
    decreases |ids|
  {
    if ids != [] {
      FetchIs(store, ids[1..], pieces[1..], Concat(pieces[1..]));
    }
  }

  lemma {:induction false} PiecesFetched(store: map<Id, bytes>, ids: seq<Id>) returns (pieces: seq<bytes>)
    requires Fetch(store, ids).Some?
    ensures Fetched(store, ids, pieces, Fetch(store, ids).value)
  {
    if ids == [] {
      pieces := [];
    } else {
      var rest := PiecesFetched(store, ids[1..]);
      pieces := [store[ids[0]]] + rest;
      assert pieces[1..] == rest;
      assert forall k :: 0 < k < |ids| ==> ids[k] == ids[1..][k - 1] && pieces[k] == rest[k - 1];
    }
  }

  /** Each piece stands for one of the values. */
  ghost predicate StandFor(pieces: seq<bytes>, vs: seq<Value>) {
    |pieces| == |vs| && forall k :: 0 <= k < |vs| ==> Stands(pieces[k], vs[k]) && Shallow(vs[k], 0)
  }

  lemma StandingEncodes(pieces: seq<bytes>, vs: seq<Value>)
    requires StandFor(pieces, vs)
    ensures EncodesAll(Msg(), vs, pieces)
  {
    forall k, rest | 0 <= k < |vs|
      ensures Msg()(pieces[k] + rest) == Ok(vs[k], |pieces[k]|)
    {
      DecodeIff(pieces[k], vs[k]);
      DecodeStable(pieces[k], rest, 0);
    }
  }

  /** Draining to the end takes the values off the front, one after the other. */
  lemma DrainFirst(data: bytes, vs: seq<Value>)
    requires Streams(Msg()) && Drain(Msg(), data) == Drained(vs, [], false)
    ensures
      if vs == [] then data == []
      else
        var d := Decode(data, 0);
        d.Ok? && d.value == vs[0] && 0 < d.used <= |data| && Drain(Msg(), data[d.used..]) == Drained(vs[1..], [], false)
  {
    assert DecodesOn(Msg(), data, []);
  }

  /** What each value is decoded from. */
  ghost predicate Forms(form: (bytes, Value) -> bool, pieces: seq<bytes>, vs: seq<Value>) {
    |pieces| == |vs| && forall k :: 0 <= k < |vs| ==> form(pieces[k], vs[k])
  }

  lemma {:induction false} DrainedForms(form: (bytes, Value) -> bool, data: bytes, vs: seq<Value>) returns (pieces: seq<bytes>)
    requires Streams(Msg()) && Drain(Msg(), data) == Drained(vs, [], false)
    requires forall d: bytes, v: Value, used: nat :: Decode(d, 0) == Ok(v, used) && used <= |d| ==> form(d[..used], v)
    ensures Forms(form, pieces, vs) && Concat(pieces) == data
    decreases |vs|
  {
    DrainFirst(data, vs);
    if vs == [] {
      pieces := [];
    } else {
      var used := Decode(data, 0).used;
      var rest := DrainedForms(form, data[used..], vs[1..]);
      pieces := [data[..used]] + rest;
      assert pieces[1..] == rest && data == data[..used] + data[used..];
    }
  }

  lemma DrainedStands(data: bytes, vs: seq<Value>) returns (pieces: seq<bytes>)
    requires Streams(Msg()) && Drain(Msg(), data) == Drained(vs, [], false)
    ensures StandFor(pieces, vs) && Concat(pieces) == data
  {
    forall d: bytes, v: Value, used: nat | Decode(d, 0) == Ok(v, used) && used <= |d|
      ensures Stands(d[..used], v) && Shallow(v, 0)
    {
      DecodeStands(d, 0, v, used);
      DecodedIsShallow(d, 0, v, used);
    }
    pieces := DrainedForms((s, v) => Stands(s, v) && Shallow(v, 0), data, vs);
  }

  /** The chunks of a stream together hold a MessagePack form of each value in turn, and no more. */
  ghost predicate IsStream(store: map<Id, bytes>, ids: seq<Id>, vs: seq<Value>, chunks: seq<bytes>, forms: seq<bytes>) {
    StandFor(forms, vs) && Fetched(store, ids, chunks, Concat(forms))
  }

  lemma StreamIsRead(store: map<Id, bytes>, ids: seq<Id>, vs: seq<Value>, chunks: seq<bytes>, forms: seq<bytes>)
    requires Streams(Msg()) && IsStream(store, ids, vs, chunks, forms)
    ensures ReadStream(store, ids) == Some(vs)
  {
    var data := Concat(forms);
    FetchIs(store, ids, chunks, data);
    StandingEncodes(forms, vs);
    DrainEncodings(Msg(), vs, forms, []);
    assert data + [] == data && vs + [] == vs;
    assert Drain(Msg(), []) == Drained([], [], false);
  }

  lemma ReadIsStream(store: map<Id, bytes>, ids: seq<Id>, vs: seq<Value>) returns (chunks: seq<bytes>, forms: seq<bytes>)
    requires Streams(Msg()) && ReadStream(store, ids) == Some(vs)
    ensures IsStream(store, ids, vs, chunks, forms)
  {
    chunks := PiecesFetched(store, ids);
    forms := DrainedStands(Fetch(store, ids).value, vs);
  }

  /** A stream reads as a list of values exactly when all its chunks are there and hold
      just these values. */
  lemma StreamIff(store: map<Id, bytes>, ids: seq<Id>, vs: seq<Value>)
    requires Streams(Msg())
    ensures ReadStream(store, ids) == Some(vs) <==> exists chunks, forms :: IsStream(store, ids, vs, chunks, forms)
  {
    if ReadStream(store, ids) == Some(vs) {
      var chunks, forms := ReadIsStream(store, ids, vs);
    }
    if chunks, forms :| IsStream(store, ids, vs, chunks, forms) {
      StreamIsRead(store, ids, vs, chunks, forms);
    }
  }
}

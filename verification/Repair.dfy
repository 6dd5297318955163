/** Rebuilding the items of a damaged archive: the loop that drives the robust unpacker
    over a stream some of whose chunks are missing or unreadable. */
module Repair {
  import opened Bytes
  import opened Streaming
  import opened Msgpack
  import opened Unpacker

  /** Whether a decoded map can be turned into an item; unusable ones are reported and skipped. */
  function Usable(vs: seq<Value>, usable: Value -> bool): seq<Value> {
    if vs == [] then [] else (if usable(vs[0]) then [vs[0]] else []) + Usable(vs[1..], usable)
  }

  lemma {:induction false} UsableAppend(a: seq<Value>, b: seq<Value>, usable: Value -> bool)
    ensures Usable(a + b, usable) == Usable(a, usable) + Usable(b, usable)
  {
    if a == [] {
      assert a + b == b;
    } else {
      assert (a + b)[0] == a[0] && (a + b)[1..] == a[1..] + b;
      UsableAppend(a[1..], b, usable);
      Regroup(if usable(a[0]) then [a[0]] else [], Usable(a[1..], usable), Usable(b, usable));
    }
  }

  /** Which values are kept: the usable ones, each as often as it comes and in order. */
  lemma {:induction false} UsableAt(vs: seq<Value>, usable: Value -> bool, k: nat)
    requires k < |vs|
    ensures var before := Usable(vs[..k], usable);
      if usable(vs[k]) then before + [vs[k]] <= Usable(vs, usable) else before <= Usable(vs, usable)
    ensures |Usable(vs[..k + 1], usable)| == |Usable(vs[..k], usable)| + if usable(vs[k]) then 1 else 0
  {
    assert vs == vs[..k + 1] + vs[k + 1..] && vs[..k + 1] == vs[..k] + [vs[k]];
    UsableAppend(vs[..k + 1], vs[k + 1..], usable);
    UsableAppend(vs[..k], [vs[k]], usable);
    assert [vs[k]][1..] == [];
  }

  /** A chunk of the stream: its bytes; missing or unreadable; or not to be had because
      the repository fails in another way. */
  datatype Fetched = Read(data: bytes) | Gap | Failed

  datatype Outcome = Outcome(items: seq<Value>, missing: nat, ok: bool)

  function Behind(xs: seq<Value>, o: Outcome): Outcome {
    if o.ok then o.(items := xs + o.items) else o
  }

  /** What one chunk that can be read yields: its items, and the state to go on from. A
      decode error drops what is buffered. */
  ghost function AfterChunk(u: Source<Value>, st: State, gap: bool, data: bytes): (r: Run<Value>)
    requires u.Valid()
  {
    var r := RunFrom(u, Grown(if gap then State(true, []) else st, data));
    if r.broken then Run(r.items, State(true, []), true) else r
  }

  /** The items recovered from the chunks and the number of gaps; no items when the
      repository fails. */
  ghost function Recover(u: Source<Value>, usable: Value -> bool, st: State, gap: bool, chunks: seq<Fetched>): (o: Outcome)
    requires u.Valid()
    ensures !o.ok ==> o.items == []
    decreases |chunks|
  {
    if chunks == [] then Outcome([], 0, true)
    else
      match chunks[0]
      case Failed => Outcome([], 0, false)
      case Gap =>
        var o := Recover(u, usable, st, true, chunks[1..]);
        o.(missing := o.missing + 1)
      case Read(data) =>
        var r := AfterChunk(u, st, gap, data);
        Behind(Usable(r.items, usable), Recover(u, usable, r.st, false, chunks[1..]))
  }

  function Gaps(chunks: seq<Fetched>): nat {
    if chunks == [] then 0 else (if chunks[0].Gap? then 1 else 0) + Gaps(chunks[1..])
  }

  /** It fails exactly if a chunk fails, and counts the gaps. */
  lemma {:induction false} RecoverCounts(u: Source<Value>, usable: Value -> bool, st: State, gap: bool, chunks: seq<Fetched>)
    requires u.Valid()
    ensures var o := Recover(u, usable, st, gap, chunks);
      && (o.ok <==> forall k :: 0 <= k < |chunks| ==> !chunks[k].Failed?)
      && (o.ok ==> o.missing == Gaps(chunks))
    decreases |chunks|
  {
    if chunks != [] {
      var rest := chunks[1..];
      if chunks[0].Gap? {
        RecoverCounts(u, usable, st, true, rest);
      } else if chunks[0].Read? {
        RecoverCounts(u, usable, AfterChunk(u, st, gap, chunks[0].data).st, false, rest);
      }
      assert forall k :: 0 < k < |chunks| ==> chunks[k] == rest[k - 1];
      assert forall k :: 0 <= k < |rest| ==> rest[k] == chunks[k + 1];
    }
  }

  /** A decode error keeps the items before it, drops the rest of the chunk, and is for the
      chunks behind it a gap, though one that is not counted. */
  lemma DecodeErrorIsGap(u: Source<Value>, usable: Value -> bool, st: State, data: bytes, any: State, rest: seq<Fetched>)
    requires u.Valid() && RunFrom(u, Grown(st, data)).broken
    ensures Recover(u, usable, st, false, [Read(data)] + rest)
      == Behind(Usable(RunFrom(u, Grown(st, data)).items, usable), Recover(u, usable, any, true, rest))
  {
    assert ([Read(data)] + rest)[1..] == rest;
    GapIsResync(u, usable, any, rest);
  }

  lemma RecoverStep(u: Source<Value>, usable: Value -> bool, st: State, gap: bool, chunks: seq<Fetched>, i: nat)
    requires u.Valid() && i < |chunks|
    ensures Recover(u, usable, st, gap, chunks[i..]) ==
      match chunks[i]
      case Failed => Outcome([], 0, false)
      case Gap =>
        var o := Recover(u, usable, st, true, chunks[i + 1..]);
        Outcome(o.items, o.missing + 1, o.ok)
      case Read(data) =>
        var r := AfterChunk(u, st, gap, data);
        Behind(Usable(r.items, usable), Recover(u, usable, r.st, false, chunks[i + 1..]))
  {
    assert chunks[i..][0] == chunks[i] && chunks[i..][1..] == chunks[i + 1..];
  }

  /** The keys an item may start with can be written as msgpack strings. */
  predicate Writable(keys: seq<bytes>) {
    forall i :: 0 <= i < |keys| ==> |keys[i]| <= MAX_UINT32
  }

  method ReadItemsRobustly(keys: seq<bytes>, validate: Value -> bool, usable: Value -> bool, chunks: seq<Fetched>)
    returns (items: seq<Value>, missing: nat, ok: bool)
    ensures Writable(keys) ==> NewRules(keys, validate).Source().Valid()
    ensures Outcome(items, missing, ok) ==
      if Writable(keys) then Recover(NewRules(keys, validate).Source(), usable, State(false, []), false, chunks)
      else Outcome([], 0, false)
  {
    if !Writable(keys) {
      return [], 0, false;
    }
    var rules := NewRules(keys, validate);
    SourceIsValid(rules);
    var u := new RobustUnpacker(rules);
    items, missing, ok := ReadChunks(u, usable, chunks);
  }

  method ReadChunks(u: RobustUnpacker, usable: Value -> bool, chunks: seq<Fetched>)
    returns (items: seq<Value>, missing: nat, ok: bool)
    requires u.Valid()
    modifies u
    ensures u.Valid()
    ensures Outcome(items, missing, ok) == Recover(u.source, usable, old(u.Now()), false, chunks)
  {
    items, missing := [], 0;
    var previousWasMissing := false;
    ghost var all := Recover(u.source, usable, u.Now(), false, chunks);
    assert chunks[0..] == chunks;
    for i := 0 to |chunks|
      invariant u.Valid()
      invariant var o := Recover(u.source, usable, u.Now(), previousWasMissing, chunks[i..]);
        all == Behind(items, o.(missing := missing + o.missing))
    {
      RecoverStep(u.source, usable, u.Now(), previousWasMissing, chunks, i);
      match chunks[i] {
        case Failed =>
          items, ok := [], false;
          return;
        case Gap =>
          missing := missing + 1;
          previousWasMissing := true;
        case Read(data) =>
          if previousWasMissing {
            u.Resync();
            previousWasMissing := false;
          }
          u.Feed(data);
          var got := NextItems(u, usable);
          Regroup(items, got, Recover(u.source, usable, u.Now(), false, chunks[i + 1..]).items);
          items := items + got;
      }
    }
    assert chunks[|chunks|..] == [] && items + [] == items;
    ok := true;
  }

  /** The inner loop: items until more data is needed; after an error, a resync. */
  method NextItems(u: RobustUnpacker, usable: Value -> bool) returns (items: seq<Value>)
    requires u.Valid()
    modifies u
    ensures u.Valid()
    ensures var r := RunFrom(u.source, old(u.Now()));
      items == Usable(r.items, usable) && u.Now() == if r.broken then State(true, []) else r.st
  {
    items := [];
    ghost var all := RunFrom(u.source, u.Now());
    ghost var seen: seq<Value> := [];
    while true
      invariant u.Valid() && items == Usable(seen, usable)
      invariant var r := RunFrom(u.source, u.Now()); all == r.(items := seen + r.items)
      decreases |u.Now().pending|
    {
      ghost var r := RunFrom(u.source, u.Now());
      var s := u.Next();
      match s {
        case Wait(_) =>
          assert seen + [] == seen;
          return;
        case Broken(_) =>
          assert seen + [] == seen;
          u.Resync();
          return;
        case Got(v, _) =>
          Regroup(seen, [v], RunFrom(u.source, u.Now()).items);
          UsableAppend(seen, [v], usable);
          assert [v][1..] == [];
          seen := seen + [v];
          if usable(v) {
            items := items + [v];
          }
      }
    }
  }

  function Present(pieces: seq<bytes>): (chunks: seq<Fetched>)
    ensures |chunks| == |pieces|
  {
    if pieces == [] then [] else [Read(pieces[0])] + Present(pieces[1..])
  }

  /** Over chunks that are all there, reading chunk by chunk is reading their
      concatenation, wherever the chunk boundaries fall. */
  lemma {:induction false} RecoverPresent(
      u: Source<Value>, usable: Value -> bool, st: State, pieces: seq<bytes>, after: seq<Fetched>)
    requires u.Valid() && Settled(u, st) && !RunFrom(u, Grown(st, Concat(pieces))).broken
    ensures var r := RunFrom(u, Grown(st, Concat(pieces)));
      Recover(u, usable, st, false, Present(pieces) + after)
      == Behind(Usable(r.items, usable), Recover(u, usable, r.st, false, after))
    decreases |pieces|
  {
    var all := Present(pieces) + after;
    if pieces == [] {
      assert all == after && Grown(st, []) == st;
    } else {
      var first, rest := pieces[0], Concat(pieces[1..]);
      assert all[0] == Read(first) && all[1..] == Present(pieces[1..]) + after;
      Regroup(st.pending, first, rest);
      RunSplit(u, Grown(st, first), rest);
      var r := RunFrom(u, Grown(st, first));
      RunSettles(u, Grown(st, first));
      RecoverPresent(u, usable, r.st, pieces[1..], after);
      RecoverFirst(u, usable, st, first, all);
      var q := RunFrom(u, Grown(r.st, rest));
      UsableAppend(r.items, q.items, usable);
      Regroup(Usable(r.items, usable), Usable(q.items, usable), Recover(u, usable, q.st, false, after).items);
    }
  }

  lemma RecoverFirst(u: Source<Value>, usable: Value -> bool, st: State, first: bytes, all: seq<Fetched>)
    requires u.Valid() && all != [] && all[0] == Read(first) && !RunFrom(u, Grown(st, first)).broken
    ensures var r := RunFrom(u, Grown(st, first));
      Recover(u, usable, st, false, all) == Behind(Usable(r.items, usable), Recover(u, usable, r.st, false, all[1..]))
  {
  }

  function Lost(n: nat): (chunks: seq<Fetched>)
    ensures |chunks| == n
  {
    if n == 0 then [] else [Gap] + Lost(n - 1)
  }

  /** Behind a gap nothing of what was buffered matters. */
  lemma {:induction false} GapIsResync(u: Source<Value>, usable: Value -> bool, st: State, chunks: seq<Fetched>)
    requires u.Valid()
    ensures Recover(u, usable, st, true, chunks) == Recover(u, usable, State(true, []), false, chunks)
    decreases |chunks|
  {
    if chunks != [] && chunks[0].Gap? {
      GapIsResync(u, usable, st, chunks[1..]);
      GapIsResync(u, usable, State(true, []), chunks[1..]);
    }
  }

  lemma {:induction false} RecoverLost(u: Source<Value>, usable: Value -> bool, st: State, n: nat, after: seq<Fetched>)
    requires u.Valid()
    ensures var o := Recover(u, usable, if n == 0 then st else State(true, []), false, after);
      Recover(u, usable, st, false, Lost(n) + after) == o.(missing := n + o.missing)
    decreases n
  {
    var all := Lost(n) + after;
    if n == 0 {
      assert all == after;
    } else {
      assert all[0] == Gap && all[1..] == Lost(n - 1) + after;
      GapIsResync(u, usable, st, all[1..]);
      RecoverLost(u, usable, State(true, []), n - 1, after);
    }
  }

  // ---------------------------------------------------------------- any number of gaps

  /** Chunks that can be read, behind some that cannot: the tail of a damaged item, whole
      items, and the start of one more. The boundaries of the chunks fall anywhere. */
  datatype Stretch = Stretch(lost: nat, pieces: seq<bytes>, junk: bytes, items: seq<Value>, cut: bytes)

  /** Nothing in a damaged item's tail passes for a boundary, and behind it comes an item
      the scan recognises; or there is no whole item at all and nothing passes for one. */
  ghost predicate Recoverable(rules: Rules, s: Stretch) {
    && EncodableAll(s.items, 0) && (forall k :: 0 <= k < |s.items| ==> s.items[k].Map?) && Decode(s.cut, 0).Short?
    && var u, data := rules.Source(), s.junk + (EncodeAll(s.items, 0) + s.cut);
    && Concat(s.pieces) == data
    && (if s.lost == 0 then s.junk == []
        else if s.items == [] then forall j :: 0 <= j < |data| ==> !u.status(data[j..]).Accept?
        else Plausible(rules, s.items[0]) && forall j :: 0 <= j < |s.junk| ==> Rejected(u, data, j))
  }

  function Chunks(stretches: seq<Stretch>): seq<Fetched> {
    if stretches == [] then []
    else Lost(stretches[0].lost) + (Present(stretches[0].pieces) + Chunks(stretches[1..]))
  }

  /** What there is to recover. */
  function Whole(stretches: seq<Stretch>, usable: Value -> bool): Outcome {
    if stretches == [] then Outcome([], 0, true)
    else
      var o := Whole(stretches[1..], usable);
      Outcome(Usable(stretches[0].items, usable) + o.items, stretches[0].lost + o.missing, true)
  }

  lemma ReadsNothing(u: Source<Value>, data: bytes)
    requires u.Valid() && forall j :: 0 <= j < |data| ==> !u.status(data[j..]).Accept?
    ensures var r := RunFrom(u, State(true, data)); r.items == [] && !r.broken
  {
    FirstLiveIsFirst(u, data);
  }

  lemma ReadsStretch(rules: Rules, s: Stretch)
    requires rules.Valid() && rules.Source().Valid() && Recoverable(rules, s)
    ensures var r := RunFrom(rules.Source(), State(s.lost > 0, Concat(s.pieces)));
      r.items == s.items && !r.broken
  {
    if s.lost == 0 {
      ReadsUpToCut(rules, s.items, s.cut);
      assert s.junk + (EncodeAll(s.items, 0) + s.cut) == EncodeAll(s.items, 0) + s.cut;
    } else if s.items == [] {
      ReadsNothing(rules.Source(), Concat(s.pieces));
    } else {
      RecoversAfterGapUpTo(rules, s.junk, s.items, s.cut, Concat(s.pieces));
    }
  }

  /** One stretch, and the state to go on from. */
  lemma RecoverStretch(rules: Rules, usable: Value -> bool, st: State, s: Stretch, rest: seq<Fetched>) returns (next: State)
    requires rules.Valid() && rules.Source().Valid() && Recoverable(rules, s)
    requires s.lost == 0 ==> st == State(false, [])
    ensures var o := Recover(rules.Source(), usable, next, false, rest);
      Recover(rules.Source(), usable, st, false, Lost(s.lost) + (Present(s.pieces) + rest))
      == Behind(Usable(s.items, usable), o).(missing := s.lost + o.missing)
  {
    var u, start := rules.Source(), State(s.lost > 0, []);
    next := RunFrom(u, State(s.lost > 0, Concat(s.pieces))).st;
    assert Recover(u, usable, start, false, Present(s.pieces) + rest)
        == Behind(Usable(s.items, usable), Recover(u, usable, next, false, rest)) by {
      assert Grown(start, Concat(s.pieces)) == State(s.lost > 0, Concat(s.pieces));
      ReadsStretch(rules, s);
      assert Settled(u, start);
      RecoverPresent(u, usable, start, s.pieces, rest);
    }
    assert (if s.lost == 0 then st else State(true, [])) == start;
    RecoverLost(u, usable, st, s.lost, Present(s.pieces) + rest);
  }

  /** However often the stream is interrupted: exactly the whole items of its stretches are
      recovered, in order, and every missing chunk is counted. */
  lemma {:induction false} RecoversAroundGaps(rules: Rules, usable: Value -> bool, st: State, stretches: seq<Stretch>)
    requires rules.Valid() && rules.Source().Valid()
    requires forall i :: 0 <= i < |stretches| ==> Recoverable(rules, stretches[i]) && (i > 0 ==> stretches[i].lost > 0)
    requires stretches != [] && stretches[0].lost == 0 ==> st == State(false, [])
    ensures Recover(rules.Source(), usable, st, false, Chunks(stretches)) == Whole(stretches, usable)
    decreases |stretches|
  {
    if stretches != [] {
      var next := RecoverStretch(rules, usable, st, stretches[0], Chunks(stretches[1..]));
      RecoversAroundGaps(rules, usable, next, stretches[1..]);
    }
  }

  /** A stretch told from its bytes: nothing in the damaged item's tail looks like an item,
      and enough bytes follow it for the scan to be sure. */
  ghost predicate PlainStretch(rules: Rules, s: Stretch) {
    && EncodableAll(s.items, 0) && (forall k :: 0 <= k < |s.items| ==> s.items[k].Map?) && Decode(s.cut, 0).Short?
    && var behind := EncodeAll(s.items, 0) + s.cut;
    && Concat(s.pieces) == s.junk + behind
    && (if s.lost == 0 then s.junk == []
        else
          && NothingLooks(rules.itemKeys, s.junk + behind, |s.junk|)
          && (s.items != [] ==> Plausible(rules, s.items[0]) && (s.junk != [] ==> Room(rules.itemKeys, |behind| + 1)))
          && (s.items == [] ==> s.cut == []))
  }

  lemma PlainIsRecoverable(rules: Rules, s: Stretch)
    requires StrKeys(rules.itemKeys) && PlainStretch(rules, s)
    ensures Recoverable(rules, s)
  {
    var data := s.junk + (EncodeAll(s.items, 0) + s.cut);
    if s.lost > 0 && s.items == [] {
      assert EncodeAll(s.items, 0) + s.cut == [] && data == s.junk;
      forall j | 0 <= j < |data|
        ensures !rules.Source().status(data[j..]).Accept?
      {
        StatusInJunk(rules, data, j);
      }
    } else if s.lost > 0 && s.junk != [] {
      JunkIsRejected(rules, data, |s.junk|);
    }
  }

  /** For the unpacker of a repository's item keys, and stretches told from their bytes. */
  lemma RecoversFromBytes(
      keys: seq<bytes>, validate: Value -> bool, usable: Value -> bool, st: State, stretches: seq<Stretch>, rules: Rules)
    requires Writable(keys) && rules == NewRules(keys, validate) && rules.Source().Valid()
    requires forall i :: 0 <= i < |stretches| ==> PlainStretch(rules, stretches[i]) && (i > 0 ==> stretches[i].lost > 0)
    requires stretches != [] && stretches[0].lost == 0 ==> st == State(false, [])
    ensures Recover(rules.Source(), usable, st, false, Chunks(stretches)) == Whole(stretches, usable)
  {
    NewKeysAreStr(keys, validate);
    forall i | 0 <= i < |stretches|
      ensures Recoverable(rules, stretches[i])
    {
      PlainIsRecoverable(rules, stretches[i]);
    }
    RecoversAroundGaps(rules, usable, st, stretches);
  }
}

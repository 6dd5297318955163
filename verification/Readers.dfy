/** The readers a chunker is given. A read may come back short or fail; a file is read with
    its holes skipped, and a list of stored chunks as one stream. */
module Readers {
  import opened Bytes

  datatype IoError = NoError | Eof | UnexpectedEof | Failed

  /** What a read has to answer: some of the bytes that come next, and the end only when
      there is nothing more. The cut loops ask no more of the reader they are given. */
  predicate ReadsOn(before: bytes, want: nat, p: bytes, err: IoError, after: bytes) {
    && before == p + after && |p| <= want
    && (err == NoError || err == Eof || err == Failed)
    && (err == NoError ==> p != []) && (err == Eof ==> after == [])
  }

  // ---------------------------------------------------------------- skipping holes

  /** A file at rest: its bytes, and which of them the filesystem has no storage for. */
  datatype Disk = Disk(content: bytes, hole: seq<bool>)

  ghost predicate IsDisk(d: Disk) {
    |d.hole| == |d.content| && forall i :: 0 <= i < |d.hole| && d.hole[i] ==> d.content[i] == 0
  }

  /** The first position from pos on where the layout has the given kind, or the end. */
  function Seek(hole: seq<bool>, pos: nat, kind: bool): (q: nat)
    requires pos <= |hole|
    ensures pos <= q <= |hole| && (q < |hole| ==> hole[q] == kind)
    ensures forall i :: pos <= i < q ==> hole[i] != kind
    decreases |hole| - pos
  {
    if pos == |hole| || hole[pos] == kind then pos else Seek(hole, pos + 1, kind)
  }

  /** SEEK_DATA fails when there is no data from pos on. */
  function SeekData(d: Disk, pos: nat): Option<nat>
    requires pos <= |d.hole|
  {
    var q := Seek(d.hole, pos, false);
    if q < |d.hole| then Some(q) else None
  }

  /** SEEK_HOLE finds the end of the file where there is no hole before it, and fails
      only from the end on. */
  function SeekHole(d: Disk, pos: nat): Option<nat>
    requires pos <= |d.hole|
  {
    if pos == |d.hole| then None else Some(Seek(d.hole, pos, true))
  }

  const ZERO_BUFFER: nat := 64 * 1024

  /** How far a file with holes has been read, and the stretch of it that was located last. */
  datatype Place = Place(disk: Disk, pos: nat, dataEnd: nat, holeEnd: nat)

  ghost predicate IsPlace(at: Place) {
    var size := |at.disk.content|;
    && IsDisk(at.disk) && at.pos <= size && at.dataEnd <= size && at.holeEnd <= size
    && (if at.pos < at.dataEnd then at.holeEnd <= at.pos else forall i :: at.pos <= i < at.holeEnd ==> at.disk.hole[i])
  }

  type SparsePlace = at: Place | IsPlace(at) ghost witness Place(Disk([], []), 0, 0, 0)

  class SparseReader {
    const disk: Disk
    var pos: nat
    var dataEnd: nat
    var holeEnd: nat

    ghost predicate Valid()
      reads this
    {
      IsPlace(Place(disk, pos, dataEnd, holeEnd))
    }

    function Where(): SparsePlace
      reads this
      requires Valid()
    {
      Place(disk, pos, dataEnd, holeEnd)
    }

    /** What is still to be read. */
    ghost function Rest(): bytes
      reads this
      requires Valid()
    {
      disk.content[pos..]
    }

    constructor (d: Disk)
      requires IsDisk(d)
      ensures Valid() && disk == d && Rest() == d.content
    {
      disk, pos, dataEnd, holeEnd := d, 0, 0, 0;
    }

    /** Goes on from there. */
    constructor At(at: SparsePlace)
      ensures Valid() && Where() == at
    {
      disk, pos, dataEnd, holeEnd := at.disk, at.pos, at.dataEnd, at.holeEnd;
    }

    /** Some of the bytes that come next: data from the disk, holes as zeros. */
    method Read(want: nat) returns (p: bytes, err: IoError)
      requires Valid() && 0 < want
      modifies this
      ensures Valid() && ReadsOn(old(Rest()), want, p, err, Rest())
      ensures err == Eof <==> old(Rest()) == []
      ensures err == NoError <==> p != []
      ensures err != Failed
    {
      if pos >= |disk.content| {
        return [], Eof;
      }
      if pos >= dataEnd && pos >= holeEnd {
        Locate();
      }
      err := NoError;
      if pos < dataEnd {
        var n := Min(want, dataEnd - pos);
        p := disk.content[pos..pos + n];
        Advance(n, p);
      } else {
        var n := Min(Min(want, holeEnd - pos), ZERO_BUFFER);
        p := Zeros(n);
        HoleIsZeros(disk, pos, n);
        Advance(n, p);
      }
    }

    /** Past n bytes of the stretch the position is in. */
    method Advance(n: nat, ghost p: bytes)
      requires Valid() && n <= if pos < dataEnd then dataEnd - pos else holeEnd - pos
      requires p == disk.content[pos..pos + n]
      modifies this`pos
      ensures Valid() && old(Rest()) == p + Rest()
    {
      SplitAt(disk.content, pos, pos + n);
      pos := pos + n;
    }

    /** Finds the stretch of data or the hole the position is in. */
    method Locate()
      requires Valid() && pos < |disk.content|
      modifies this`dataEnd, this`holeEnd
      ensures Valid() && (pos < dataEnd || pos < holeEnd)
    {
      var dataStart := SeekData(disk, pos);
      if dataStart.None? {
        holeEnd, dataEnd := |disk.content|, pos;
        return;
      }
      if dataStart.value > pos {
        holeEnd, dataEnd := dataStart.value, pos;
        return;
      }
      var holeStart := SeekHole(disk, pos);
      dataEnd := if holeStart.Some? then holeStart.value else |disk.content|;
      holeEnd := pos;
    }
  }

  lemma HoleIsZeros(d: Disk, pos: nat, n: nat)
    requires IsDisk(d) && pos + n <= |d.content| && forall i :: pos <= i < pos + n ==> d.hole[i]
    ensures d.content[pos..pos + n] == Zeros(n)
  {
  }

  lemma SplitAt(s: bytes, a: nat, b: nat)
    requires a <= b <= |s|
    ensures s[a..] == s[a..b] + s[b..]
  {
  }

  /** What has been read of a content, and what is still to be read. */
  ghost predicate Parts(content: bytes, data: bytes, rest: bytes) {
    content == data + rest
  }

  lemma PartsStart(content: bytes)
    ensures Parts(content, [], content)
  {
  }

  lemma PartsMove(content: bytes, data: bytes, rest: bytes, p: bytes, after: bytes)
    requires Parts(content, data, rest) && rest == p + after
    ensures Parts(content, data + p, after) && |after| == |rest| - |p|
  {
    Regroup(data, p, after);
  }

  lemma PartsEnd(content: bytes, data: bytes, rest: bytes)
    requires Parts(content, data, rest) && rest == []
    ensures data == content
  {
  }

  /** One read, with a buffer of any size. */
  method ReadMore(r: SparseReader, data: bytes, ghost content: bytes) returns (data': bytes, end: bool)
    requires r.Valid() && Parts(content, data, r.Rest())
    modifies r
    ensures r.Valid() && Parts(content, data', r.Rest())
    ensures if end then data' == content else |r.Rest()| < |old(r.Rest())|
  {
    ghost var rest := r.Rest();
    var want: nat :| 0 < want;
    var p, err := r.Read(want);
    end := err == Eof;
    data' := data + p;
    PartsMove(content, data, rest, p, r.Rest());
    if end {
      PartsEnd(content, data', r.Rest());
    }
  }

  /** Reading to the end, with buffers of any sizes, yields the file's bytes. */
  method ReadAll(d: Disk) returns (data: bytes)
    requires IsDisk(d)
    ensures data == d.content
  {
    var r := new SparseReader(d);
    data := [];
    var end := false;
    PartsStart(d.content);
    while !end
      invariant r.Valid() && fresh(r) && Parts(d.content, data, r.Rest())
      invariant end ==> data == d.content
      decreases !end, |r.Rest()|
    {
      data, end := ReadMore(r, data, d.content);
    }
  }

  // ---------------------------------------------------------------- a file's chunks as a stream

  /** What a chunk list holds: the chunks that can be read, up to the first that cannot
      unless those are skipped; and whether all that is asked for is there. */
  function Content(store: map<bytes, bytes>, ids: seq<bytes>, skipMissing: bool): (bytes, bool) {
    if ids == [] then ([], true)
    else if ids[0] in store then
      var rest := Content(store, ids[1..], skipMissing);
      (store[ids[0]] + rest.0, rest.1)
    else if skipMissing then Content(store, ids[1..], skipMissing)
    else ([], false)
  }

  /** The bytes of the first k chunks, a missing one without any. */
  function Pieces(store: map<bytes, bytes>, ids: seq<bytes>, k: nat): (pieces: seq<bytes>)
    requires k <= |ids|
    ensures |pieces| == k
  {
    seq(k, i requires 0 <= i < k => if ids[i] in store then store[ids[i]] else [])
  }

  /** With missing chunks skipped it is all the others one after the other; else it is
      those before the first that is missing, and all there is if none is. */
  lemma {:induction false} ContentIs(store: map<bytes, bytes>, ids: seq<bytes>, skipMissing: bool, k: nat)
    requires k <= |ids| && (skipMissing ==> k == |ids|)
    requires !skipMissing ==> (forall i :: 0 <= i < k ==> ids[i] in store) && (k < |ids| ==> ids[k] !in store)
    ensures Content(store, ids, skipMissing) == (Concat(Pieces(store, ids, k)), k == |ids|)
    decreases |ids|
  {
    if k > 0 {
      ContentIs(store, ids[1..], skipMissing, k - 1);
      assert Pieces(store, ids, k)[1..] == Pieces(store, ids[1..], k - 1);
      assert ids[0] !in store ==> [] + Concat(Pieces(store, ids[1..], k - 1)) == Concat(Pieces(store, ids[1..], k - 1));
    }
  }

  /** How far a list of chunks has been read. */
  datatype Unread = Unread(store: map<bytes, bytes>, chunks: seq<bytes>, skipMissing: bool, next: nat, buf: bytes)

  type UnreadChunks = at: Unread | at.next <= |at.chunks| witness Unread(map[], [], false, 0, [])

  class ChunkStreamReader {
    const store: map<bytes, bytes>
    const chunks: seq<bytes>
    const skipMissing: bool
    var next: nat
    var buf: bytes

    ghost predicate Valid()
      reads this
    {
      next <= |chunks|
    }

    function Where(): UnreadChunks
      reads this
      requires Valid()
    {
      Unread(store, chunks, skipMissing, next, buf)
    }

    /** What is still to be read before the end or a chunk that is missing. */
    ghost function Rest(): bytes
      reads this
      requires Valid()
    {
      buf + Content(store, chunks[next..], skipMissing).0
    }

    ghost predicate Whole()
      reads this
      requires Valid()
    {
      Content(store, chunks[next..], skipMissing).1
    }

    constructor (store: map<bytes, bytes>, chunks: seq<bytes>, skipMissing: bool)
      ensures Valid() && Rest() == Content(store, chunks, skipMissing).0
      ensures Whole() == Content(store, chunks, skipMissing).1
    {
      this.store, this.chunks, this.skipMissing := store, chunks, skipMissing;
      next, buf := 0, [];
      new;
      assert chunks[0..] == chunks;
      assert [] + Content(store, chunks, skipMissing).0 == Content(store, chunks, skipMissing).0;
    }

    /** Goes on from there. */
    constructor At(at: UnreadChunks)
      ensures Valid() && Where() == at
    {
      store, chunks, skipMissing, next, buf := at.store, at.chunks, at.skipMissing, at.next, at.buf;
    }

    method Read(want: nat) returns (p: bytes, err: IoError)
      requires Valid() && 0 < want
      modifies this
      ensures Valid() && ReadsOn(old(Rest()), want, p, err, Rest()) && Whole() == old(Whole())
      ensures err == NoError <==> p != []
      ensures err != NoError ==> old(Rest()) == [] && (err == Eof <==> Whole())
    {
      err := NoError;
      while buf == []
        invariant Valid() && Rest() == old(Rest()) && Whole() == old(Whole())
        decreases |chunks| - next
      {
        if next >= |chunks| {
          return [], Eof;
        }
        assert chunks[next..][1..] == chunks[next + 1..];
        if chunks[next] !in store {
          if skipMissing {
            next := next + 1;
            continue;
          }
          return [], Failed;
        }
        buf, next := store[chunks[next]], next + 1;
      }
      var n := Min(want, |buf|);
      p := buf[..n];
      SplitAt(buf, 0, n);
      Regroup(p, buf[n..], Content(store, chunks[next..], skipMissing).0);
      buf := buf[n..];
    }
  }

  // ---------------------------------------------------------------- the reader a chunker is given

  /** What is behind a reader: any stream, bytes in memory, a file with holes, or the stored
      chunks of one; and how far it has been read. */
  datatype Origin =
    | AnyStream(left: bytes)
    | Memory(data: bytes)
    | SparseFile(place: SparsePlace)
    | ChunkList(unread: UnreadChunks)

  ghost function RestOf(o: Origin): bytes {
    match o
    case AnyStream(left) => left
    case Memory(data) => data
    case SparseFile(at) => at.disk.content[at.pos..]
    case ChunkList(at) => at.buf + Content(at.store, at.chunks[at.next..], at.skipMissing).0
  }

  /** It has an end to come to: no chunk of it is missing. */
  ghost predicate HasEnd(o: Origin) {
    o.ChunkList? ==> Content(o.unread.store, o.unread.chunks[o.unread.next..], o.unread.skipMissing).1
  }

  /** A stream that answers each read with as many bytes as it likes, or fails. The readers
      above answer in this way; behind another one anything may happen. */
  class Reader {
    var origin: Origin
    // What is still to be read, and whether there is an end to come to.
    ghost var rest: bytes
    ghost const ends: bool
    // Whether a read can fail: in memory and in a file none does, in a list of chunks one
    // that comes upon a missing chunk. Whether one has, and whether that left a full read short.
    ghost const frail: bool
    ghost var broke: bool
    ghost var failed: bool

    ghost predicate Valid()
      reads this
    {
      && rest == RestOf(origin) && ends == HasEnd(origin) && frail == (origin.AnyStream? || !ends)
      && (failed ==> broke) && (broke ==> frail)
    }

    constructor (content: bytes)
      ensures Valid() && rest == content && ends && !failed && !frail
    {
      origin := Memory(content);
      rest, ends, frail, broke, failed := content, true, false, false, false;
    }

    constructor Over(origin: Origin)
      ensures Valid() && rest == RestOf(origin) && ends == HasEnd(origin)
      ensures !failed && frail == (origin.AnyStream? || !HasEnd(origin))
    {
      this.origin := origin;
      rest, ends := RestOf(origin), HasEnd(origin);
      frail, broke, failed := origin.AnyStream? || !HasEnd(origin), false, false;
    }

    method Read(want: nat) returns (p: bytes, err: IoError)
      requires Valid() && 0 < want
      modifies this`origin, this`rest, this`broke
      ensures Valid() && ReadsOn(old(rest), want, p, err, rest) && (err == Eof ==> ends)
      ensures broke == (old(broke) || err == Failed)
    {
      match origin {
        case AnyStream(left) =>
          p, err := ReadAny(left, want);
        case Memory(data) =>
          p, err := ReadMemory(data, want);
        case SparseFile(at) =>
          p, err := ReadSparse(at, want);
        case ChunkList(at) =>
          p, err := ReadChunks(at, want);
      }
      rest, broke := RestOf(origin), broke || err == Failed;
    }

    method ReadMemory(data: bytes, want: nat) returns (p: bytes, err: IoError)
      requires 0 < want && origin == Memory(data)
      modifies this`origin
      ensures origin.Memory? && ReadsOn(data, want, p, err, origin.data) && err != Failed
    {
      var n := Min(want, |data|);
      p, origin := data[..n], Memory(data[n..]);
      err := if data == [] then Eof else NoError;
    }

    method ReadSparse(at: SparsePlace, want: nat) returns (p: bytes, err: IoError)
      requires 0 < want && origin == SparseFile(at)
      modifies this`origin
      ensures origin.SparseFile? && ReadsOn(RestOf(old(origin)), want, p, err, RestOf(origin)) && err != Failed
    {
      var s := new SparseReader.At(at);
      p, err := s.Read(want);
      origin := SparseFile(s.Where());
    }

    method ReadChunks(at: UnreadChunks, want: nat) returns (p: bytes, err: IoError)
      requires 0 < want && origin == ChunkList(at)
      modifies this`origin
      ensures ReadsOn(RestOf(old(origin)), want, p, err, RestOf(origin))
      ensures origin.ChunkList? && HasEnd(origin) == HasEnd(old(origin))
      ensures (err == Eof ==> HasEnd(origin)) && (err == Failed ==> !HasEnd(origin))
    {
      var s := new ChunkStreamReader.At(at);
      p, err := s.Read(want);
      origin := ChunkList(s.Where());
    }

    method ReadAny(left: bytes, want: nat) returns (p: bytes, err: IoError)
      requires 0 < want && origin == AnyStream(left)
      modifies this`origin
      ensures origin.AnyStream? && ReadsOn(left, want, p, err, origin.left)
    {
      var most := Min(want, |left|);
      var k: nat :| k <= most;
      var broken: bool := *;
      if !broken && k == 0 && left != [] {
        k := 1;
      }
      p, origin := left[..k], AnyStream(left[k..]);
      var early: bool := *;
      err := if broken then Failed else if k == |left| && (k == 0 || early) then Eof else NoError;
    }

    /** One read into the buffer. */
    method ReadInto(a: array<byte>, at: nat, want: nat) returns (n: nat, err: IoError)
      requires Valid() && 0 < want && at + want <= a.Length
      modifies this`origin, this`rest, this`broke, a
      ensures Valid() && n <= want && ReadsOn(old(rest), want, a[..][at..at + n], err, rest)
      ensures a[..][..at] == old(a[..])[..at]
      ensures (err == Eof ==> ends) && (err == Failed ==> broke)
    {
      var p;
      p, err := Read(want);
      n := |p|;
      forall k | 0 <= k < n {
        a[at + k] := p[k];
      }
      assert a[..][at..at + n] == p;
    }

    /** Reads until `want` bytes have arrived, the stream has ended or a read failed. */
    method ReadOut(a: array<byte>, at: nat, want: nat) returns (n: nat, err: IoError)
      requires Valid() && 0 < want && at + want <= a.Length
      modifies this`origin, this`rest, this`broke, a
      ensures Valid() && n <= want
      ensures HasRead(old(rest), old(a[..])[..at], a[..], at, n, rest)
      ensures err == NoError ==> n == want
      ensures err == Eof ==> rest == [] && ends
      ensures err == Failed ==> broke
      ensures err != UnexpectedEof
    {
      n, err := 0, NoError;
      ghost var start, before := rest, a[..][..at];
      NothingRead(start, a[..], at);
      while n < want && err == NoError
        invariant Valid() && n <= want && HasRead(start, before, a[..], at, n, rest)
        invariant err == NoError || err == Eof || err == Failed
        invariant (err == Eof ==> rest == [] && ends) && (err == Failed ==> broke)
        decreases want - n, err == NoError
      {
        ghost var s, left := a[..], rest;
        var k;
        k, err := ReadInto(a, at + n, want - n);
        ReadMoreOf(start, before, s, a[..], at, n, k, left, rest);
        n := n + k;
      }
    }

    /** An error with the last of the bytes asked for is none. */
    method ReadFull(a: array<byte>, at: nat, want: nat) returns (n: nat, err: IoError)
      requires Valid() && 0 < want && at + want <= a.Length
      modifies this, a
      ensures Valid() && n <= want
      ensures old(rest) == a[at..at + n] + rest
      ensures a[..at] == old(a[..at])
      ensures err == NoError <==> n == want
      ensures err == Eof ==> n == 0 && rest == [] && ends
      ensures err == UnexpectedEof ==> 0 < n && rest == [] && ends
      ensures failed == (old(failed) || err == Failed)
    {
      n, err := ReadOut(a, at, want);
      if n == want {
        err := NoError;
      } else if 0 < n && err == Eof {
        err := UnexpectedEof;
      }
      failed := failed || err == Failed;
    }
  }

  /** What a buffer holds from `at` on, with the rest, is what there was to read. */
  ghost predicate HasRead(start: bytes, before: bytes, s: bytes, at: nat, n: nat, rest: bytes) {
    at + n <= |s| && s[..at] == before && start == s[at..at + n] + rest
  }

  lemma NothingRead(start: bytes, s: bytes, at: nat)
    requires at <= |s|
    ensures HasRead(start, s[..at], s, at, 0, start)
  {
  }

  lemma ReadMoreOf(
      start: bytes, before: bytes, s: bytes, s': bytes, at: nat, n: nat, k: nat, left: bytes, rest: bytes)
    requires HasRead(start, before, s, at, n, left) && at + n + k <= |s'| && s'[..at + n] == s[..at + n]
    requires left == s'[at + n..at + n + k] + rest
    ensures HasRead(start, before, s', at, n + k, rest)
  {
    assert s'[..at] == s'[..at + n][..at] && s[..at] == s[..at + n][..at];
    assert s[at..at + n] == s[..at + n][at..];
    assert s'[at..at + n + k] == s'[..at + n][at..] + s'[at + n..at + n + k];
    Regroup(s[at..at + n], s'[at + n..at + n + k], rest);
  }
}

/** The cache of an archive's paths, and the search it may answer from. */
module Paths {
  import opened Bytes

  const NEWLINE: byte := 10
  /** "borgepc1" */
  const PATHS_MAGIC: bytes := [0x62, 0x6f, 0x72, 0x67, 0x65, 0x70, 0x63, 0x31]
  const MAX_COUNT: nat := 0x1_0000_0000_0000_0000

  /** The checksum and the compression of the file's body. */
  datatype Codec = Codec(sum: bytes -> bytes, pack: bytes -> bytes, unpack: bytes -> Option<bytes>)

  /** Checksums are 32 bytes long, and what is packed unpacks. */
  ghost predicate Lossless(c: Codec) {
    forall x {:trigger c.pack(x)} :: |c.sum(x)| == 32 && c.unpack(c.pack(x)) == Some(x)
  }

  // ---------------------------------------------------------------- lines

  /** Every path ended by a newline. */
  function Joined(paths: seq<bytes>): bytes {
    if paths == [] then [] else Joined(paths[..|paths| - 1]) + paths[|paths| - 1] + [NEWLINE]
  }

  /** The position of the first newline; the length if there is none. */
  function IndexNewline(s: bytes): (i: nat)
    ensures i <= |s| && NEWLINE !in s[..i] && (i < |s| ==> s[i] == NEWLINE)
  {
    if s == [] || s[0] == NEWLINE then 0
    else
      var i := IndexNewline(s[1..]);
      assert s[..i + 1] == [s[0]] + s[1..][..i];
      i + 1
  }

  /** The lines of a text that ends with a newline, or is empty. */
  function Lines(s: bytes): Option<seq<bytes>>
    decreases |s|
  {
    if s == [] then Some([])
    else
      var i := IndexNewline(s);
      if i == |s| then None
      else
        match Lines(s[i + 1..])
        case None => None
        case Some(rest) => Some([s[..i]] + rest)
  }

  /** A text starting with a line without newlines. */
  lemma FirstLine(p: bytes, rest: bytes)
    requires NEWLINE !in p
    ensures IndexNewline(p + [NEWLINE] + rest) == |p|
    ensures Lines(p + [NEWLINE] + rest) ==
      match Lines(rest) case None => None case Some(l) => Some([p] + l)
  {
    var s := p + [NEWLINE] + rest;
    var i := IndexNewline(s);
    assert s[|p|] == NEWLINE;
    forall k | 0 <= k < |p|
      ensures s[k] != NEWLINE
    {
      assert s[k] == p[k] && p[k] in p;
    }
    forall k | 0 <= k < i
      ensures s[k] != NEWLINE
    {
      assert s[..i][k] == s[k];
    }
    assert s[..|p|] == p && s[|p| + 1..] == rest;
  }

  function Newlines(s: bytes): nat {
    if s == [] then 0 else (if s[0] == NEWLINE then 1 else 0) + Newlines(s[1..])
  }

  lemma {:induction false} NewlinesAppend(a: bytes, b: bytes)
    ensures Newlines(a + b) == Newlines(a) + Newlines(b)
  {
    if a == [] {
      assert a + b == b;
    } else {
      assert (a + b)[1..] == a[1..] + b;
      NewlinesAppend(a[1..], b);
    }
  }

  lemma {:induction false} NoNewlines(s: bytes)
    ensures Newlines(s) == 0 <==> NEWLINE !in s
  {
    if s != [] {
      assert s == [s[0]] + s[1..];
      NoNewlines(s[1..]);
    }
  }

  /** As many lines as newlines. */
  lemma {:induction false} LinesAreCounted(s: bytes)
    ensures Lines(s).Some? ==> |Lines(s).value| == Newlines(s)
    decreases |s|
  {
    if s != [] {
      var i := IndexNewline(s);
      if i < |s| {
        assert s == s[..i] + ([NEWLINE] + s[i + 1..]);
        NewlinesAppend(s[..i], [NEWLINE] + s[i + 1..]);
        NoNewlines(s[..i]);
        assert ([NEWLINE] + s[i + 1..])[1..] == s[i + 1..];
        LinesAreCounted(s[i + 1..]);
      }
    }
  }

  lemma {:induction false} JoinedNewlines(paths: seq<bytes>)
    ensures Newlines(Joined(paths)) >= |paths|
    ensures Newlines(Joined(paths)) == |paths| <==> forall i :: 0 <= i < |paths| ==> NEWLINE !in paths[i]
  {
    if paths != [] {
      var init, last := paths[..|paths| - 1], paths[|paths| - 1];
      JoinedNewlines(init);
      NewlinesAppend(Joined(init) + last, [NEWLINE]);
      NewlinesAppend(Joined(init), last);
      assert Newlines([NEWLINE]) == 1 + Newlines([]);
      NoNewlines(last);
      assert paths == init + [last];
    }
  }

  lemma FourParts(a: bytes, b: bytes, c: bytes, d: bytes)
    ensures a + b + c + d == a + (b + c + d)
  {
  }

  lemma {:induction false} JoinedFront(paths: seq<bytes>)
    requires paths != []
    ensures Joined(paths) == paths[0] + [NEWLINE] + Joined(paths[1..])
  {
    var init, last := paths[..|paths| - 1], paths[|paths| - 1];
    if |paths| == 1 {
      assert Joined(init) == [] && Joined(paths[1..]) == [];
    } else {
      JoinedFront(init);
      assert init[1..] == paths[1..][..|paths| - 2] && paths[1..][|paths| - 2] == last;
      FourParts(paths[0] + [NEWLINE], Joined(init[1..]), last, [NEWLINE]);
    }
  }

  lemma {:induction false} LinesOfJoined(paths: seq<bytes>)
    requires forall i :: 0 <= i < |paths| ==> NEWLINE !in paths[i]
    ensures Lines(Joined(paths)) == Some(paths)
  {
    if paths != [] {
      JoinedFront(paths);
      LinesOfJoined(paths[1..]);
      FirstLine(paths[0], Joined(paths[1..]));
      assert [paths[0]] + paths[1..] == paths;
    }
  }

  // ---------------------------------------------------------------- the file

  function FileOf(c: Codec, paths: seq<bytes>): bytes {
    PATHS_MAGIC + LittleEndian(|paths| % MAX_COUNT, 8) + c.sum(Joined(paths)) + c.pack(Joined(paths))
  }

  /** Every way of being wrong is no entry at all. */
  function ReadBack(c: Codec, file: bytes): Option<seq<bytes>> {
    if |file| < 48 || file[..8] != PATHS_MAGIC then None
    else
      match c.unpack(file[48..])
      case None => None
      case Some(plain) =>
        if c.sum(plain) != file[16..48] then None
        else
          match Lines(plain)
          case None => None
          case Some(paths) => if |paths| == FromLittleEndian(file[8..16]) then Some(paths) else None
  }

  method WritePaths(c: Codec, paths: seq<bytes>) returns (file: bytes)
    ensures file == FileOf(c, paths)
  {
    var plain: bytes := [];
    for i := 0 to |paths|
      invariant plain == Joined(paths[..i])
    {
      assert paths[..i + 1][..i] == paths[..i];
      plain := plain + paths[i] + [NEWLINE];
    }
    assert paths[..|paths|] == paths;
    file := PATHS_MAGIC + LittleEndian(|paths| % MAX_COUNT, 8) + c.sum(plain) + c.pack(plain);
  }

  method ReadPaths(c: Codec, file: bytes) returns (paths: Option<seq<bytes>>)
    ensures paths == ReadBack(c, file)
  {
    if |file| < 48 {
      return None;
    }
    if file[..8] != PATHS_MAGIC {
      return None;
    }
    var count := FromLittleEndian(file[8..16]);
    var unpacked := c.unpack(file[48..]);
    if unpacked.None? {
      return None;
    }
    var plain := unpacked.value;
    if c.sum(plain) != file[16..48] {
      return None;
    }
    var list := SplitLines(plain);
    if list.None? {
      return None;
    }
    if |list.value| != count {
      return None;
    }
    return list;
  }

  method SplitLines(text: bytes) returns (lines: Option<seq<bytes>>)
    ensures lines == Lines(text)
  {
    var plain: bytes, paths: seq<bytes> := text, [];
    assert Lines(text).Some? ==> [] + Lines(text).value == Lines(text).value;
    while |plain| > 0
      invariant Lines(text) == Prepend(paths, Lines(plain))
    {
      var i := IndexNewline(plain);
      if i == |plain| {
        return None;
      }
      LinesStep(plain, paths, i);
      paths := paths + [plain[..i]];
      plain := plain[i + 1..];
    }
    assert paths + [] == paths;
    return Some(paths);
  }

  lemma LinesHead(plain: bytes, i: nat)
    requires i == IndexNewline(plain) < |plain|
    ensures Lines(plain) == Prepend([plain[..i]], Lines(plain[i + 1..]))
  {
  }

  lemma LinesStep(plain: bytes, paths: seq<bytes>, i: nat)
    requires i == IndexNewline(plain) < |plain|
    ensures Prepend(paths, Lines(plain)) == Prepend(paths + [plain[..i]], Lines(plain[i + 1..]))
  {
    LinesHead(plain, i);
    PrependLaws(paths, [plain[..i]], Lines(plain[i + 1..]));
  }

  lemma Slices(a: bytes, b: bytes, c: bytes, d: bytes)
    requires |a| == 8 && |b| == 8 && |c| == 32
    ensures var s := a + b + c + d;
      48 <= |s| && s[..8] == a && s[8..16] == b && s[16..48] == c && s[48..] == d
  {
  }

  /** The parts of a file are where the reader looks for them. */
  lemma FileParts(c: Codec, paths: seq<bytes>)
    requires Lossless(c) && |paths| < MAX_COUNT
    ensures var file, plain := FileOf(c, paths), Joined(paths);
      && 48 <= |file| && file[..8] == PATHS_MAGIC && c.unpack(file[48..]) == Some(plain)
      && file[16..48] == c.sum(plain) && FromLittleEndian(file[8..16]) == |paths|
  {
    var plain := Joined(paths);
    assert c.unpack(c.pack(plain)) == Some(plain) && |c.sum(plain)| == 32;
    Slices(PATHS_MAGIC, LittleEndian(|paths| % MAX_COUNT, 8), c.sum(plain), c.pack(plain));
    EightBytes();
    CountBack(|paths|, 8);
  }

  lemma CountBack(n: nat, width: nat)
    requires n < MAX_COUNT == Pow256(width)
    ensures FromLittleEndian(LittleEndian(n % MAX_COUNT, width)) == n
  {
    LittleEndianBack(n, width);
  }

  lemma EightBytes()
    ensures Pow256(8) == MAX_COUNT
  {
    assert Pow256(4) == 0x1_0000_0000;
  }

  /** What was written reads back as it was, or, exactly when a path contains a newline,
      not at all: the line count gives it away. */
  lemma RoundTripIff(c: Codec, paths: seq<bytes>)
    requires Lossless(c) && |paths| < MAX_COUNT
    ensures ReadBack(c, FileOf(c, paths)) ==
      if forall i :: 0 <= i < |paths| ==> NEWLINE !in paths[i] then Some(paths) else None
  {
    FileParts(c, paths);
    LinesAreCounted(Joined(paths));
    JoinedNewlines(paths);
    if forall i :: 0 <= i < |paths| ==> NEWLINE !in paths[i] {
      LinesOfJoined(paths);
    }
  }

  ghost predicate AreLines(paths: seq<bytes>, s: bytes) {
    Joined(paths) == s && forall i :: 0 <= i < |paths| ==> NEWLINE !in paths[i]
  }

  lemma LineMore(s: bytes, i: nat, rest: seq<bytes>)
    requires i < |s| && s[i] == NEWLINE && NEWLINE !in s[..i] && AreLines(rest, s[i + 1..])
    ensures AreLines([s[..i]] + rest, s)
  {
    var paths := [s[..i]] + rest;
    JoinedFront(paths);
    assert paths[1..] == rest;
    assert s == s[..i] + [NEWLINE] + s[i + 1..];
  }

  /** What comes out of a text are its lines, and they leave nothing out. */
  lemma {:induction false} LinesAreJoined(s: bytes)
    requires Lines(s).Some?
    ensures AreLines(Lines(s).value, s)
    decreases |s|
  {
    if s != [] {
      var i := IndexNewline(s);
      LinesAreJoined(s[i + 1..]);
      LineMore(s, i, Lines(s[i + 1..]).value);
    }
  }

  /** The file of a list of paths, told from its bytes: "borgepc1", the count in eight bytes,
      the checksum of the text in 32, and the text packed; a line for each path. */
  ghost predicate IsFileOf(c: Codec, file: bytes, paths: seq<bytes>) {
    && 48 <= |file| && file[..8] == [0x62, 0x6f, 0x72, 0x67, 0x65, 0x70, 0x63, 0x31]
    && FromLittleEndian(file[8..16]) == |paths|
    && c.unpack(file[48..]) == Some(Joined(paths)) && c.sum(Joined(paths)) == file[16..48]
    && forall i :: 0 <= i < |paths| ==> 10 !in paths[i]
  }

  /** What reads back at all reads back as the one list it is the file of. */
  lemma ReadBackIff(c: Codec, file: bytes, paths: seq<bytes>)
    ensures ReadBack(c, file) == Some(paths) <==> IsFileOf(c, file, paths)
  {
    if IsFileOf(c, file, paths) {
      LinesOfJoined(paths);
    }
    if ReadBack(c, file) == Some(paths) {
      LinesAreJoined(c.unpack(file[48..]).value);
    }
  }

  /** What is written is such a file, newlines in paths apart. */
  lemma FileOfIs(c: Codec, paths: seq<bytes>)
    requires Lossless(c) && |paths| < MAX_COUNT && forall i :: 0 <= i < |paths| ==> NEWLINE !in paths[i]
    ensures IsFileOf(c, FileOf(c, paths), paths)
  {
    FileParts(c, paths);
  }

  // ---------------------------------------------------------------- searching

  type Id = bytes

  /** An archive's items, as far as they can be read: `opens` and `clean` tell whether the
      archive and its whole stream can be. */
  datatype Archive<I> = Archive(id: Id, exists_: bool, opens: bool, items: seq<I>, clean: bool)

  /** What is asked for: the paths wanted, the line an item gives, and the line a path
      gives where the format names nothing an item has beyond its path. A line that cannot
      be formatted ends the archive. */
  datatype Query<!I> = Query(
    path: I -> bytes, wanted: bytes -> bool, line: (Id, I) -> Option<string>,
    served: bool, pathLine: (Id, bytes) -> Option<string>)

  /** A format is served from paths only when its lines depend on nothing else. */
  ghost predicate Serves<I(!new)>(q: Query<I>) {
    q.served ==> forall id, it {:trigger q.line(id, it)} :: q.line(id, it) == q.pathLine(id, q.path(it))
  }

  /** Lines printed, and whether a warning was. */
  datatype Report = Report(lines: seq<string>, warned: bool)

  function PathsOf<I>(q: Query<I>, items: seq<I>): (ps: seq<bytes>)
    ensures |ps| == |items|
  {
    seq(|items|, i requires 0 <= i < |items| => q.path(items[i]))
  }

  /** The search of one stream. */
  function Stream<I>(q: Query<I>, id: Id, items: seq<I>, clean: bool): Report {
    if items == [] then Report([], !clean)
    else if !q.wanted(q.path(items[0])) then Stream(q, id, items[1..], clean)
    else
      match q.line(id, items[0])
      case None => Report([], true)
      case Some(l) => var r := Stream(q, id, items[1..], clean); Report([l] + r.lines, r.warned)
  }

  /** What a search prints for one archive; nothing here knows of a cache. */
  function Searched<I>(q: Query<I>, a: Archive<I>): Report {
    if !a.exists_ || !a.opens then Report([], true) else Stream(q, a.id, a.items, a.clean)
  }

  /** One more item in a stream: a line if it is wanted, unless one before it failed. */
  lemma {:induction false} StreamGrows<I>(q: Query<I>, id: Id, items: seq<I>, it: I, clean: bool)
    ensures Stream(q, id, [], clean) == Report([], !clean)
    ensures var r, line := Stream(q, id, items, true), q.line(id, it);
      Stream(q, id, items + [it], clean) ==
      if r.warned then r
      else if !q.wanted(q.path(it)) then Report(r.lines, !clean)
      else if line.None? then Report(r.lines, true)
      else Report(r.lines + [line.value], !clean)
  {
    if items == [] {
      assert [] + [it] == [it] && [it][1..] == [];
    } else {
      assert (items + [it])[0] == items[0] && (items + [it])[1..] == items[1..] + [it];
      StreamGrows(q, id, items[1..], it, clean);
    }
  }

  function SearchedAll<I>(q: Query<I>, archives: seq<Archive<I>>): Report {
    if archives == [] then Report([], false)
    else
      var r, s := SearchedAll(q, archives[..|archives| - 1]), Searched(q, archives[|archives| - 1]);
      Report(r.lines + s.lines, r.warned || s.warned)
  }

  /** A line the format cannot make of an item that is wanted. */
  predicate LineFails<I>(q: Query<I>, id: Id, it: I) {
    q.wanted(q.path(it)) && q.line(id, it).None?
  }

  lemma {:induction false} StreamWarnsIff<I>(q: Query<I>, id: Id, items: seq<I>, clean: bool)
    ensures Stream(q, id, items, clean).warned <==> !clean || exists k :: 0 <= k < |items| && LineFails(q, id, items[k])
  {
    if items != [] {
      StreamWarnsIff(q, id, items[1..], clean);
      assert forall k :: 0 < k < |items| ==> items[k] == items[1..][k - 1];
      if k :| 0 <= k < |items[1..]| && LineFails(q, id, items[1..][k]) {
        assert items[k + 1] == items[1..][k];
      }
    }
  }

  /** An archive that is gone, cannot be opened or read to its end, or has such a line. */
  predicate Troubled<I>(q: Query<I>, a: Archive<I>) {
    !a.exists_ || !a.opens || !a.clean || exists k :: 0 <= k < |a.items| && LineFails(q, a.id, a.items[k])
  }

  /** A search warns exactly of such an archive. */
  lemma {:induction false} WarnsIff<I>(q: Query<I>, archives: seq<Archive<I>>)
    ensures SearchedAll(q, archives).warned <==> exists i :: 0 <= i < |archives| && Troubled(q, archives[i])
  {
    if archives != [] {
      var a := archives[|archives| - 1];
      WarnsIff(q, archives[..|archives| - 1]);
      StreamWarnsIff(q, a.id, a.items, a.clean);
    }
  }

  /** An entry that can be read holds the paths of an archive that could be. */
  ghost predicate Honest<I>(c: Codec, cache: map<Id, bytes>, q: Query<I>, a: Archive<I>) {
    a.id in cache && ReadBack(c, cache[a.id]).Some? ==>
      a.clean && ReadBack(c, cache[a.id]).value == PathsOf(q, a.items)
  }

  ghost predicate AllHonest<I>(c: Codec, cache: map<Id, bytes>, q: Query<I>, archives: seq<Archive<I>>) {
    forall i :: 0 <= i < |archives| ==> Honest(c, cache, q, archives[i])
  }

  /** Archives never change: one id, one stream. */
  ghost predicate Immutable<I>(archives: seq<Archive<I>>) {
    forall i, j :: 0 <= i < |archives| && 0 <= j < |archives| && archives[i].id == archives[j].id ==>
      archives[i] == archives[j]
  }

  /** The wanted paths of a list, in order. */
  function Hits<I>(q: Query<I>, paths: seq<bytes>): seq<bytes> {
    if paths == [] then [] else (if q.wanted(paths[0]) then [paths[0]] else []) + Hits(q, paths[1..])
  }

  /** The lines of a list of paths. */
  function Served<I>(q: Query<I>, id: Id, hits: seq<bytes>): Report {
    if hits == [] then Report([], false)
    else
      match q.pathLine(id, hits[0])
      case None => Report([], true)
      case Some(l) => var r := Served(q, id, hits[1..]); Report([l] + r.lines, r.warned)
  }

  /** No hit among the paths: the stream prints nothing. Hits, and a format that needs no
      more than the path: they print what the stream does. */
  lemma {:induction false} CacheAnswers<I(!new)>(q: Query<I>, id: Id, items: seq<I>)
    requires Serves(q)
    ensures var hits := Hits(q, PathsOf(q, items));
      (hits == [] ==> Stream(q, id, items, true) == Report([], false))
      && (q.served ==> Served(q, id, hits) == Stream(q, id, items, true))
  {
    if items != [] {
      assert PathsOf(q, items)[1..] == PathsOf(q, items[1..]);
      CacheAnswers(q, id, items[1..]);
      var hits := Hits(q, PathsOf(q, items));
      if q.wanted(q.path(items[0])) {
        assert hits[1..] == Hits(q, PathsOf(q, items[1..]));
        assert q.served ==> q.line(id, items[0]) == q.pathLine(id, q.path(items[0]));
      } else {
        assert hits == Hits(q, PathsOf(q, items[1..]));
      }
    }
  }

  /** The hits among cached paths; one is enough when they are not to be printed. */
  method FindHits<I>(q: Query<I>, paths: seq<bytes>) returns (hits: seq<bytes>)
    ensures q.served ==> hits == Hits(q, paths)
    ensures hits == [] <==> Hits(q, paths) == []
  {
    hits := [];
    assert paths[0..] == paths;
    for i := 0 to |paths|
      invariant hits + Hits(q, paths[i..]) == Hits(q, paths)
    {
      assert paths[i..][1..] == paths[i + 1..];
      if q.wanted(paths[i]) {
        assert hits + ([paths[i]] + Hits(q, paths[i + 1..])) == hits + [paths[i]] + Hits(q, paths[i + 1..]);
        hits := hits + [paths[i]];
        if !q.served {
          return;
        }
      } else {
        assert [] + Hits(q, paths[i + 1..]) == Hits(q, paths[i + 1..]);
      }
    }
  }

  method Serve<I>(q: Query<I>, id: Id, hits: seq<bytes>) returns (r: Report)
    ensures r == Served(q, id, hits)
  {
    var lines: seq<string> := [];
    assert hits[0..] == hits;
    for i := 0 to |hits|
      invariant var s := Served(q, id, hits[i..]); Served(q, id, hits) == Report(lines + s.lines, s.warned)
    {
      assert hits[i..][1..] == hits[i + 1..];
      var line := q.pathLine(id, hits[i]);
      if line.None? {
        return Report(lines, true);
      }
      ghost var s := Served(q, id, hits[i + 1..]);
      assert lines + ([line.value] + s.lines) == lines + [line.value] + s.lines;
      lines := lines + [line.value];
    }
    return Report(lines, false);
  }

  /** The stream is read, and its paths are recorded on the way past. */
  method ReadStream<I>(q: Query<I>, a: Archive<I>) returns (r: Report, seen: seq<bytes>, passed: bool)
    ensures r == Stream(q, a.id, a.items, a.clean)
    ensures passed ==> a.clean && seen == PathsOf(q, a.items)
  {
    var lines: seq<string> := [];
    seen := [];
    assert a.items[0..] == a.items;
    for i := 0 to |a.items|
      invariant var s := Stream(q, a.id, a.items[i..], a.clean);
        Stream(q, a.id, a.items, a.clean) == Report(lines + s.lines, s.warned)
      invariant seen == PathsOf(q, a.items[..i])
    {
      assert a.items[i..][1..] == a.items[i + 1..];
      assert PathsOf(q, a.items[..i + 1]) == PathsOf(q, a.items[..i]) + [q.path(a.items[i])];
      seen := seen + [q.path(a.items[i])];
      if q.wanted(q.path(a.items[i])) {
        var line := q.line(a.id, a.items[i]);
        if line.None? {
          return Report(lines, true), seen, false;
        }
        ghost var s := Stream(q, a.id, a.items[i + 1..], a.clean);
        assert lines + ([line.value] + s.lines) == lines + [line.value] + s.lines;
        lines := lines + [line.value];
      }
    }
    assert a.items[..|a.items|] == a.items;
    return Report(lines, !a.clean), seen, a.clean;
  }

  /** One archive, answered from the cache where it can be. */
  method SearchOne<I(!new)>(c: Codec, cache: map<Id, bytes>, q: Query<I>, a: Archive<I>)
      returns (r: Report, cache': map<Id, bytes>)
    requires Lossless(c) && Serves(q) && Honest(c, cache, q, a) && |a.items| < MAX_COUNT
    ensures r == Searched(q, a)
    ensures Honest(c, cache', q, a)
    ensures cache' == cache || (a.id in cache' && cache' == cache[a.id := cache'[a.id]])
  {
    cache' := cache;
    if !a.exists_ || !a.opens {
      return Report([], true), cache;
    }
    var cached: Option<seq<bytes>> := None;
    if a.id in cache {
      cached := ReadPaths(c, cache[a.id]);
    }
    if cached.Some? {
      var hits := FindHits(q, cached.value);
      CacheAnswers(q, a.id, a.items);
      if |hits| == 0 {
        return Report([], false), cache;
      }
      if q.served {
        r := Serve(q, a.id, hits);
        return r, cache;
      }
      var seen, passed;
      r, seen, passed := ReadStream(q, a);
    } else {
      var seen, passed;
      r, seen, passed := ReadStream(q, a);
      if passed {
        var file := WritePaths(c, seen);
        RoundTripIff(c, seen);
        cache' := cache[a.id := file];
      }
    }
  }

  /** For any cache of honest entries, missing or broken ones included, a search prints the
      lines and warnings it prints without a cache, and leaves the cache honest. */
  method Find<I(!new)>(c: Codec, cache: map<Id, bytes>, q: Query<I>, archives: seq<Archive<I>>)
      returns (r: Report, cache': map<Id, bytes>)
    requires Lossless(c) && Serves(q) && AllHonest(c, cache, q, archives) && Immutable(archives)
    requires forall i :: 0 <= i < |archives| ==> |archives[i].items| < MAX_COUNT
    ensures r == SearchedAll(q, archives)
    ensures AllHonest(c, cache', q, archives)
  {
    r, cache' := Report([], false), cache;
    for i := 0 to |archives|
      invariant r == SearchedAll(q, archives[..i])
      invariant AllHonest(c, cache', q, archives)
    {
      assert archives[..i + 1][..i] == archives[..i];
      ghost var before := cache';
      var one;
      one, cache' := SearchOne(c, cache', q, archives[i]);
      StillHonest(c, before, cache', q, archives, i);
      r := Report(r.lines + one.lines, r.warned || one.warned);
    }
    assert archives[..|archives|] == archives;
  }

  lemma StillHonest<I>(c: Codec, cache: map<Id, bytes>, cache': map<Id, bytes>, q: Query<I>, archives: seq<Archive<I>>, i: nat)
    requires i < |archives| && AllHonest(c, cache, q, archives) && Immutable(archives)
    requires Honest(c, cache', q, archives[i])
    requires cache' == cache || (archives[i].id in cache' && cache' == cache[archives[i].id := cache'[archives[i].id]])
    ensures AllHonest(c, cache', q, archives)
  {
    forall j | 0 <= j < |archives|
      ensures Honest(c, cache', q, archives[j])
    {
      assert Honest(c, cache, q, archives[j]);
    }
  }
}
